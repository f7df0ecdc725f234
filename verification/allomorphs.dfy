/** The rows of `tamayame_dictionary.allomorphs` and the pieces of SQL the
    option chains of app.py share: the person/person gloss pattern, the
    transitive- and intransitive-shaped row filters, and
    `SELECT DISTINCT ON (davis_id) … ORDER BY davis_id, length(form), allomorph_id`. */
module Allomorphs {
  import opened Wrappers
  import opened Text
  import Ordering
  import Dedup

  /** An allomorph row; NULL columns are None. */
  datatype Allomorph = Allomorph(
    id: int,
    davisId: Option<string>,
    form: string,
    urGloss: Option<string>,
    category: string,
    transitivity: Option<string>,
    partialParadigm: Option<int>)

  // ------------------------------------------------------------------
  // The pattern '(^|[^0-9])[123]/[123]'
  // ------------------------------------------------------------------

  predicate IsPerson(c: char) {
    c == '1' || c == '2' || c == '3'
  }

  /** A person/person pair such as "1/3" starts at `i`, at the start of the
      gloss or after a character that is not a digit. */
  predicate PersonPairAt(g: string, i: int) {
    && 0 <= i && i + 2 < |g|
    && IsPerson(g[i]) && g[i + 1] == '/' && IsPerson(g[i + 2])
    && (i == 0 || !IsDigit(g[i - 1]))
  }

  /** The gloss matches the pattern somewhere. */
  predicate PersonPair(g: string) {
    exists i :: 0 <= i < |g| && PersonPairAt(g, i)
  }

  /** A left-to-right scan for the pattern, from position `i` on. */
  function ScanPersonPair(g: string, i: nat): bool
    decreases |g| - i
  {
    if i + 2 >= |g| then false
    else PersonPairAt(g, i) || ScanPersonPair(g, i + 1)
  }

  /** The scan finds a match exactly when one starts at or after `i`. */
  lemma {:induction false} ScanPersonPairFinds(g: string, i: nat)
    ensures ScanPersonPair(g, i) <==> exists k :: i <= k < |g| && PersonPairAt(g, k)
    decreases |g| - i
  {
    if i + 2 < |g| {
      ScanPersonPairFinds(g, i + 1);
      if !PersonPairAt(g, i) {
        assert forall k :: i <= k < |g| && PersonPairAt(g, k) ==> i + 1 <= k;
      }
    }
  }

  /** Scanning from the start decides the pattern. */
  lemma ScanPersonPairDecides(g: string)
    ensures ScanPersonPair(g, 0) <==> PersonPair(g)
  {
    ScanPersonPairFinds(g, 0);
  }

  /** "1/3" matches, and so does a pair after a letter; a pair glued to a
      preceding digit does not. */
  lemma PersonPairExamples()
    ensures PersonPair("1/3")
    ensures PersonPair("A1/2")
    ensures !PersonPair("11/2x")
  {
    assert PersonPairAt("1/3", 0);
    assert PersonPairAt("A1/2", 1);
    var g := "11/2x";
    forall i | 0 <= i < |g|
      ensures !PersonPairAt(g, i)
    {
      if i == 1 {
        assert IsDigit(g[0]);
      }
    }
  }

  // ------------------------------------------------------------------
  // Row shapes
  // ------------------------------------------------------------------

  /** `COALESCE(a.transitivity, '')`. */
  function TransitivityText(a: Allomorph): string {
    match a.transitivity
    case None => ""
    case Some(t) => t
  }

  /** The transitive inventory of app.py:1109-1120 and 1211-1221: a PRMP row
      marked transitive in any case, or unmarked with a person/person gloss. */
  predicate TransitiveShaped(a: Allomorph) {
    && a.category == "PRMP"
    && (|| Lower(TransitivityText(a)) == "transitive"
        || (TransitivityText(a) == "" && a.urGloss.Some? && PersonPair(a.urGloss.value)))
  }

  /** The intransitive inventory of app.py:1182-1190: a PRMP row marked
      intransitive, or unmarked with a non-null gloss lacking the pattern. */
  predicate IntransitiveShaped(a: Allomorph) {
    && a.category == "PRMP"
    && (|| Lower(TransitivityText(a)) == "intransitive"
        || (TransitivityText(a) == "" && a.urGloss.Some? && !PersonPair(a.urGloss.value)))
  }

  /** The rows the voice query admits (app.py:1074-1077): PRMP rows with a
      non-null single-person gloss. */
  predicate SinglePerson(a: Allomorph) {
    a.category == "PRMP" && a.urGloss.Some? && !PersonPair(a.urGloss.value)
  }

  /** No row is in both inventories. */
  lemma ShapesDisjoint(a: Allomorph)
    ensures !(TransitiveShaped(a) && IntransitiveShaped(a))
  {
    var t := TransitivityText(a);
    if t == "" {
      assert Lower(t) == "";
    }
  }

  /** An unmarked PRMP row with a gloss is in exactly one inventory. */
  lemma UnmarkedIsInOne(a: Allomorph)
    requires a.category == "PRMP" && a.transitivity.None? && a.urGloss.Some?
    ensures TransitiveShaped(a) <==> !IntransitiveShaped(a)
  {
    assert Lower("") == "";
  }

  // ------------------------------------------------------------------
  // Selection and DISTINCT ON
  // ------------------------------------------------------------------

  /** The rows of `s` that satisfy `p`, in order. */
  function Where<T>(s: seq<T>, p: T -> bool): (r: seq<T>)
    ensures |r| <= |s|
    ensures forall i :: 0 <= i < |r| ==> r[i] in s && p(r[i])
    ensures forall i :: 0 <= i < |s| && p(s[i]) ==> s[i] in r
    decreases |s|
  {
    if |s| == 0 then []
    else (if p(s[0]) then [s[0]] else []) + Where(s[1..], p)
  }

  /** `ORDER BY davis_id, length(form), allomorph_id`. */
  function DavisKey(a: Allomorph): Ordering.Key {
    [match a.davisId case None => Ordering.Null case Some(d) => Ordering.Text(d),
     Ordering.Num(|a.form| as real),
     Ordering.Num(a.id as real)]
  }

  function DavisOf(a: Allomorph): Option<string> {
    a.davisId
  }

  /** `DISTINCT ON (davis_id)` over the sorted rows: the first row of each
      davis_id; NULL davis_ids count as one value. */
  function DistinctOnDavis(rows: seq<Allomorph>): (r: seq<Allomorph>)
    ensures |r| <= |rows|
  {
    Dedup.DedupBy(Ordering.SortByKey(rows, DavisKey), DavisOf)
  }

  /** One row per davis_id, each davis_id of the input is represented, and
      every row comes from the input. */
  lemma DistinctOnDavisFacts(rows: seq<Allomorph>)
    ensures var r := DistinctOnDavis(rows);
            && (forall i, j :: 0 <= i < j < |r| ==> r[i].davisId != r[j].davisId)
            && (forall x :: x in r ==> x in rows)
            && (forall x :: x in rows ==> exists i :: 0 <= i < |r| && r[i].davisId == x.davisId)
  {
    DistinctOnDavisUnique(rows);
    DistinctOnDavisFromInput(rows);
    DistinctOnDavisCovers(rows);
  }

  lemma DistinctOnDavisUnique(rows: seq<Allomorph>)
    ensures var r := DistinctOnDavis(rows);
            forall i, j :: 0 <= i < j < |r| ==> r[i].davisId != r[j].davisId
  {
    var r := DistinctOnDavis(rows);
    Dedup.DedupByFirstOccurrences(Ordering.SortByKey(rows, DavisKey), DavisOf);
    assert forall i, j :: 0 <= i < j < |r| ==> DavisOf(r[i]) != DavisOf(r[j]);
  }

  lemma DistinctOnDavisFromInput(rows: seq<Allomorph>)
    ensures forall x :: x in DistinctOnDavis(rows) ==> x in rows
  {
    var s := Ordering.SortByKey(rows, DavisKey);
    Dedup.DedupBySubset(s, DavisOf);
    forall x | x in DistinctOnDavis(rows)
      ensures x in rows
    {
      assert x in multiset(s);
    }
  }

  lemma DistinctOnDavisCovers(rows: seq<Allomorph>)
    ensures var r := DistinctOnDavis(rows);
            forall x :: x in rows ==> exists i :: 0 <= i < |r| && r[i].davisId == x.davisId
  {
    var s := Ordering.SortByKey(rows, DavisKey);
    var r := DistinctOnDavis(rows);
    Dedup.DedupByCovers(s, DavisOf);
    forall x | x in rows
      ensures exists i :: 0 <= i < |r| && r[i].davisId == x.davisId
    {
      assert x in multiset(s);
      var k :| 0 <= k < |s| && s[k] == x;
      assert Dedup.HasKey(r, DavisOf, DavisOf(s[k]));
    }
  }

  /** The row kept for a davis_id has the shortest form among the input rows
      with that davis_id, and the lowest id among those of that length. */
  lemma DistinctOnDavisPicksShortest(rows: seq<Allomorph>, i: nat, x: Allomorph)
    requires i < |DistinctOnDavis(rows)|
    requires x in rows && x.davisId == DistinctOnDavis(rows)[i].davisId
    ensures var o := DistinctOnDavis(rows)[i];
            |o.form| < |x.form| || (|o.form| == |x.form| && o.id <= x.id)
  {
    var k := SortedIndex(rows, x);
    KeptIsShortest(Ordering.SortByKey(rows, DavisKey), i, k);
  }

  /** The row `DISTINCT ON` keeps from a filtered table is the shortest
      (then lowest-id) row passing the filter with its davis_id. */
  lemma WhereDistinctPicksShortest(s: seq<Allomorph>, p: Allomorph -> bool, i: nat, x: Allomorph)
    requires i < |DistinctOnDavis(Where(s, p))|
    requires x in s && p(x) && x.davisId == DistinctOnDavis(Where(s, p))[i].davisId
    ensures var o := DistinctOnDavis(Where(s, p))[i];
            |o.form| < |x.form| || (|o.form| == |x.form| && o.id <= x.id)
  {
    var k :| 0 <= k < |s| && s[k] == x;
    assert x in Where(s, p);
    DistinctOnDavisPicksShortest(Where(s, p), i, x);
  }

  /** The same over any sequence already sorted by the key. */
  lemma KeptIsShortest(s: seq<Allomorph>, i: nat, k: nat)
    requires Ordering.SortedBy(s, DavisKey)
    requires i < |Dedup.DedupBy(s, DavisOf)| && k < |s|
    requires s[k].davisId == Dedup.DedupBy(s, DavisOf)[i].davisId
    ensures var o := Dedup.DedupBy(s, DavisOf)[i];
            |o.form| < |s[k].form| || (|o.form| == |s[k].form| && o.id <= s[k].id)
  {
    var f := Dedup.DedupByKeptBefore(s, DavisOf, i, k);
    if f < k {
      assert Ordering.KeyLe(DavisKey(s[f]), DavisKey(s[k]));
      DavisKeyOrder(s[f], s[k]);
    }
  }

  /** Where a row of the input sits once sorted by the DISTINCT ON key. */
  lemma SortedIndex(rows: seq<Allomorph>, x: Allomorph) returns (k: nat)
    requires x in rows
    ensures var s := Ordering.SortByKey(rows, DavisKey);
            k < |s| && s[k] == x
  {
    var s := Ordering.SortByKey(rows, DavisKey);
    assert x in multiset(rows);
    assert x in multiset(s);
    k :| 0 <= k < |s| && s[k] == x;
  }

  /** Between rows of one davis_id the key orders by form length, then id. */
  lemma DavisKeyOrder(o: Allomorph, x: Allomorph)
    requires o.davisId == x.davisId
    requires Ordering.KeyLe(DavisKey(o), DavisKey(x))
    ensures |o.form| < |x.form| || (|o.form| == |x.form| && o.id <= x.id)
  {
    var a, b := DavisKey(o), DavisKey(x);
    assert a[0] == b[0];
    assert a[1..] == [a[1], a[2]] && b[1..] == [b[1], b[2]];
    assert Ordering.KeyLe([a[1], a[2]], [b[1], b[2]]);
    if a[1] == b[1] {
      assert [a[1], a[2]][1..] == [a[2]] && [b[1], b[2]][1..] == [b[2]];
      assert Ordering.KeyLe([a[2]], [b[2]]);
      assert Ordering.PartLe(a[2], b[2]);
    } else {
      assert Ordering.PartLe(a[1], b[1]);
    }
  }

  /** Rows that all satisfy a predicate still do after DISTINCT ON. */
  lemma DistinctOnDavisKeeps(rows: seq<Allomorph>, p: Allomorph -> bool)
    requires forall x :: x in rows ==> p(x)
    ensures forall x :: x in DistinctOnDavis(rows) ==> p(x)
  {
    DistinctOnDavisFacts(rows);
  }
}
