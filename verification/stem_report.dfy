/** The stem report of db/examples_dal.py (lines 424-485): the report
    query's select expressions for one example_morphemes row, the Python
    loop that groups the rows by example, and the final rows sorted by
    example id. */
module StemReport {
  import opened Wrappers
  import opened Text
  import Ordering
  import Dedup

  /** A row of the report query before its select expressions: the example,
      its entry's headword and paradigm class, one slot row's joined
      columns, and the translation. */
  datatype ReportRow = ReportRow(
    exampleId: int,
    headword: Option<string>,
    paradigmClassId: Option<int>,
    slot: Option<string>,
    aForm: Option<string>,
    taForm: Option<string>,
    mSegment: Option<string>,
    aGloss: Option<string>,
    mGloss: Option<string>,
    translation: Option<string>)

  // ------------------------------------------------------------------
  // Select expressions (lines 430-434)
  // ------------------------------------------------------------------

  /** `COALESCE(a, b)`. */
  function Coalesce(a: Option<string>, b: Option<string>): (r: Option<string>)
    ensures r.None? <==> a.None? && b.None?
    ensures a.Some? ==> r == a
    ensures a.None? ==> r == b
  {
    if a.Some? then a else b
  }

  /** `NULLIF(x, '')`. */
  function NullIfEmpty(x: Option<string>): (r: Option<string>)
    ensures r.None? <==> !Truthy(x)
    ensures r.Some? ==> r == x
  {
    if Truthy(x) then x else None
  }

  /** `COALESCE(a.form, ta.form, m.segment)`. */
  function Seg(r: ReportRow): Option<string> {
    Coalesce(Coalesce(r.aForm, r.taForm), r.mSegment)
  }

  /** The gloss column: the morpheme gloss on a ROOT row, else the
      allomorph's UR gloss, with '' read as NULL. A NULL slot is not ROOT. */
  function Gloss(r: ReportRow): Option<string> {
    if r.slot == Some("ROOT") then NullIfEmpty(r.mGloss) else NullIfEmpty(r.aGloss)
  }

  /** `r["seg"] or ""`. */
  function SegText(r: ReportRow): string {
    OrElse(Seg(r), "")
  }

  /** `(r["gloss"] or "").strip()`. */
  function Token(r: ReportRow): (t: string)
    ensures NoEdgeSpace(t)
  {
    Strip(OrElse(Gloss(r), ""))
  }

  /** `{1: "A", 2: "B", 3: "C", 4: "D"}.get(id)`. */
  function ClassLetter(id: Option<int>): (r: Option<string>)
    ensures r.Some? <==> id.Some? && 1 <= id.value <= 4
    ensures r.Some? ==> r.value == ["ABCD"[id.value - 1]]
  {
    match id
    case Some(1) => Some("A")
    case Some(2) => Some("B")
    case Some(3) => Some("C")
    case Some(4) => Some("D")
    case _ => None
  }

  // ------------------------------------------------------------------
  // The grouping loop (lines 456-471)
  // ------------------------------------------------------------------

  /** One record of `by_ex`. */
  datatype Group = Group(
    exampleId: int,
    headword: Option<string>,
    translation: Option<string>,
    paradigmClass: Option<string>,
    segs: seq<string>,
    glosses: seq<string>)

  function GroupId(g: Group): int {
    g.exampleId
  }

  function ExampleOf(r: ReportRow): int {
    r.exampleId
  }

  /** The record `setdefault` creates from the first row of an example. */
  function Start(r: ReportRow): Group {
    Group(r.exampleId, r.headword, r.translation, ClassLetter(r.paradigmClassId), [], [])
  }

  /** Appending a row's segment, and its token when it is non-empty. */
  function Extend(g: Group, r: ReportRow): Group {
    g.(segs := g.segs + [SegText(r)], glosses := g.glosses + if Token(r) != "" then [Token(r)] else [])
  }

  /** One iteration: extend the example's record, creating it at the end
      of `by_ex` the first time the example is seen. */
  function AddRow(groups: seq<Group>, r: ReportRow): seq<Group> {
    if Dedup.HasKey(groups, GroupId, r.exampleId) then
      var i := Dedup.FirstIndex(groups, GroupId, r.exampleId);
      groups[i := Extend(groups[i], r)]
    else groups + [Extend(Start(r), r)]
  }

  /** `by_ex.values()` after the loop. */
  function Aggregate(rows: seq<ReportRow>): seq<Group> {
    if |rows| == 0 then []
    else AddRow(Aggregate(rows[..|rows| - 1]), rows[|rows| - 1])
  }

  // ------------------------------------------------------------------
  // What each record should hold
  // ------------------------------------------------------------------

  /** Every segment of the example's rows, in row order. */
  function SegsOf(rows: seq<ReportRow>, id: int): (r: seq<string>)
    ensures |r| <= |rows|
  {
    if |rows| == 0 then []
    else SegsOf(rows[..|rows| - 1], id) + if rows[|rows| - 1].exampleId == id then [SegText(rows[|rows| - 1])] else []
  }

  /** The non-empty tokens of the example's rows, in row order. */
  function GlossesOf(rows: seq<ReportRow>, id: int): (r: seq<string>)
    ensures |r| <= |SegsOf(rows, id)|
    ensures forall i :: 0 <= i < |r| ==> r[i] != "" && NoEdgeSpace(r[i])
  {
    if |rows| == 0 then []
    else
      var last := rows[|rows| - 1];
      GlossesOf(rows[..|rows| - 1], id) + if last.exampleId == id && Token(last) != "" then [Token(last)] else []
  }

  /** The record of an example: headword, translation and class from its
      first row, segments and tokens from all of its rows. */
  function Expected(rows: seq<ReportRow>, id: int): Group
    requires Dedup.HasKey(rows, ExampleOf, id)
  {
    var first := rows[Dedup.FirstIndex(rows, ExampleOf, id)];
    Group(id, first.headword, first.translation, ClassLetter(first.paradigmClassId), SegsOf(rows, id), GlossesOf(rows, id))
  }

  lemma {:induction false} NothingOf(rows: seq<ReportRow>, id: int)
    requires !Dedup.HasKey(rows, ExampleOf, id)
    ensures SegsOf(rows, id) == [] && GlossesOf(rows, id) == []
  {
    if |rows| > 0 {
      NothingOf(rows[..|rows| - 1], id);
    }
  }

  /** How one more row changes the expected record of an example. */
  lemma ExpectedStep(rows: seq<ReportRow>, id: int)
    requires |rows| > 0 && Dedup.HasKey(rows, ExampleOf, id)
    ensures var p := rows[..|rows| - 1];
            var r := rows[|rows| - 1];
            && (id != r.exampleId ==> Dedup.HasKey(p, ExampleOf, id) && Expected(rows, id) == Expected(p, id))
            && (id == r.exampleId && Dedup.HasKey(p, ExampleOf, id) ==> Expected(rows, id) == Extend(Expected(p, id), r))
            && (id == r.exampleId && !Dedup.HasKey(p, ExampleOf, id) ==> Expected(rows, id) == Extend(Start(r), r))
  {
    var p := rows[..|rows| - 1];
    var r := rows[|rows| - 1];
    assert rows == p + [r];
    if Dedup.HasKey(p, ExampleOf, id) {
      Dedup.FirstIndexPrefix(p, r, ExampleOf, id);
    } else {
      Dedup.FirstIndexLast(p, r, ExampleOf);
      NothingOf(p, id);
    }
  }

  /** The loop builds one record per example, in first-seen order of the
      examples, each holding what `Expected` says. */
  lemma {:induction false} AggregateGroups(rows: seq<ReportRow>)
    ensures Dedup.UniqueKeys(Aggregate(rows), GroupId)
    ensures forall id :: Dedup.HasKey(Aggregate(rows), GroupId, id) <==> Dedup.HasKey(rows, ExampleOf, id)
    ensures forall i :: 0 <= i < |Aggregate(rows)| ==>
              Dedup.HasKey(rows, ExampleOf, Aggregate(rows)[i].exampleId) &&
              Aggregate(rows)[i] == Expected(rows, Aggregate(rows)[i].exampleId)
  {
    if |rows| > 0 {
      var p := rows[..|rows| - 1];
      var r := rows[|rows| - 1];
      AggregateGroups(p);
      var g := Aggregate(p);
      var g2 := Aggregate(rows);
      HasKeyLast(rows);
      if Dedup.HasKey(g, GroupId, r.exampleId) {
        var i := Dedup.FirstIndex(g, GroupId, r.exampleId);
        assert g2 == g[i := Extend(g[i], r)];
        StepExisting(rows, g, g2, i);
      } else {
        assert g2 == g + [Extend(Start(r), r)];
        StepNew(rows, g, g2);
      }
    }
  }

  /** The examples of the rows are those before the last row and the last
      row's. */
  lemma HasKeyLast(rows: seq<ReportRow>)
    requires |rows| > 0
    ensures forall id :: Dedup.HasKey(rows, ExampleOf, id) <==>
              Dedup.HasKey(rows[..|rows| - 1], ExampleOf, id) || id == rows[|rows| - 1].exampleId
  {
    var p := rows[..|rows| - 1];
    var r := rows[|rows| - 1];
    assert rows == p + [r];
    forall id
      ensures Dedup.HasKey(rows, ExampleOf, id) <==> Dedup.HasKey(p, ExampleOf, id) || id == r.exampleId
    {
      Dedup.HasKeyAppend(p, [r], ExampleOf, id);
      assert Dedup.HasKey([r], ExampleOf, id) <==> id == r.exampleId by {
        if id == r.exampleId {
          assert ExampleOf([r][0]) == id;
        }
      }
    }
  }

  /** The inductive step when the row's example already has a record. */
  lemma StepExisting(rows: seq<ReportRow>, g: seq<Group>, g2: seq<Group>, i: nat)
    requires |rows| > 0
    requires var p := rows[..|rows| - 1];
             && Dedup.UniqueKeys(g, GroupId)
             && (forall id :: Dedup.HasKey(g, GroupId, id) <==> Dedup.HasKey(p, ExampleOf, id))
             && (forall j :: 0 <= j < |g| ==> Dedup.HasKey(p, ExampleOf, g[j].exampleId) && g[j] == Expected(p, g[j].exampleId))
    requires forall id :: Dedup.HasKey(rows, ExampleOf, id) <==> Dedup.HasKey(rows[..|rows| - 1], ExampleOf, id) || id == rows[|rows| - 1].exampleId
    requires i < |g| && g[i].exampleId == rows[|rows| - 1].exampleId
    requires g2 == g[i := Extend(g[i], rows[|rows| - 1])]
    ensures Dedup.UniqueKeys(g2, GroupId)
    ensures forall id :: Dedup.HasKey(g2, GroupId, id) <==> Dedup.HasKey(rows, ExampleOf, id)
    ensures forall j :: 0 <= j < |g2| ==> Dedup.HasKey(rows, ExampleOf, g2[j].exampleId) && g2[j] == Expected(rows, g2[j].exampleId)
  {
    var r := rows[|rows| - 1];
    SameKeys(g, i, Extend(g[i], r));
    forall j | 0 <= j < |g2|
      ensures Dedup.HasKey(rows, ExampleOf, g2[j].exampleId) && g2[j] == Expected(rows, g2[j].exampleId)
    {
      ExpectedStep(rows, g2[j].exampleId);
      if j != i {
        assert GroupId(g[j]) != GroupId(g[i]);
      }
    }
  }

  /** Replacing a record by one with the same example id keeps the ids. */
  lemma SameKeys(g: seq<Group>, i: nat, x: Group)
    requires i < |g| && GroupId(x) == GroupId(g[i])
    ensures forall id :: Dedup.HasKey(g[i := x], GroupId, id) <==> Dedup.HasKey(g, GroupId, id)
    ensures Dedup.UniqueKeys(g, GroupId) ==> Dedup.UniqueKeys(g[i := x], GroupId)
  {
    var g2 := g[i := x];
    forall id
      ensures Dedup.HasKey(g2, GroupId, id) <==> Dedup.HasKey(g, GroupId, id)
    {
      if Dedup.HasKey(g, GroupId, id) {
        var j :| 0 <= j < |g| && GroupId(g[j]) == id;
        assert GroupId(g2[j]) == id;
      }
      if Dedup.HasKey(g2, GroupId, id) {
        var j :| 0 <= j < |g2| && GroupId(g2[j]) == id;
        assert GroupId(g[j]) == id;
      }
    }
  }

  /** The inductive step when the row's example is new. */
  lemma StepNew(rows: seq<ReportRow>, g: seq<Group>, g2: seq<Group>)
    requires |rows| > 0
    requires var p := rows[..|rows| - 1];
             && Dedup.UniqueKeys(g, GroupId)
             && (forall id :: Dedup.HasKey(g, GroupId, id) <==> Dedup.HasKey(p, ExampleOf, id))
             && (forall j :: 0 <= j < |g| ==> Dedup.HasKey(p, ExampleOf, g[j].exampleId) && g[j] == Expected(p, g[j].exampleId))
    requires forall id :: Dedup.HasKey(rows, ExampleOf, id) <==> Dedup.HasKey(rows[..|rows| - 1], ExampleOf, id) || id == rows[|rows| - 1].exampleId
    requires !Dedup.HasKey(g, GroupId, rows[|rows| - 1].exampleId)
    requires g2 == g + [Extend(Start(rows[|rows| - 1]), rows[|rows| - 1])]
    ensures Dedup.UniqueKeys(g2, GroupId)
    ensures forall id :: Dedup.HasKey(g2, GroupId, id) <==> Dedup.HasKey(rows, ExampleOf, id)
    ensures forall j :: 0 <= j < |g2| ==> Dedup.HasKey(rows, ExampleOf, g2[j].exampleId) && g2[j] == Expected(rows, g2[j].exampleId)
  {
    var r := rows[|rows| - 1];
    forall id
      ensures Dedup.HasKey(g2, GroupId, id) <==> Dedup.HasKey(g, GroupId, id) || id == r.exampleId
    {
      Dedup.HasKeyAppend(g, [Extend(Start(r), r)], GroupId, id);
      assert GroupId([Extend(Start(r), r)][0]) == r.exampleId;
    }
    forall j | 0 <= j < |g2|
      ensures Dedup.HasKey(rows, ExampleOf, g2[j].exampleId) && g2[j] == Expected(rows, g2[j].exampleId)
    {
      ExpectedStep(rows, g2[j].exampleId);
      if j < |g| {
        assert g2[j] == g[j];
        assert Dedup.HasKey(g, GroupId, g[j].exampleId);
      }
    }
  }

  // ------------------------------------------------------------------
  // The report rows (lines 473-485)
  // ------------------------------------------------------------------

  datatype ReportLine = ReportLine(
    exampleId: int,
    headword: Option<string>,
    translation: Option<string>,
    stem: string,
    glossLine: string,
    paradigmClass: Option<string>)

  /** A record as a report row: segments and tokens joined with "-". */
  function Line(g: Group): ReportLine {
    ReportLine(g.exampleId, g.headword, g.translation, Join("-", g.segs), Join("-", g.glosses), g.paradigmClass)
  }

  function Lines(gs: seq<Group>): (r: seq<ReportLine>)
    ensures |r| == |gs|
    ensures forall i :: 0 <= i < |gs| ==> r[i] == Line(gs[i])
  {
    seq(|gs|, i requires 0 <= i < |gs| => Line(gs[i]))
  }

  function LineId(l: ReportLine): int {
    l.exampleId
  }

  /** `key=lambda x: x["example_id"]`. */
  function IdKey(l: ReportLine): Ordering.Key {
    [Ordering.Num(l.exampleId as real)]
  }

  /** `fetch_stem_report_rows` after its query: one row per example of the
      input, in strictly increasing example id order, each built from all of
      that example's rows. */
  function StemReportRows(rows: seq<ReportRow>): (r: seq<ReportLine>)
    ensures forall i, j :: 0 <= i < j < |r| ==> r[i].exampleId < r[j].exampleId
    ensures forall id :: Dedup.HasKey(r, LineId, id) <==> Dedup.HasKey(rows, ExampleOf, id)
    ensures forall i :: 0 <= i < |r| ==>
              Dedup.HasKey(rows, ExampleOf, r[i].exampleId) && r[i] == Line(Expected(rows, r[i].exampleId))
  {
    var ls := Lines(Aggregate(rows));
    var r := Ordering.SortByKey(ls, IdKey);
    StemReportFacts(rows, ls, r);
    r
  }

  lemma StemReportFacts(rows: seq<ReportRow>, ls: seq<ReportLine>, r: seq<ReportLine>)
    requires ls == Lines(Aggregate(rows))
    requires Ordering.SortedBy(r, IdKey) && multiset(r) == multiset(ls)
    ensures forall i, j :: 0 <= i < j < |r| ==> r[i].exampleId < r[j].exampleId
    ensures forall id :: Dedup.HasKey(r, LineId, id) <==> Dedup.HasKey(rows, ExampleOf, id)
    ensures forall i :: 0 <= i < |r| ==>
              Dedup.HasKey(rows, ExampleOf, r[i].exampleId) && r[i] == Line(Expected(rows, r[i].exampleId))
  {
    AggregateGroups(rows);
    LinesUnique(Aggregate(rows));
    Dedup.UniqueKeysPermutation(ls, r, LineId);
    SortedStrictly(r);
    SameLineIds(Aggregate(rows), ls, r);
    forall i | 0 <= i < |r|
      ensures Dedup.HasKey(rows, ExampleOf, r[i].exampleId) && r[i] == Line(Expected(rows, r[i].exampleId))
    {
      assert r[i] in multiset(ls);
    }
  }

  lemma LinesUnique(g: seq<Group>)
    requires Dedup.UniqueKeys(g, GroupId)
    ensures Dedup.UniqueKeys(Lines(g), LineId)
  {
    var ls := Lines(g);
    forall i, j | 0 <= i < j < |ls|
      ensures LineId(ls[i]) != LineId(ls[j])
    {
      assert GroupId(g[i]) != GroupId(g[j]);
    }
  }

  /** Sorted by id with no id twice means strictly increasing ids. */
  lemma SortedStrictly(r: seq<ReportLine>)
    requires Ordering.SortedBy(r, IdKey) && Dedup.UniqueKeys(r, LineId)
    ensures forall i, j :: 0 <= i < j < |r| ==> r[i].exampleId < r[j].exampleId
  {
    forall i, j | 0 <= i < j < |r|
      ensures r[i].exampleId < r[j].exampleId
    {
      assert Ordering.KeyLe(IdKey(r[i]), IdKey(r[j]));
      assert IdKey(r[i])[1..] == [];
      assert LineId(r[i]) != LineId(r[j]);
    }
  }

  /** Reordering the lines keeps their ids. */
  lemma SameLineIds(g: seq<Group>, ls: seq<ReportLine>, r: seq<ReportLine>)
    requires ls == Lines(g) && multiset(r) == multiset(ls)
    ensures forall id :: Dedup.HasKey(r, LineId, id) <==> Dedup.HasKey(g, GroupId, id)
  {
    forall id
      ensures Dedup.HasKey(r, LineId, id) <==> Dedup.HasKey(g, GroupId, id)
    {
      if Dedup.HasKey(r, LineId, id) {
        var i :| 0 <= i < |r| && LineId(r[i]) == id;
        assert r[i] in multiset(ls);
        var k :| 0 <= k < |ls| && ls[k] == r[i];
        assert GroupId(g[k]) == id;
      }
      if Dedup.HasKey(g, GroupId, id) {
        var k :| 0 <= k < |g| && GroupId(g[k]) == id;
        assert ls[k] in multiset(r);
        var i :| 0 <= i < |r| && r[i] == ls[k];
        assert LineId(r[i]) == id;
      }
    }
  }

  /** Every segment of an example is kept while only non-empty, stripped
      tokens reach the gloss line, so there are never more tokens than
      segments. */
  lemma GlossesNeverOutnumberSegments(rows: seq<ReportRow>, i: nat)
    requires i < |Aggregate(rows)|
    ensures var g := Aggregate(rows)[i];
            && |g.glosses| <= |g.segs|
            && forall k :: 0 <= k < |g.glosses| ==> g.glosses[k] != "" && NoEdgeSpace(g.glosses[k])
  {
    AggregateGroups(rows);
  }
}
