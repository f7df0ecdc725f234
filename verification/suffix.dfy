/** `get_suffix_options` (app.py lines 1266-1414): the allomorph options
    offered for a suffix series. The first family of the series decides:
    200 (future) has its own query; 400, 500 and 600 try, in order, the
    passive special case for 500, the entry's suffix subclass for 400 and
    500, and the category map. */
module Suffix {
  import opened Wrappers
  import opened Text
  import opened Allomorphs
  import Ordering

  /** A row of `subclass_allomorphs`. */
  datatype SubclassMember = SubclassMember(subclassId: int, allomorphId: int)

  /** What the queries read. `entrySubclass` is the entry's
      `suffix_subclass_id`: None when the entry does not exist, Some(None)
      when the column is NULL. */
  datatype SuffixDb = SuffixDb(
    allomorphs: seq<Allomorph>,
    subclassMembers: seq<SubclassMember>,
    entrySubclass: Option<Option<int>>)

  /** The query-string arguments, None when absent. */
  datatype SuffixArgs = SuffixArgs(voice: Option<string>, includeAll500: Option<string>)

  /** The `source` of an option. */
  datatype Source = Future | PassiveAny500 | Subclass(id: int) | Category {
    function Tag(): string {
      match this
      case Future => "future"
      case PassiveAny500 => "passive-any-500"
      case Subclass(id) => "subclass-" + IntToString(id)
      case Category => "category"
    }
  }

  datatype SuffixOption = SuffixOption(
    allomorphId: int,
    text: string,
    form: string,
    urGloss: Option<string>,
    davisId: Option<string>,
    slotCode: string,
    source: Source)

  datatype SuffixResponse = SuffixResponse(series: seq<string>, options: seq<SuffixOption>)

  // ------------------------------------------------------------------
  // Arguments
  // ------------------------------------------------------------------

  /** Line 1268: the text before the first comma of the trimmed series. */
  function FirstFamily(csv: string): (r: string)
    ensures ',' !in r
    ensures var t := Strip(csv);
            |r| <= |t| && r == t[..|r|] && (|r| == |t| || t[|r|] == ',')
  {
    SplitHead(Strip(csv), ',');
    Split(Strip(csv), ',')[0]
  }

  /** A single family, however padded, is the first family. */
  lemma FirstFamilySingle(pre: string, fam: string, post: string)
    requires forall k :: 0 <= k < |pre| ==> IsSpace(pre[k])
    requires forall k :: 0 <= k < |post| ==> IsSpace(post[k])
    requires fam != "" && NoEdgeSpace(fam) && ',' !in fam
    ensures FirstFamily(pre + fam + post) == fam
  {
    StripSurrounded(pre, fam, post);
    var r := FirstFamily(pre + fam + post);
    assert |r| == |fam| by {
      if |r| < |fam| {
        assert false;
      }
    }
  }

  /** `" 400 "` names the 400 family. */
  lemma FirstFamilyPadded()
    ensures FirstFamily(" 400 ") == "400"
  {
    FirstFamilySingle(" ", "400", " ");
    assert " " + "400" + " " == " 400 ";
  }

  /** The first family is the text up to the first comma. */
  lemma FirstFamilyOf(a: string, b: string)
    requires ',' !in a
    requires NoEdgeSpace(a + [','] + b)
    ensures FirstFamily(a + [','] + b) == a
  {
    StripNoEdgeSpace(a + [','] + b);
    assert a + [','] + b == a + ([','] + b);
    SplitPrefix(a, [','] + b, ',');
  }

  /** Lines 1299-1302: the family named by the first digit, 4, 5 or 6. */
  function FamilyCode(fam: string): (r: Option<string>)
    ensures r.Some? <==> |fam| > 0 && fam[0] in {'4', '5', '6'}
    ensures r.Some? ==> |r.value| == 3 && r.value[0] == fam[0]
  {
    if StartsWith(fam, "4") then Some("400")
    else if StartsWith(fam, "5") then Some("500")
    else if StartsWith(fam, "6") then Some("600")
    else None
  }

  function VoiceArg(args: SuffixArgs): string {
    Upper(OrElse(args.voice, "NONE"))
  }

  predicate IncludeAll500(args: SuffixArgs) {
    OrElse(args.includeAll500, "0") in {"1", "true", "yes"}
  }

  /** Lines 1346-1348: `int(r[0]) if r and r[0]`, kept only when non-zero. */
  function SubclassOf(row: Option<Option<int>>): (r: Option<int>)
    ensures r.Some? <==> row.Some? && row.value.Some? && row.value.value != 0
    ensures r.Some? ==> r.value == row.value.value
  {
    match row
    case Some(Some(v)) => if v != 0 then Some(v) else None
    case _ => None
  }

  // ------------------------------------------------------------------
  // Labels and options
  // ------------------------------------------------------------------

  /** `form[ (gloss)][ — davis_id]`, with `noGloss` standing in for a falsy
      gloss (" (FUT)" for the future series, "" elsewhere). */
  function Label(form: string, gloss: Option<string>, did: Option<string>, noGloss: string): (r: string)
    ensures StartsWith(r, form)
    ensures Truthy(did) ==> |r| >= |form| + 3 + |did.value|
                            && r[|r| - |did.value| - 3..] == " \U{2014} " + did.value
    ensures !Truthy(did) && !Truthy(gloss) ==> r == form + noGloss
    ensures !Truthy(did) && Truthy(gloss) ==> r == form + " (" + gloss.value + ")"
  {
    var withGloss := form + (if Truthy(gloss) then " (" + gloss.value + ")" else noGloss);
    var r := withGloss + (if Truthy(did) then " \U{2014} " + did.value else "");
    assert r[..|form|] == form;
    r
  }

  /** Line 1287: a truthy davis_id only appends " — davis_id" to the label
      the row would have without one; any other davis_id changes nothing. */
  lemma LabelAppendsDavis(form: string, gloss: Option<string>, did: Option<string>, noGloss: string)
    ensures Truthy(did) ==> Label(form, gloss, did, noGloss) == Label(form, gloss, None, noGloss) + " \U{2014} " + did.value
    ensures !Truthy(did) ==> Label(form, gloss, did, noGloss) == Label(form, gloss, None, noGloss)
  {
  }

  /** The option for a row: `coalesce` says whether the query returned
      `COALESCE(ur_gloss,'')` and `COALESCE(davis_id,'')` instead of the
      nullable columns. */
  function MakeOption(a: Allomorph, slotCode: string, source: Source, coalesce: bool, noGloss: string)
    : (o: SuffixOption)
  {
    var gloss := if coalesce then Some(a.urGloss.GetOr("")) else a.urGloss;
    var did := if coalesce then Some(a.davisId.GetOr("")) else a.davisId;
    SuffixOption(a.id, Label(a.form, gloss, did, noGloss), a.form, gloss, did, slotCode, source)
  }

  function ToOptions(rows: seq<Allomorph>, slotCode: string, source: Source, coalesce: bool, noGloss: string)
    : (r: seq<SuffixOption>)
    ensures |r| == |rows|
    ensures forall i :: 0 <= i < |rows| ==>
              && r[i].allomorphId == rows[i].id && r[i].form == rows[i].form
              && r[i].slotCode == slotCode && r[i].source == source
              && (coalesce ==> r[i].urGloss == Some(rows[i].urGloss.GetOr("")) && r[i].davisId == Some(rows[i].davisId.GetOr("")))
              && (!coalesce ==> r[i].urGloss == rows[i].urGloss && r[i].davisId == rows[i].davisId)
              && r[i].text == Label(rows[i].form, r[i].urGloss, r[i].davisId, noGloss)
  {
    seq(|rows|, i requires 0 <= i < |rows| => MakeOption(rows[i], slotCode, source, coalesce, noGloss))
  }

  // ------------------------------------------------------------------
  // The queries
  // ------------------------------------------------------------------

  /** `ORDER BY davis_id NULLS LAST, form`. */
  function NullsLastKey(a: Allomorph): Ordering.Key {
    [match a.davisId case None => Ordering.Null case Some(d) => Ordering.Text(d), Ordering.Text(a.form)]
  }

  /** `ORDER BY COALESCE(davis_id,'ZZZ'), form`. */
  function ZzzKey(a: Allomorph): Ordering.Key {
    [Ordering.Text(a.davisId.GetOr("ZZZ")), Ordering.Text(a.form)]
  }

  /** Lines 1278-1280: a future gloss or category, or a 201 davis_id. */
  predicate IsFutureRow(a: Allomorph) {
    || Lower(a.urGloss.GetOr("")) == "fut"
    || Lower(a.category) == "future"
    || (a.davisId.Some? && StartsWith(a.davisId.value, "201"))
  }

  function FutureFilter(): Allomorph -> bool {
    (a: Allomorph) => IsFutureRow(a)
  }

  function FutureRows(db: SuffixDb): seq<Allomorph> {
    Ordering.SortByKey(Where(db.allomorphs, FutureFilter()), NullsLastKey)
  }

  /** Lines 1311-1314: a 5xx davis_id or a 500-like category. */
  predicate IsAny500Row(a: Allomorph) {
    || (a.davisId.Some? && StartsWith(a.davisId.value, "5"))
    || Lower(a.category) in {"500", "subject-number", "agreement", "subject-agreement", "object-agreement"}
  }

  function Any500Filter(): Allomorph -> bool {
    (a: Allomorph) => IsAny500Row(a)
  }

  function Any500Rows(db: SuffixDb): seq<Allomorph> {
    Ordering.SortByKey(Where(db.allomorphs, Any500Filter()), ZzzKey)
  }

  /** The join of the subclass's membership rows with the allomorphs. */
  function SubclassJoin(ms: seq<SubclassMember>, table: seq<Allomorph>, id: int): (r: seq<Allomorph>)
    ensures forall i :: 0 <= i < |r| ==> r[i] in table
  {
    if |ms| == 0 then []
    else
      (if ms[0].subclassId == id then Where(table, (a: Allomorph) => a.id == ms[0].allomorphId) else [])
      + SubclassJoin(ms[1..], table, id)
  }

  /** Line 1370: `(did or "").startswith(fam_digit)`. */
  predicate InFamily(a: Allomorph, digit: char) {
    StartsWith(a.davisId.GetOr(""), [digit])
  }

  function FamilyFilter(digit: char): Allomorph -> bool {
    (a: Allomorph) => InFamily(a, digit)
  }

  /** Lines 1352-1383: the subclass's allomorphs of the family, in key order. */
  function SubclassRows(db: SuffixDb, id: int, digit: char): seq<Allomorph> {
    Where(Ordering.SortByKey(SubclassJoin(db.subclassMembers, db.allomorphs, id), ZzzKey), FamilyFilter(digit))
  }

  /** Lines 1386-1390. */
  function Categories(family: string): seq<string> {
    if family == "400" then ["imperfective", "remote-state", "purposive", "passive", "reflexive"]
    else if family == "500" then ["subject-number", "agreement", "subject-agreement", "object-agreement"]
    else ["conditional"]
  }

  function CategoryFilter(cats: seq<string>): Allomorph -> bool {
    (a: Allomorph) => Lower(a.category) in cats
  }

  function CategoryRows(db: SuffixDb, family: string): seq<Allomorph> {
    Ordering.SortByKey(Where(db.allomorphs, CategoryFilter(Categories(family))), ZzzKey)
  }

  // ------------------------------------------------------------------
  // The chain
  // ------------------------------------------------------------------

  /** The subclass step's options: none unless the entry has a subclass
      and the family is 400 or 500. */
  function SubclassOptions(family: string, db: SuffixDb): seq<SuffixOption> {
    match SubclassOf(db.entrySubclass)
    case Some(id) =>
      if family in {"400", "500"} then
        ToOptions(SubclassRows(db, id, family[0]), family, Subclass(id), true, "")
      else []
    case None => []
  }

  /** Lines 1304-1414, for a family of 400, 500 or 600. */
  function FamilyOptions(family: string, args: SuffixArgs, db: SuffixDb): (r: seq<SuffixOption>)
    ensures forall i :: 0 <= i < |r| ==> r[i].slotCode == family
  {
    if family == "500" && (VoiceArg(args) == "PASS" || IncludeAll500(args)) then
      ToOptions(Any500Rows(db), "500", PassiveAny500, false, "")
    else
      var sub := SubclassOptions(family, db);
      if |sub| > 0 then sub
      else ToOptions(CategoryRows(db, family), family, Category, true, "")
  }

  /** Lines 1266-1414. */
  function SuffixOptions(csv: string, args: SuffixArgs, db: SuffixDb): (r: SuffixResponse)
    ensures var fam := FirstFamily(csv);
            r.series == [] <==> !StartsWith(fam, "2") && FamilyCode(fam).None?
    ensures r.series == [] ==> r.options == []
    ensures |r.series| <= 1
    ensures forall i :: 0 <= i < |r.options| ==> r.options[i].slotCode == r.series[0]
    ensures StartsWith(FirstFamily(csv), "2") ==>
              r.series == ["200"] && forall i :: 0 <= i < |r.options| ==> r.options[i].source == Future
    ensures var fam := FirstFamily(csv);
            !StartsWith(fam, "2") && FamilyCode(fam).Some? ==> r.series == [FamilyCode(fam).value]
  {
    var fam := FirstFamily(csv);
    if StartsWith(fam, "2") then
      SuffixResponse(["200"], ToOptions(FutureRows(db), "200", Future, false, " (FUT)"))
    else
      match FamilyCode(fam)
      case None => SuffixResponse([], [])
      case Some(family) => SuffixResponse([family], FamilyOptions(family, args, db))
  }

  // ------------------------------------------------------------------
  // Properties
  // ------------------------------------------------------------------

  /** The step that answered for a 400/500/600 family: passive for 500 with
      PASS or `include_all_500`; otherwise the subclass options when there
      are any, and the category options when there are none. */
  lemma SuffixSteps(family: string, args: SuffixArgs, db: SuffixDb)
    ensures var r := FamilyOptions(family, args, db);
            var pass := family == "500" && (VoiceArg(args) == "PASS" || IncludeAll500(args));
            && (pass ==> forall i :: 0 <= i < |r| ==> r[i].source == PassiveAny500)
            && (!pass && |SubclassOptions(family, db)| > 0 ==> r == SubclassOptions(family, db))
            && (!pass && |SubclassOptions(family, db)| == 0 ==>
                  forall i :: 0 <= i < |r| ==> r[i].source == Category)
  {
  }

  /** Subclass options are of the family: their davis_id starts with its
      digit; and the 600 family never uses the subclass. */
  lemma SubclassOptionsInFamily(family: string, db: SuffixDb)
    requires family in {"400", "500", "600"}
    ensures forall i :: 0 <= i < |SubclassOptions(family, db)| ==>
              StartsWith(SubclassOptions(family, db)[i].davisId.GetOr(""), [family[0]])
    ensures family == "600" ==> SubclassOptions(family, db) == []
  {
    match SubclassOf(db.entrySubclass)
    case Some(id) =>
      if family in {"400", "500"} {
        var p := FamilyFilter(family[0]);
        var rows := SubclassRows(db, id, family[0]);
        forall i | 0 <= i < |rows|
          ensures InFamily(rows[i], family[0])
        {
          assert p(rows[i]);
        }
      }
    case None =>
  }

  /** Category options come from rows whose lower-cased category is one of
      the family's categories. */
  lemma CategoryRowsMatch(db: SuffixDb, family: string)
    ensures forall i :: 0 <= i < |CategoryRows(db, family)| ==>
              Lower(CategoryRows(db, family)[i].category) in Categories(family)
              && CategoryRows(db, family)[i] in db.allomorphs
  {
    var p := CategoryFilter(Categories(family));
    var w := Where(db.allomorphs, p);
    var r := CategoryRows(db, family);
    forall i | 0 <= i < |r|
      ensures Lower(r[i].category) in Categories(family) && r[i] in db.allomorphs
    {
      assert r[i] in multiset(w);
      assert r[i] in w;
      assert p(r[i]);
    }
  }

  /** Every query's rows come out in its ORDER BY order. */
  lemma RowsSorted(db: SuffixDb, family: string)
    ensures Ordering.SortedBy(FutureRows(db), NullsLastKey)
    ensures Ordering.SortedBy(Any500Rows(db), ZzzKey)
    ensures Ordering.SortedBy(CategoryRows(db, family), ZzzKey)
  {
  }

  /** An unknown family — anything not starting with 2, 4, 5 or 6 — gets
      no series and no options, whatever the database holds. */
  lemma UnknownFamilyEmpty(csv: string, args: SuffixArgs, db: SuffixDb)
    requires |FirstFamily(csv)| == 0 || FirstFamily(csv)[0] !in {'2', '4', '5', '6'}
    ensures SuffixOptions(csv, args, db) == SuffixResponse([], [])
  {
  }

  /** The future label falls back to " (FUT)" when there is no gloss. */
  lemma FutureLabelWithoutGloss(form: string)
    ensures Label(form, None, None, " (FUT)") == form + " (FUT)"
  {
  }
}
