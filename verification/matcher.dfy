/** Template matching and validation in app.py: the exact-sequence match
    used when an example is saved and by the `/validate-template-slots`
    endpoint, the `validate_stem` comparison between a template and the
    slots an example actually has, and the write plan of `add_example`
    (the TA guard and the numbering of the morpheme rows). */
module Matcher {
  import opened Wrappers
  import opened Text
  import opened Catalog
  import Ordering
  import Dedup

  // ------------------------------------------------------------------
  // First match
  // ------------------------------------------------------------------

  /** The position of the first template in `ts` whose `slot_order` equals
      `slots`, if any. */
  function FirstMatch(ts: seq<Template>, slots: seq<string>): (r: Option<nat>)
    ensures r.Some? ==> r.value < |ts| && ts[r.value].SlotOrder() == slots
    ensures r.Some? ==> forall j :: 0 <= j < r.value ==> ts[j].SlotOrder() != slots
    ensures r.None? ==> forall j :: 0 <= j < |ts| ==> ts[j].SlotOrder() != slots
  {
    if |ts| == 0 then None
    else if ts[0].SlotOrder() == slots then Some(0)
    else
      match FirstMatch(ts[1..], slots)
      case None => None
      case Some(i) => Some(i + 1)
  }

  /** Line 707 and lines 1735-1742: the first catalog entry whose sequence
      is exactly the submitted list, or None. */
  function Match(slots: seq<string>): (r: Option<Template>)
    ensures r.Some? ==> r.value.SlotOrder() == slots
    ensures r.Some? ==> exists i :: 0 <= i < 68 && At(i) == r.value
                                   && forall j :: 0 <= j < i ==> At(j).SlotOrder() != slots
    ensures r.None? ==> forall j :: 0 <= j < 68 ==> At(j).SlotOrder() != slots
  {
    match FirstMatch(Templates(), slots)
    case None => None
    case Some(i) => Some(Templates()[i])
  }

  /** The matched template is the only one of its transitivity with that
      sequence; any other entry with the same sequence comes later and has
      the other transitivity. */
  lemma MatchFirstWins(slots: seq<string>, j: nat)
    requires j < 68 && At(j).SlotOrder() == slots
    ensures Match(slots).Some?
    ensures Match(slots).value != At(j) ==>
              Match(slots).value.id < At(j).id && Match(slots).value.transitivity != At(j).transitivity
  {
    var t := Match(slots).value;
    var i :| 0 <= i < 68 && At(i) == t && forall k :: 0 <= k < i ==> At(k).SlotOrder() != slots;
    if t != At(j) {
      assert i != j;
      assert i < j;
      NamesInjective(At(i).slots, At(j).slots);
      if At(i).transitivity == At(j).transitivity {
        SlotsUniqueWithinTransitivity(i, j);
      }
    }
  }

  /** `["100","TA","ROOT"]` matches template 51, never 99, which has the
      same sequence but comes later. */
  lemma MatchPrefersFirst()
    ensures Match(["100", "TA", "ROOT"]).Some?
    ensures Match(["100", "TA", "ROOT"]).value.id == 51
    ensures Match(["100", "TA", "ROOT"]).value.transitivity == Transitive
  {
    FirstEntry();
    assert Templates()[0] == At(0);
  }

  /** No sequence without a TA slot matches: every catalog sequence has one. */
  lemma MatchNeedsTa(slots: seq<string>)
    requires "TA" !in slots
    ensures Match(slots).None?
  {
    forall i | 0 <= i < 68
      ensures At(i).SlotOrder() != slots
    {
      EveryEntryHasTa(i);
    }
  }

  // ------------------------------------------------------------------
  // /validate-template-slots
  // ------------------------------------------------------------------

  datatype SlotCheck =
    | NoSlots(error: string)
    | Matched(templateId: int, name: string, slots: seq<string>)
    | NoMatch

  /** Lines 1729-1743: an empty list is refused with an error, otherwise
      the first match is reported with its id, name and sequence. */
  function ValidateTemplateSlots(slots: seq<string>): (r: SlotCheck)
    ensures r.NoSlots? <==> |slots| == 0
    ensures r.NoSlots? ==> r.error == "No slots received."
    ensures r.Matched? ==> Match(slots).Some? && r.templateId == Match(slots).value.id
                           && r.name == Match(slots).value.name && r.slots == slots
    ensures r.NoMatch? <==> |slots| > 0 && Match(slots).None?
  {
    if |slots| == 0 then NoSlots("No slots received.")
    else
      match Match(slots)
      case Some(t) => Matched(t.id, t.name, t.SlotOrder())
      case None => NoMatch
  }

  // ------------------------------------------------------------------
  // validate_stem
  // ------------------------------------------------------------------

  /** One line of the comparison report. */
  datatype StemLine = SlotMatched(slot: string) | MissingSlot(slot: string) | UnexpectedSlot(slot: string) {
    function Text(): string {
      match this
      case SlotMatched(s) => "Slot matched: " + s
      case MissingSlot(s) => "Missing slot: " + s
      case UnexpectedSlot(s) => "Unexpected slot: " + s
    }
  }

  /** Lines 1709-1713: one line per expected slot. */
  function ExpectedLines(expected: seq<string>, actual: seq<string>): (r: seq<StemLine>)
    ensures |r| == |expected|
    ensures forall i :: 0 <= i < |expected| ==> r[i].slot == expected[i] && !r[i].UnexpectedSlot?
    ensures forall i :: 0 <= i < |expected| ==> (r[i].SlotMatched? <==> expected[i] in actual)
  {
    seq(|expected|, i requires 0 <= i < |expected| =>
      if expected[i] in actual then SlotMatched(expected[i]) else MissingSlot(expected[i]))
  }

  /** Lines 1714-1716: one line per detected slot the template lacks. */
  function ExtraLines(actual: seq<string>, expected: seq<string>): (r: seq<StemLine>)
    ensures |r| <= |actual|
    ensures forall i :: 0 <= i < |r| ==> r[i].UnexpectedSlot? && r[i].slot in actual && r[i].slot !in expected
    ensures forall x :: x in actual && x !in expected ==> UnexpectedSlot(x) in r
  {
    if |actual| == 0 then []
    else
      (if actual[0] !in expected then [UnexpectedSlot(actual[0])] else [])
      + ExtraLines(actual[1..], expected)
  }

  /** Lines 1708-1716: the expected lines in template order, then the
      unexpected ones in detection order. */
  function CompareSlots(expected: seq<string>, actual: seq<string>): (r: seq<StemLine>)
    ensures |expected| <= |r| <= |expected| + |actual|
    ensures r[..|expected|] == ExpectedLines(expected, actual)
    ensures forall i :: |expected| <= i < |r| ==> r[i].UnexpectedSlot?
  {
    ExpectedLines(expected, actual) + ExtraLines(actual, expected)
  }

  /** The comparison uses membership only: detected lists with the same
      elements, in any order and with any repetition, give the same
      matched/missing lines, and the same set of unexpected slots. */
  lemma CompareSlotsByMembership(expected: seq<string>, a: seq<string>, b: seq<string>)
    requires forall x :: x in a <==> x in b
    ensures CompareSlots(expected, a)[..|expected|] == CompareSlots(expected, b)[..|expected|]
    ensures forall l :: l in ExtraLines(a, expected) <==> l in ExtraLines(b, expected)
  {
  }

  /** A detected set equal to the template's slots reports every slot as
      matched and nothing unexpected. */
  lemma CompareSlotsExact(expected: seq<string>, actual: seq<string>)
    requires forall x :: x in actual <==> x in expected
    ensures forall l :: l in CompareSlots(expected, actual) ==> l.SlotMatched?
  {
    ExtraLinesNone(actual, expected);
  }

  /** Nothing is unexpected when every detected slot is expected. */
  lemma {:induction false} ExtraLinesNone(actual: seq<string>, expected: seq<string>)
    requires forall x :: x in actual ==> x in expected
    ensures ExtraLines(actual, expected) == []
  {
    if |actual| > 0 {
      assert actual[0] in actual;
      assert forall x :: x in actual[1..] ==> x in actual;
      ExtraLinesNone(actual[1..], expected);
    }
  }

  /** The stored slot values, upper-cased. */
  function Uppers(stored: seq<string>): (r: seq<string>)
    ensures |r| == |stored|
    ensures forall i :: 0 <= i < |stored| ==> r[i] == Upper(stored[i])
  {
    seq(|stored|, i requires 0 <= i < |stored| => Upper(stored[i]))
  }

  /** Line 1689: the detected slots are the distinct upper-cased slot
      values, in ascending order. */
  function DetectedSlots(stored: seq<string>): (r: seq<string>)
    ensures forall x :: x in r <==> x in Uppers(stored)
    ensures forall i, j :: 0 <= i < j < |r| ==> r[i] != r[j]
    ensures Ordering.SortedBy(r, SlotKey)
  {
    var ups := Uppers(stored);
    var d := Dedup.DedupBy(ups, Id);
    var s := Ordering.SortByKey(d, SlotKey);
    DetectedSlotsFacts(ups, d, s);
    s
  }

  /** Every stored value is detected, upper-cased, and nothing else is. */
  lemma DetectedSlotsExactly(stored: seq<string>)
    ensures forall i :: 0 <= i < |stored| ==> Upper(stored[i]) in DetectedSlots(stored)
    ensures forall x :: x in DetectedSlots(stored) ==> exists i :: 0 <= i < |stored| && Upper(stored[i]) == x
  {
    var ups := Uppers(stored);
    forall i | 0 <= i < |stored|
      ensures Upper(stored[i]) in DetectedSlots(stored)
    {
      assert ups[i] in ups;
    }
  }

  function Id(x: string): string {
    x
  }

  /** Deduplicating and sorting keeps the elements and leaves each once. */
  lemma DetectedSlotsFacts(ups: seq<string>, d: seq<string>, s: seq<string>)
    requires d == Dedup.DedupBy(ups, Id)
    requires multiset(s) == multiset(d)
    ensures forall x :: x in s <==> x in ups
    ensures forall i, j :: 0 <= i < j < |s| ==> s[i] != s[j]
  {
    Dedup.DedupByFirstOccurrences(ups, Id);
    forall x
      ensures x in s <==> x in ups
    {
      assert x in s <==> x in multiset(s);
      assert x in d <==> x in multiset(d);
      assert Dedup.HasKey(d, Id, x) <==> x in d by {
        if x in d {
          var k :| 0 <= k < |d| && d[k] == x;
          assert Id(d[k]) == x;
        }
      }
      assert Dedup.HasKey(ups, Id, x) <==> x in ups by {
        if x in ups {
          var k :| 0 <= k < |ups| && ups[k] == x;
          assert Id(ups[k]) == x;
        }
      }
    }
    forall i, j | 0 <= i < j < |s|
      ensures s[i] != s[j]
    {
      assert forall p, q :: 0 <= p < q < |d| ==> Id(d[p]) != Id(d[q]);
      DistinctAfterSort(d, s, i, j);
    }
  }

  /** Text order by code point, the order of `ORDER BY 1` in the "C" collation. */
  function SlotKey(s: string): Ordering.Key {
    [Ordering.Text(s)]
  }

  lemma DistinctAfterSort(d: seq<string>, s: seq<string>, i: nat, j: nat)
    requires forall p, q :: 0 <= p < q < |d| ==> d[p] != d[q]
    requires multiset(s) == multiset(d)
    requires i < j < |s|
    ensures s[i] != s[j]
  {
    if s[i] == s[j] {
      Dedup.MultisetTwice(s, i, j);
      Dedup.MultisetOnce(d, s[i]);
    }
  }

  /** What `validate_stem` answers for an example. */
  datatype StemReport =
    | NoTemplateLinked(message: string)
    | TemplateNotFound(message: string)
    | Report(templateName: string, templateSlots: seq<string>, detectedSlots: seq<string>, results: seq<StemLine>)

  /** Lines 1668-1726: `linked` is the template id stored for the example,
      `stored` the slot values of its morpheme rows. */
  function ValidateStem(exampleId: int, linked: Option<int>, stored: seq<string>): (r: StemReport)
    ensures linked.None? <==> r.NoTemplateLinked?
    ensures r.NoTemplateLinked? ==> r.message == "No template linked to example " + IntToString(exampleId)
    ensures r.TemplateNotFound? <==> linked.Some? && FindById(linked.value).None?
    ensures r.TemplateNotFound? ==>
              r.message == "Template ID " + IntToString(linked.value) + " not found in Python templates."
    ensures r.Report? ==> && linked.Some? && FindById(linked.value).Some?
                          && r.templateSlots == FindById(linked.value).value.SlotOrder()
                          && r.templateName == FindById(linked.value).value.name
                          && r.detectedSlots == DetectedSlots(stored)
                          && r.results == CompareSlots(r.templateSlots, r.detectedSlots)
  {
    match linked
    case None => NoTemplateLinked("No template linked to example " + IntToString(exampleId))
    case Some(id) =>
      match FindById(id)
      case None => TemplateNotFound("Template ID " + IntToString(id) + " not found in Python templates.")
      case Some(t) =>
        var detected := DetectedSlots(stored);
        Report(t.name, t.SlotOrder(), detected, CompareSlots(t.SlotOrder(), detected))
  }

  /** Ids outside 51..118 are not in the catalog; ids inside always are. */
  lemma ValidateStemKnownIds(exampleId: int, id: int, stored: seq<string>)
    ensures ValidateStem(exampleId, Some(id), stored).TemplateNotFound? <==> !(51 <= id <= 118)
  {
    FindByIdPosition(id);
  }

  // ------------------------------------------------------------------
  // add_example: TA guard and morpheme rows
  // ------------------------------------------------------------------

  /** One `example_morphemes` row (lines 746-750), without the example id. */
  datatype MorphemeLink = MorphemeLink(
    slot: string,
    morphemeId: Option<int>,
    allomorphId: Option<int>,
    taAllomorphId: Option<int>,
    ordering: nat)

  /** Lines 741-743: the id submitted at position `i`, None when the list is
      shorter or the value is "" or "0"; `int()` of anything else, which
      raises when it is not an integer. */
  function IdAt(ids: seq<string>, i: nat): (r: Result<Option<int>>)
    ensures i >= |ids| || ids[i] in {"", "0"} ==> r == Success(None)
    ensures i < |ids| && ids[i] !in {"", "0"} ==>
              (r.Success? <==> ParseInt(ids[i]).Some?)
              && (r.Success? ==> r.value == ParseInt(ids[i]))
  {
    if i < |ids| && ids[i] !in {"", "0"} then
      match ParseInt(ids[i])
      case None => Failure("ValueError: invalid literal for int()")
      case Some(n) => Success(Some(n))
    else Success(None)
  }

  /** The ids of position `i`, when none of them fails to parse. */
  datatype Ids = Ids(morpheme: Option<int>, allomorph: Option<int>, ta: Option<int>)

  function IdsAt(m: seq<string>, a: seq<string>, t: seq<string>, i: nat): (r: Result<Ids>)
    ensures r.Success? <==> IdAt(m, i).Success? && IdAt(a, i).Success? && IdAt(t, i).Success?
    ensures r.Success? ==> r.value == Ids(IdAt(m, i).value, IdAt(a, i).value, IdAt(t, i).value)
  {
    match IdAt(m, i)
    case Failure(e) => Failure(e)
    case Success(mi) =>
      match IdAt(a, i)
      case Failure(e) => Failure(e)
      case Success(ai) =>
        match IdAt(t, i)
        case Failure(e) => Failure(e)
        case Success(ti) => Success(Ids(mi, ai, ti))
  }

  /** Line 744: a position is written when at least one id is present. */
  predicate Written(ids: Ids) {
    ids.morpheme.Some? || ids.allomorph.Some? || ids.ta.Some?
  }

  /** The row written for a position, numbered `ordering`. */
  function Link(slot: string, ids: Ids, ordering: nat): MorphemeLink {
    MorphemeLink(slot, ids.morpheme, ids.allomorph, ids.ta, ordering)
  }

  /** Lines 739-751 over the first `n` positions: each position's ids are
      parsed in order, the first parse failure ends the walk, and a written
      position adds a row numbered one past the rows so far. */
  function RowsUpTo(slots: seq<string>, m: seq<string>, a: seq<string>, t: seq<string>, n: nat)
    : (r: Result<seq<MorphemeLink>>)
    requires n <= |slots|
    ensures r.Success? <==> forall k :: 0 <= k < n ==> IdsAt(m, a, t, k).Success?
    ensures r.Success? ==> |r.value| <= n
    ensures r.Success? ==> forall j :: 0 <= j < |r.value| ==> r.value[j].ordering == j + 1
  {
    if n == 0 then Success([])
    else
      match RowsUpTo(slots, m, a, t, n - 1)
      case Failure(e) => Failure(e)
      case Success(prev) =>
        match IdsAt(m, a, t, n - 1)
        case Failure(e) => Failure(e)
        case Success(ids) =>
          var rows := if Written(ids) then prev + [Link(slots[n - 1], ids, |prev| + 1)] else prev;
          assert forall j :: 0 <= j < |prev| ==> rows[j] == prev[j];
          Success(rows)
  }

  /** Position `k` parses and has at least one id. */
  predicate WrittenAt(m: seq<string>, a: seq<string>, t: seq<string>, k: nat) {
    IdsAt(m, a, t, k).Success? && Written(IdsAt(m, a, t, k).value)
  }

  function WrittenFlag(m: seq<string>, a: seq<string>, t: seq<string>): nat -> bool {
    (k: nat) => WrittenAt(m, a, t, k)
  }

  /** The positions below `n` where `w` holds, in increasing order. */
  function Positions(w: nat -> bool, n: nat): (ps: seq<nat>)
    ensures forall j :: 0 <= j < |ps| ==> ps[j] < n && w(ps[j])
    ensures forall j, k :: 0 <= j < k < |ps| ==> ps[j] < ps[k]
    ensures forall k :: 0 <= k < n && w(k) ==> k in ps
  {
    if n == 0 then []
    else
      var prev := Positions(w, n - 1);
      var ps := if w(n - 1) then prev + [n - 1] else prev;
      assert forall j :: 0 <= j < |prev| ==> ps[j] == prev[j];
      ps
  }

  /** The positions below `n` that are written, in increasing order. */
  function WrittenPositions(slots: seq<string>, m: seq<string>, a: seq<string>, t: seq<string>, n: nat)
    : (ps: seq<nat>)
    requires n <= |slots|
    ensures forall j :: 0 <= j < |ps| ==> ps[j] < n && WrittenAt(m, a, t, ps[j])
    ensures forall j, k :: 0 <= j < k < |ps| ==> ps[j] < ps[k]
    ensures forall k :: 0 <= k < n && WrittenAt(m, a, t, k) ==> k in ps
  {
    var w := WrittenFlag(m, a, t);
    assert forall k :: w(k) == WrittenAt(m, a, t, k);
    Positions(w, n)
  }

  /** The rows are exactly the written positions, in order, the j-th
      numbered j + 1: positions with no id leave no gap in the numbering. */
  lemma {:induction false} RowsAreWrittenPositions(slots: seq<string>, m: seq<string>, a: seq<string>,
                                                   t: seq<string>, n: nat)
    requires n <= |slots|
    requires RowsUpTo(slots, m, a, t, n).Success?
    ensures var rows := RowsUpTo(slots, m, a, t, n).value;
            var ps := WrittenPositions(slots, m, a, t, n);
            && |rows| == |ps|
            && forall j :: 0 <= j < |rows| ==> rows[j] == Link(slots[ps[j]], IdsAt(m, a, t, ps[j]).value, j + 1)
  {
    if n > 0 {
      RowsAreWrittenPositions(slots, m, a, t, n - 1);
      RowsUpToStep(slots, m, a, t, n - 1, RowsUpTo(slots, m, a, t, n - 1).value);
      var w := WrittenFlag(m, a, t);
      assert w(n - 1) == WrittenAt(m, a, t, n - 1);
      assert WrittenPositions(slots, m, a, t, n) == Positions(w, n);
      assert WrittenPositions(slots, m, a, t, n - 1) == Positions(w, n - 1);
    }
  }

  /** The loop of lines 739-751. */
  method MorphemeRows(slots: seq<string>, m: seq<string>, a: seq<string>, t: seq<string>)
    returns (rows: seq<MorphemeLink>, failed: bool)
    ensures failed <==> exists i :: 0 <= i < |slots| && IdsAt(m, a, t, i).Failure?
    ensures failed <==> RowsUpTo(slots, m, a, t, |slots|).Failure?
    ensures !failed ==> rows == RowsUpTo(slots, m, a, t, |slots|).value
    ensures !failed ==> forall j :: 0 <= j < |rows| ==> rows[j].ordering == j + 1
  {
    rows := [];
    failed := false;
    var i := 0;
    while i < |slots|
      invariant 0 <= i <= |slots|
      invariant RowsUpTo(slots, m, a, t, i) == Success(rows)
    {
      var r := IdsAt(m, a, t, i);
      if r.Failure? {
        failed := true;
        FailureStopsRows(slots, m, a, t, i);
        return;
      }
      RowsUpToStep(slots, m, a, t, i, rows);
      if Written(r.value) {
        rows := rows + [Link(slots[i], r.value, |rows| + 1)];
      }
      i := i + 1;
    }
  }

  /** One more position extends the rows when its ids parse. */
  lemma RowsUpToStep(slots: seq<string>, m: seq<string>, a: seq<string>, t: seq<string>, i: nat,
                     rows: seq<MorphemeLink>)
    requires i < |slots| && RowsUpTo(slots, m, a, t, i) == Success(rows)
    requires IdsAt(m, a, t, i).Success?
    ensures var ids := IdsAt(m, a, t, i).value;
            RowsUpTo(slots, m, a, t, i + 1) ==
              Success(if Written(ids) then rows + [Link(slots[i], ids, |rows| + 1)] else rows)
  {
  }

  /** A position whose ids do not parse fails the whole walk. */
  lemma FailureStopsRows(slots: seq<string>, m: seq<string>, a: seq<string>, t: seq<string>, i: nat)
    requires i < |slots| && IdsAt(m, a, t, i).Failure?
    ensures RowsUpTo(slots, m, a, t, |slots|).Failure?
    ensures exists k :: 0 <= k < |slots| && IdsAt(m, a, t, k).Failure?
  {
  }

  /** The texts of the submitted form (lines 534-537): the three required
      fields and the optional comment, before trimming. */
  datatype ExampleTexts = ExampleTexts(tamayame: string, gloss: string, translation: string,
                                       comment: Option<string>)

  /** The `examples` row `insert_example` commits (lines 711-717): the id the
      database assigns, the entry and the four trimmed texts. */
  datatype ExampleRow = ExampleRow(exampleId: int, entryId: int, tamayameText: string,
                                   glossText: string, translationEn: string, comment: string)

  function ExampleRowOf(exampleId: int, entryId: int, texts: ExampleTexts): (e: ExampleRow)
    ensures e.exampleId == exampleId && e.entryId == entryId
    ensures NoEdgeSpace(e.tamayameText) && NoEdgeSpace(e.glossText)
    ensures NoEdgeSpace(e.translationEn) && NoEdgeSpace(e.comment)
    ensures texts.comment.None? ==> e.comment == ""
  {
    ExampleRow(exampleId, entryId, Strip(texts.tamayame), Strip(texts.gloss), Strip(texts.translation),
               Strip(OrElse(texts.comment, "")))
  }

  /** What a save leaves committed: `examples` rows, `example_entries` and
      `example_templates` links as (example id, entry or template id), and
      the `example_morphemes` rows of the saved example. */
  datatype Writes = Writes(examples: seq<ExampleRow>, entryLinks: seq<(int, int)>,
                           templateLinks: seq<(int, int)>, morphemes: seq<MorphemeLink>)

  const NoWrites: Writes := Writes([], [], [], [])

  /** Every committed example is linked to its entry: no example row is
      left without its `example_entries` row. */
  predicate EveryExampleLinked(w: Writes) {
    forall e :: e in w.examples ==> (e.exampleId, e.entryId) in w.entryLinks
  }

  /** What the route answers, with what it leaves committed. */
  datatype SaveOutcome =
    | Rejected(message: string)
    | ServerError(error: string, writes: Writes)
    | Saved(exampleId: int, writes: Writes)

  /** The writes of a save whose morpheme ids all parse: the example row,
      its entry link, its template link when a template matches, and the
      numbered morpheme rows. */
  function SavedWrites(exampleId: int, entryId: int, texts: ExampleTexts, slots: seq<string>,
                       m: seq<string>, a: seq<string>, t: seq<string>): (w: Writes)
    requires RowsUpTo(slots, m, a, t, |slots|).Success?
    ensures w.examples == [ExampleRowOf(exampleId, entryId, texts)]
    ensures w.entryLinks == [(exampleId, entryId)]
    ensures w.templateLinks == TemplateLinks(exampleId, slots)
    ensures w.morphemes == RowsUpTo(slots, m, a, t, |slots|).value
  {
    Writes([ExampleRowOf(exampleId, entryId, texts)], [(exampleId, entryId)], TemplateLinks(exampleId, slots),
           RowsUpTo(slots, m, a, t, |slots|).value)
  }

  /** Lines 726-731: the template link, written when `template_id` is truthy. */
  function TemplateLinks(exampleId: int, slots: seq<string>): (links: seq<(int, int)>)
    ensures Match(slots).Some? ==> links == [(exampleId, Match(slots).value.id)]
    ensures Match(slots).None? ==> links == []
  {
    var found := Match(slots);
    if found.Some? then
      MatchIdTruthy(slots);
      if found.value.id != 0 then [(exampleId, found.value.id)] else []
    else []
  }

  /** A matched template's id is never 0, so `if template_id` is taken. */
  lemma MatchIdTruthy(slots: seq<string>)
    requires Match(slots).Some?
    ensures Match(slots).value.id >= 51
  {
    var i :| 0 <= i < 68 && At(i) == Match(slots).value
              && forall j :: 0 <= j < i ==> At(j).SlotOrder() != slots;
  }

  /** Lines 686-755 as written. Without a TA slot nothing is written and
      the form is shown again with a message. Otherwise `insert_example`
      commits the example row on its own connection (db/mutations.py:26-31)
      before the ids are parsed; a morpheme id that `int()` refuses then
      raises out of the route, which has no handler, so the answer is a
      server error and the entry link, the template link and the morpheme
      rows, all on the uncommitted cursor, are lost while the example row
      stays. When every id parses, everything is committed. */
  function AddExample(exampleId: int, entryId: int, texts: ExampleTexts, slots: seq<string>,
                      m: seq<string>, a: seq<string>, t: seq<string>): (r: SaveOutcome)
    ensures r.Rejected? <==> "TA" !in slots
    ensures r.Rejected? ==> r.message == "Please include a TA slot before saving this example."
    ensures r.ServerError? <==> "TA" in slots && exists i :: 0 <= i < |slots| && IdsAt(m, a, t, i).Failure?
    ensures r.ServerError? ==> r.writes == Writes([ExampleRowOf(exampleId, entryId, texts)], [], [], [])
    ensures r.Saved? ==> && r.exampleId == exampleId
                         && r.writes.examples == [ExampleRowOf(exampleId, entryId, texts)]
                         && r.writes.entryLinks == [(exampleId, entryId)]
                         && (Match(slots).Some? ==> r.writes.templateLinks == [(exampleId, Match(slots).value.id)])
                         && (Match(slots).None? ==> r.writes.templateLinks == [])
                         && r.writes.morphemes == RowsUpTo(slots, m, a, t, |slots|).value
                         && forall j :: 0 <= j < |r.writes.morphemes| ==> r.writes.morphemes[j].ordering == j + 1
  {
    if "TA" !in slots then Rejected("Please include a TA slot before saving this example.")
    else
      var example := ExampleRowOf(exampleId, entryId, texts);
      match RowsUpTo(slots, m, a, t, |slots|)
      case Failure(e) => ServerError(e, Writes([example], [], [], []))
      case Success(_) => Saved(exampleId, SavedWrites(exampleId, entryId, texts, slots, m, a, t))
  }

  /** As written, a save that fails on a morpheme id leaves its example row
      committed with no entry link: an orphaned example. */
  lemma AddExampleOrphansExample(exampleId: int, entryId: int, texts: ExampleTexts, slots: seq<string>,
                                 m: seq<string>, a: seq<string>, t: seq<string>)
    requires "TA" in slots
    requires exists i :: 0 <= i < |slots| && IdsAt(m, a, t, i).Failure?
    ensures var r := AddExample(exampleId, entryId, texts, slots, m, a, t);
            r.ServerError? && |r.writes.examples| == 1 && !EveryExampleLinked(r.writes)
  {
    var r := AddExample(exampleId, entryId, texts, slots, m, a, t);
    assert r.writes.examples[0] in r.writes.examples;
  }

  /** The form of slots 100, TA, ROOT whose ROOT id is "x" leaves an
      orphaned example row. */
  lemma AddExampleOrphanWitness(exampleId: int, entryId: int, texts: ExampleTexts)
    ensures var r := AddExample(exampleId, entryId, texts, ["100", "TA", "ROOT"], ["", "", "x"], [], []);
            r.ServerError? && !EveryExampleLinked(r.writes)
  {
    assert ParseInt("x").None?;
    assert IdAt(["", "", "x"], 2).Failure?;
    assert IdsAt(["", "", "x"], [], [], 2).Failure?;
    AddExampleOrphansExample(exampleId, entryId, texts, ["100", "TA", "ROOT"], ["", "", "x"], [], []);
  }

  /** The save as evidently intended: the ids are checked before anything is
      committed (or everything is committed in one transaction), so a
      morpheme id that does not parse leaves the database as it was. */
  function AddExampleAtomic(exampleId: int, entryId: int, texts: ExampleTexts, slots: seq<string>,
                            m: seq<string>, a: seq<string>, t: seq<string>): (r: SaveOutcome)
    ensures r.Rejected? <==> "TA" !in slots
    ensures r.ServerError? <==> "TA" in slots && exists i :: 0 <= i < |slots| && IdsAt(m, a, t, i).Failure?
    ensures r.ServerError? ==> r.writes == NoWrites
    ensures r.Saved? ==> r == AddExample(exampleId, entryId, texts, slots, m, a, t)
  {
    if "TA" !in slots then Rejected("Please include a TA slot before saving this example.")
    else
      match RowsUpTo(slots, m, a, t, |slots|)
      case Failure(e) => ServerError(e, NoWrites)
      case Success(_) => Saved(exampleId, SavedWrites(exampleId, entryId, texts, slots, m, a, t))
  }

  /** The intended save never orphans an example: whatever it answers, each
      committed example row has its entry link, and an example row is
      committed exactly when the save succeeds. */
  lemma AddExampleAtomicKeepsLinks(exampleId: int, entryId: int, texts: ExampleTexts, slots: seq<string>,
                                   m: seq<string>, a: seq<string>, t: seq<string>)
    ensures var r := AddExampleAtomic(exampleId, entryId, texts, slots, m, a, t);
            && (r.ServerError? || r.Saved? ==> EveryExampleLinked(r.writes))
            && (r.ServerError? || r.Saved? ==> (|r.writes.examples| > 0 <==> r.Saved?))
  {
  }
}
