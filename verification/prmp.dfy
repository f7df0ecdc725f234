/** `get_prmp_options_for_slot` (app.py lines 1041-1236): the allomorph
    options offered for prefix slot 100, chosen by a strict priority chain
    — a curated voice list, then the benefactive (transitive) inventory of
    the entry's paradigm class, then the intransitive class mapping, then
    the whole transitive inventory. The tables the queries read are passed
    in as sequences of rows. */
module Prmp {
  import opened Wrappers
  import opened Text
  import opened Allomorphs
  import Ordering

  /** A row of `prmp_voice_membership`. */
  datatype VoiceMember = VoiceMember(voice: string, allomorphId: int)

  /** A row of `primary_paradigm_class_paradigms`. */
  datatype ClassParadigm = ClassParadigm(classId: int, partialParadigm: int)

  /** A row of `entry_intransitive_classes` joined with
      `intransitive_classes`, for the entry asked about. */
  datatype EntryClass = EntryClass(number: Option<string>, classCode: Option<string>)

  /** A row of the view `v_intrans_class_codes_norm`. */
  datatype CodeRow = CodeRow(classCode: Option<string>, scopeNorm: Option<string>,
                             base3: Option<string>, full4: Option<string>)

  /** What the queries read. `entryClass` is the entry row's
      `COALESCE(primary_paradigm_class_id, 1)` before the default: None
      when the entry does not exist, Some(None) when the column is NULL. */
  datatype PrmpDb = PrmpDb(
    allomorphs: seq<Allomorph>,
    voiceMembers: seq<VoiceMember>,
    entryClass: Option<Option<int>>,
    classParadigms: seq<ClassParadigm>,
    entryClasses: seq<EntryClass>,
    codes: seq<CodeRow>)

  /** The query-string arguments, None when absent. */
  datatype PrmpArgs = PrmpArgs(taNumber: Option<string>, voice: Option<string>,
                               transitivity: Option<string>, hasB: Option<string>)

  /** Which step of the chain answered. */
  datatype Source =
    | UnsupportedSlot
    | VoiceMembership(voice: string)
    | Benefactive(classId: int)
    | IntransMissingCode
    | IntransClass(code: string)
    | TransitiveFallback
  {
    /** The `source` field of the response. */
    function Tag(): string {
      match this
      case UnsupportedSlot => "unsupported-slot"
      case VoiceMembership(v) => "voice-" + Lower(v) + "-membership"
      case Benefactive(c) => "benefactive\U{2192}transitive-class-" + IntToString(c)
      case IntransMissingCode => "intrans-missing-code"
      case IntransClass(c) => "intrans-class-" + c
      case TransitiveFallback => "transitive-fallback"
    }
  }

  /** The HTTP status, the answering step and the options; each option is
      shown with its id, davis_id, form and gloss. */
  datatype PrmpResponse = PrmpResponse(status: int, source: Source, options: seq<Allomorph>)

  // ------------------------------------------------------------------
  // Arguments (lines 1047-1051)
  // ------------------------------------------------------------------

  function TaNumberArg(args: PrmpArgs): string {
    Lower(OrElse(args.taNumber, "sg"))
  }

  function VoiceArg(args: PrmpArgs): string {
    Upper(OrElse(args.voice, "NONE"))
  }

  predicate IntransitiveArg(args: PrmpArgs) {
    Title(OrElse(args.transitivity, "Transitive")) == "Intransitive"
  }

  predicate HasBArg(args: PrmpArgs) {
    OrElse(args.hasB, "0") in {"1", "true", "yes"}
  }

  /** The transitivity test is case-insensitive: "intransitive",
      "INTRANSITIVE" and "iNtRaNsItIvE" all take the intransitive path. */
  lemma IntransitiveArgCaseInsensitive(args: PrmpArgs)
    ensures IntransitiveArg(args) <==> Lower(OrElse(args.transitivity, "Transitive")) == "intransitive"
  {
    var v := OrElse(args.transitivity, "Transitive");
    IntransitiveWord();
    TitleOfWord(v, "intransitive", false);
    assert Title(v) == TitleFrom(v, false);
  }

  /** "intransitive" is lower-case ASCII and its title case is "Intransitive". */
  lemma IntransitiveWord()
    ensures forall i :: 0 <= i < |"intransitive"| ==> IsLowerAscii("intransitive"[i])
    ensures [UpperChar("intransitive"[0])] + "intransitive"[1..] == "Intransitive"
  {
  }

  // ------------------------------------------------------------------
  // Step 1: voice membership (lines 1065-1089)
  // ------------------------------------------------------------------

  /** The join of membership rows for `voice` with the single-person PRMP
      allomorphs they name. */
  function VoiceJoin(ms: seq<VoiceMember>, table: seq<Allomorph>, voice: string): (r: seq<Allomorph>)
    ensures forall i :: 0 <= i < |r| ==> r[i] in table && SinglePerson(r[i])
    ensures forall i :: 0 <= i < |r| ==> exists m :: m in ms && m.voice == voice && m.allomorphId == r[i].id
  {
    if |ms| == 0 then []
    else
      var here := if ms[0].voice == voice
                  then Where(table, (a: Allomorph) => a.id == ms[0].allomorphId && SinglePerson(a))
                  else [];
      var rest := VoiceJoin(ms[1..], table, voice);
      assert forall i :: 0 <= i < |rest| ==> exists m :: m in ms && m.voice == voice && m.allomorphId == rest[i].id by {
        forall i | 0 <= i < |rest|
          ensures exists m :: m in ms && m.voice == voice && m.allomorphId == rest[i].id
        {
          var m :| m in ms[1..] && m.voice == voice && m.allomorphId == rest[i].id;
          assert m in ms;
        }
      }
      here + rest
  }

  /** The voice query, ordered by davis_id, form length and id. */
  function VoiceRows(db: PrmpDb, voice: string): (r: seq<Allomorph>)
    ensures forall i :: 0 <= i < |r| ==> SinglePerson(r[i]) && r[i] in db.allomorphs
    ensures Ordering.SortedBy(r, DavisKey)
  {
    var j := VoiceJoin(db.voiceMembers, db.allomorphs, voice);
    var r := Ordering.SortByKey(j, DavisKey);
    assert forall i :: 0 <= i < |r| ==> r[i] in multiset(j);
    r
  }

  /** The voice step answers: REFL or PASS with at least one row. */
  predicate VoiceHit(args: PrmpArgs, db: PrmpDb) {
    VoiceArg(args) in {"REFL", "PASS"} && |VoiceRows(db, VoiceArg(args))| > 0
  }

  // ------------------------------------------------------------------
  // Step 2: benefactive (lines 1091-1134)
  // ------------------------------------------------------------------

  /** `int(r[0]) if r and r[0] else 1` over `COALESCE(class, 1)`: a missing
      entry, a NULL class and class 0 all give 1. */
  function TClass(row: Option<Option<int>>): (t: int)
    ensures t != 0
    ensures row.Some? && row.value.Some? && row.value.value != 0 ==> t == row.value.value
    ensures row.None? || row.value.None? || row.value.value == 0 ==> t == 1
  {
    match row
    case None => 1
    case Some(c) =>
      var v := c.GetOr(1);
      if v != 0 then v else 1
  }

  /** The allomorph's partial paradigm belongs to class `t`. */
  predicate InClass(a: Allomorph, cps: seq<ClassParadigm>, t: int) {
    a.partialParadigm.Some?
    && exists i :: 0 <= i < |cps| && cps[i].classId == t && cps[i].partialParadigm == a.partialParadigm.value
  }

  /** The rows the benefactive query selects before DISTINCT ON. */
  function BenefactiveFilter(db: PrmpDb, t: int): Allomorph -> bool {
    (a: Allomorph) => TransitiveShaped(a) && InClass(a, db.classParadigms, t)
  }

  function BenefactiveRows(db: PrmpDb, t: int): seq<Allomorph> {
    DistinctOnDavis(Where(db.allomorphs, BenefactiveFilter(db, t)))
  }

  // ------------------------------------------------------------------
  // Step 3: intransitive (lines 1136-1206)
  // ------------------------------------------------------------------

  /** `LOWER(eic.number) = %s` of line 1156. */
  predicate NumberMatches(ec: EntryClass, ta: string) {
    ec.number.Some? && Lower(ec.number.value) == ta
  }

  /** The class code mapped for the entry at this number: the code of the
      first row whose lower-cased number is `ta` (the code may be NULL), or
      None when no row has that number. */
  function ClassCodeFor(ecs: seq<EntryClass>, ta: string): (r: Option<string>)
    ensures r.Some? ==> exists i :: 0 <= i < |ecs| && NumberMatches(ecs[i], ta) && ecs[i].classCode == r
                                   && forall j :: 0 <= j < i ==> !NumberMatches(ecs[j], ta)
    ensures (forall i :: 0 <= i < |ecs| ==> !NumberMatches(ecs[i], ta)) ==> r.None?
  {
    if |ecs| == 0 then None
    else if NumberMatches(ecs[0], ta) then ecs[0].classCode
    else
      var r := ClassCodeFor(ecs[1..], ta);
      assert r.Some? ==> exists i :: 0 <= i < |ecs| && NumberMatches(ecs[i], ta) && ecs[i].classCode == r
                                    && forall j :: 0 <= j < i ==> !NumberMatches(ecs[j], ta) by {
        if r.Some? {
          var i :| 0 <= i < |ecs| - 1 && NumberMatches(ecs[1..][i], ta) && ecs[1..][i].classCode == r
                   && forall j :: 0 <= j < i ==> !NumberMatches(ecs[1..][j], ta);
          assert ecs[i + 1] == ecs[1..][i];
          assert forall j :: 1 <= j < i + 1 ==> ecs[j] == ecs[1..][j - 1];
        }
      }
      assert (forall i :: 0 <= i < |ecs| ==> !NumberMatches(ecs[i], ta)) ==>
               (forall i :: 0 <= i < |ecs| - 1 ==> !NumberMatches(ecs[1..][i], ta));
      r
  }

  /** The number spellings accepted for the mapped codes (lines 1139-1145). */
  function Scopes(ta: string): (r: seq<string>)
    ensures ta in r
  {
    if ta == "sg" then ["sg", "singular"]
    else if ta == "dl" || ta == "du" then ["dl", "du", "dual"]
    else if ta == "pl" then ["pl", "plural"]
    else [ta]
  }

  /** `SUBSTRING(davis_id FROM '^[0-9]{3}')`: the first three characters
      when they are digits, NULL otherwise. */
  function Prefix3(d: Option<string>): (r: Option<string>)
    ensures r.Some? ==> d.Some? && |r.value| == 3 && StartsWith(d.value, r.value)
  {
    if d.Some? && |d.value| >= 3 && IsDigit(d.value[0]) && IsDigit(d.value[1]) && IsDigit(d.value[2])
    then Some(d.value[..3]) else None
  }

  /** The join condition of lines 1176-1181: the full four-character code
      when the code row has one, else the three-digit base. */
  predicate CodeMatches(a: Allomorph, c: CodeRow) {
    || (c.full4.Some? && a.davisId == c.full4)
    || (c.full4.None? && Prefix3(a.davisId).Some? && Prefix3(a.davisId) == c.base3)
  }

  /** Some code row of `code` in one of the `scopes` matches the allomorph. */
  predicate CodedFor(a: Allomorph, codes: seq<CodeRow>, code: string, scopes: seq<string>) {
    exists i :: 0 <= i < |codes| && codes[i].classCode == Some(code) && codes[i].scopeNorm.Some?
                && codes[i].scopeNorm.value in scopes && CodeMatches(a, codes[i])
  }

  function IntransFilter(db: PrmpDb, code: string, scopes: seq<string>): Allomorph -> bool {
    (a: Allomorph) => IntransitiveShaped(a) && CodedFor(a, db.codes, code, scopes)
  }

  function IntransRows(db: PrmpDb, code: string, scopes: seq<string>): seq<Allomorph> {
    DistinctOnDavis(Where(db.allomorphs, IntransFilter(db, code, scopes)))
  }

  // ------------------------------------------------------------------
  // Step 4: transitive fallback (lines 1207-1233)
  // ------------------------------------------------------------------

  function FallbackFilter(): Allomorph -> bool {
    (a: Allomorph) => TransitiveShaped(a)
  }

  function FallbackRows(db: PrmpDb): seq<Allomorph> {
    DistinctOnDavis(Where(db.allomorphs, FallbackFilter()))
  }

  // ------------------------------------------------------------------
  // The chain
  // ------------------------------------------------------------------

  /** Steps 2-4, taken when the voice step does not answer. */
  function AfterVoice(args: PrmpArgs, db: PrmpDb): (r: PrmpResponse)
    ensures r.status == 200 && !r.source.UnsupportedSlot? && !r.source.VoiceMembership?
  {
    if HasBArg(args) then
      var t := TClass(db.entryClass);
      PrmpResponse(200, Benefactive(t), BenefactiveRows(db, t))
    else if IntransitiveArg(args) then
      var code := ClassCodeFor(db.entryClasses, TaNumberArg(args));
      if !Truthy(code) then PrmpResponse(200, IntransMissingCode, [])
      else PrmpResponse(200, IntransClass(code.value), IntransRows(db, code.value, Scopes(TaNumberArg(args))))
    else PrmpResponse(200, TransitiveFallback, FallbackRows(db))
  }

  /** Lines 1041-1236: a slot other than 100 is refused with 400; a REFL or
      PASS voice with curated rows answers first; otherwise benefactive,
      then intransitive, then the transitive fallback. */
  function PrmpOptions(slot: int, args: PrmpArgs, db: PrmpDb): (r: PrmpResponse)
    ensures r.source.UnsupportedSlot? <==> slot != 100
    ensures r.source.UnsupportedSlot? ==> r.status == 400 && r.options == []
    ensures !r.source.UnsupportedSlot? ==> r.status == 200
    ensures r.source.VoiceMembership? <==> slot == 100 && VoiceHit(args, db)
    ensures r.source.VoiceMembership? ==> r.source.voice == VoiceArg(args) && |r.options| > 0
    ensures r.source.Benefactive? <==> slot == 100 && !VoiceHit(args, db) && HasBArg(args)
    ensures r.source.Benefactive? ==> r.source.classId == TClass(db.entryClass)
    ensures r.source.IntransMissingCode? || r.source.IntransClass? <==>
              slot == 100 && !VoiceHit(args, db) && !HasBArg(args) && IntransitiveArg(args)
    ensures r.source.IntransMissingCode? <==>
              && slot == 100 && !VoiceHit(args, db) && !HasBArg(args) && IntransitiveArg(args)
              && !Truthy(ClassCodeFor(db.entryClasses, TaNumberArg(args)))
    ensures r.source.IntransMissingCode? ==> r.options == []
    ensures r.source.TransitiveFallback? <==>
              slot == 100 && !VoiceHit(args, db) && !HasBArg(args) && !IntransitiveArg(args)
  {
    if slot != 100 then PrmpResponse(400, UnsupportedSlot, [])
    else if VoiceHit(args, db) then
      var voice := VoiceArg(args);
      PrmpResponse(200, VoiceMembership(voice), VoiceRows(db, voice))
    else AfterVoice(args, db)
  }

  // ------------------------------------------------------------------
  // Properties of the options
  // ------------------------------------------------------------------

  /** Benefactive options are transitive-shaped rows of the class, one per davis_id. */
  lemma BenefactiveRowsFacts(db: PrmpDb, t: int)
    ensures var r := BenefactiveRows(db, t);
            && (forall i :: 0 <= i < |r| ==> r[i] in db.allomorphs && TransitiveShaped(r[i]) && InClass(r[i], db.classParadigms, t))
            && (forall i, j :: 0 <= i < j < |r| ==> r[i].davisId != r[j].davisId)
            && (forall i, x :: 0 <= i < |r| && x in db.allomorphs && TransitiveShaped(x)
                               && InClass(x, db.classParadigms, t) && x.davisId == r[i].davisId ==>
                  |r[i].form| < |x.form| || (|r[i].form| == |x.form| && r[i].id <= x.id))
  {
    var p := BenefactiveFilter(db, t);
    var w := Where(db.allomorphs, p);
    DistinctOnDavisFacts(w);
    var r := BenefactiveRows(db, t);
    forall i | 0 <= i < |r|
      ensures r[i] in db.allomorphs && TransitiveShaped(r[i]) && InClass(r[i], db.classParadigms, t)
    {
      assert r[i] in w;
      assert p(r[i]);
    }
    forall i, x | 0 <= i < |r| && x in db.allomorphs && TransitiveShaped(x)
                  && InClass(x, db.classParadigms, t) && x.davisId == r[i].davisId
      ensures |r[i].form| < |x.form| || (|r[i].form| == |x.form| && r[i].id <= x.id)
    {
      assert p(x);
      WhereDistinctPicksShortest(db.allomorphs, p, i, x);
    }
  }

  /** Intransitive options are intransitive-shaped rows carrying the class
      code, one per davis_id. */
  lemma IntransRowsFacts(db: PrmpDb, code: string, scopes: seq<string>)
    ensures var r := IntransRows(db, code, scopes);
            && (forall i :: 0 <= i < |r| ==> r[i] in db.allomorphs && IntransitiveShaped(r[i]) && CodedFor(r[i], db.codes, code, scopes))
            && (forall i, j :: 0 <= i < j < |r| ==> r[i].davisId != r[j].davisId)
  {
    var p := IntransFilter(db, code, scopes);
    var w := Where(db.allomorphs, p);
    DistinctOnDavisFacts(w);
    var r := IntransRows(db, code, scopes);
    forall i | 0 <= i < |r|
      ensures r[i] in db.allomorphs && IntransitiveShaped(r[i]) && CodedFor(r[i], db.codes, code, scopes)
    {
      assert r[i] in w;
      assert p(r[i]);
    }
  }

  /** Fallback options are transitive-shaped rows, one per davis_id. */
  lemma FallbackRowsFacts(db: PrmpDb)
    ensures var r := FallbackRows(db);
            && (forall i :: 0 <= i < |r| ==> r[i] in db.allomorphs && TransitiveShaped(r[i]))
            && (forall i, j :: 0 <= i < j < |r| ==> r[i].davisId != r[j].davisId)
  {
    var p := FallbackFilter();
    var w := Where(db.allomorphs, p);
    DistinctOnDavisFacts(w);
    var r := FallbackRows(db);
    forall i | 0 <= i < |r|
      ensures r[i] in db.allomorphs && TransitiveShaped(r[i])
    {
      assert r[i] in w;
      assert p(r[i]);
    }
  }

  /** What the options of each step are made of: voice options have a
      non-null single-person gloss; benefactive and fallback options are
      transitive-shaped, intransitive options intransitive-shaped; outside
      the voice step there is at most one option per davis_id. Every option
      is an allomorph row. */
  lemma PrmpOptionsShapes(slot: int, args: PrmpArgs, db: PrmpDb)
    ensures var r := PrmpOptions(slot, args, db);
            && (forall i :: 0 <= i < |r.options| ==> r.options[i] in db.allomorphs)
            && (r.source.VoiceMembership? ==> forall i :: 0 <= i < |r.options| ==> SinglePerson(r.options[i]))
            && (r.source.Benefactive? || r.source.TransitiveFallback? ==>
                  forall i :: 0 <= i < |r.options| ==> TransitiveShaped(r.options[i]))
            && (r.source.IntransClass? ==> forall i :: 0 <= i < |r.options| ==> IntransitiveShaped(r.options[i]))
            && (!r.source.VoiceMembership? ==>
                  forall i, j :: 0 <= i < j < |r.options| ==> r.options[i].davisId != r.options[j].davisId)
  {
    var r := PrmpOptions(slot, args, db);
    match r.source
    case Benefactive(t) => BenefactiveRowsFacts(db, t);
    case IntransClass(c) => IntransRowsFacts(db, c, Scopes(TaNumberArg(args)));
    case TransitiveFallback => FallbackRowsFacts(db);
    case _ =>
  }

  /** Benefactive and intransitive options never overlap: no row is offered
      both for a benefactive verb and for an intransitive one. */
  lemma BenefactiveAndIntransitiveApart(slot: int, a1: PrmpArgs, a2: PrmpArgs, db: PrmpDb, x: Allomorph)
    ensures var r1, r2 := PrmpOptions(slot, a1, db), PrmpOptions(slot, a2, db);
            (r1.source.Benefactive? || r1.source.TransitiveFallback?) && r2.source.IntransClass? ==>
              !(x in r1.options && x in r2.options)
  {
    PrmpOptionsShapes(slot, a1, db);
    PrmpOptionsShapes(slot, a2, db);
    ShapesDisjoint(x);
  }

  /** An empty voice result is as if no voice had been given. */
  lemma EmptyVoiceFallsThrough(args: PrmpArgs, db: PrmpDb)
    requires VoiceArg(args) in {"REFL", "PASS"} && |VoiceRows(db, VoiceArg(args))| == 0
    ensures PrmpOptions(100, args, db) == PrmpOptions(100, args.(voice := None), db)
  {
    var plain := args.(voice := None);
    assert VoiceArg(plain) == "NONE";
    assert !VoiceHit(args, db) && !VoiceHit(plain, db);
    assert HasBArg(plain) == HasBArg(args);
    assert IntransitiveArg(plain) == IntransitiveArg(args);
    assert TaNumberArg(plain) == TaNumberArg(args);
    assert AfterVoice(args, db) == AfterVoice(plain, db);
  }

  /** An intransitive entry with no class for the number gets no options and
      never reaches the transitive fallback. */
  lemma MissingCodeStops(args: PrmpArgs, db: PrmpDb)
    requires !VoiceHit(args, db) && !HasBArg(args) && IntransitiveArg(args)
    requires ClassCodeFor(db.entryClasses, TaNumberArg(args)) == None
    ensures PrmpOptions(100, args, db) == PrmpResponse(200, IntransMissingCode, [])
  {
  }
}
