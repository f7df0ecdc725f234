/** The Python half of `fetch_example_full` (db/examples_dal.py:283-402),
    with its helpers `_push_dedup` and `_ur_add` (lines 7-33).

    The three queries of the function are inputs here: the stored
    `example_morphemes` rows in `ORDER BY em.ordering` order, and the legacy
    PRMP and TA rows. What remains is the A/B placement style, the per-slot
    allomorph cards, and the "stem morphology" timeline of UR blocks with
    legacy rows injected at fractional orderings. */
module Reconcile {
  import opened Wrappers
  import opened Text
  import Ordering
  import Dedup

  // ------------------------------------------------------------------
  // Inputs
  // ------------------------------------------------------------------

  /** A row of the `example_morphemes` query; the three LEFT JOINs make
      every joined column nullable. */
  datatype SlotRow = SlotRow(
    slot: Option<string>,
    ordering: Option<int>,
    mSegment: Option<string>,
    mGloss: Option<string>,
    aForm: Option<string>,
    aGloss: Option<string>,
    aDavis: Option<string>,
    taForm: Option<string>,
    taNumber: Option<string>,
    taVoice: Option<string>)

  /** A row of `example_prmp_allomorphs` joined to its allomorph. */
  datatype LegacyPrmp = LegacyPrmp(form: string, urGloss: Option<string>, davisId: Option<string>, ordering: Option<int>)

  /** A row of `example_ta_allomorphs` joined to its TA allomorph. */
  datatype LegacyTa = LegacyTa(form: string, number: Option<string>, voiceClass: Option<string>, ordering: Option<int>)

  /** `(r["slot"] or "").upper()`. */
  function SlotName(r: SlotRow): string {
    Upper(OrElse(r.slot, ""))
  }

  // ------------------------------------------------------------------
  // A/B placement style (lines 284-293)
  // ------------------------------------------------------------------

  /** The positions of the rows with a non-empty slot, in increasing order. */
  function SlottedPositions(rows: seq<SlotRow>): (ps: seq<nat>)
    ensures forall j :: 0 <= j < |ps| ==> ps[j] < |rows| && Truthy(rows[ps[j]].slot)
    ensures forall j, k :: 0 <= j < k < |ps| ==> ps[j] < ps[k]
    ensures forall i :: 0 <= i < |rows| && Truthy(rows[i].slot) ==> i in ps
  {
    if |rows| == 0 then []
    else
      var prev := SlottedPositions(rows[..|rows| - 1]);
      assert forall j :: 0 <= j < |prev| ==> rows[..|rows| - 1][prev[j]] == rows[prev[j]];
      if Truthy(rows[|rows| - 1].slot) then prev + [|rows| - 1] else prev
  }

  /** The non-empty stored slot values, upper-cased, in row order: the k-th
      observed slot is the name of the k-th row that has a slot. */
  function Observed(rows: seq<SlotRow>): (r: seq<string>)
    ensures |r| == |SlottedPositions(rows)| <= |rows|
    ensures forall k :: 0 <= k < |r| ==> r[k] == SlotName(rows[SlottedPositions(rows)[k]])
  {
    if |rows| == 0 then []
    else
      var p := rows[..|rows| - 1];
      var prev := Observed(p);
      var last := rows[|rows| - 1];
      ObservedStep(rows);
      prev + (if Truthy(last.slot) then [SlotName(last)] else [])
  }

  /** One more row extends the slotted positions by its own position when
      it has a slot, and the earlier positions still name the same rows. */
  lemma ObservedStep(rows: seq<SlotRow>)
    requires |rows| > 0
    ensures var p := rows[..|rows| - 1];
            && SlottedPositions(rows) == SlottedPositions(p) + (if Truthy(rows[|rows| - 1].slot) then [|rows| - 1] else [])
            && forall k :: 0 <= k < |SlottedPositions(p)| ==> rows[SlottedPositions(p)[k]] == p[SlottedPositions(p)[k]]
  {
  }

  /** `list.index`: the first position of `x`, or None when it is absent. */
  function IndexOf(s: seq<string>, x: string): (r: Option<nat>)
    ensures r.None? <==> x !in s
    ensures r.Some? ==> r.value < |s| && s[r.value] == x
    ensures r.Some? ==> forall j :: 0 <= j < r.value ==> s[j] != x
  {
    if |s| == 0 then None
    else if s[0] == x then Some(0)
    else match IndexOf(s[1..], x)
      case None => None
      case Some(i) => Some(i + 1)
  }

  /** "B-style": ROOT is observed before TA. */
  predicate BStyle(rows: seq<SlotRow>) {
    var obs := Observed(rows);
    var root := IndexOf(obs, "ROOT");
    var ta := IndexOf(obs, "TA");
    root.Some? && ta.Some? && root.value < ta.value
  }

  /** B-style holds exactly when TA is observed and some ROOT is observed
      with no TA at or before it. */
  lemma BStyleMeans(rows: seq<SlotRow>)
    ensures var obs := Observed(rows);
            BStyle(rows) <==> "TA" in obs && exists i :: 0 <= i < |obs| && obs[i] == "ROOT" && "TA" !in obs[..i]
  {
    var obs := Observed(rows);
    if BStyle(rows) {
      BStyleRootFirst(obs);
    }
    if "TA" in obs && exists i :: 0 <= i < |obs| && obs[i] == "ROOT" && "TA" !in obs[..i] {
      var i :| 0 <= i < |obs| && obs[i] == "ROOT" && "TA" !in obs[..i];
      RootFirstBStyle(obs, i);
    }
  }

  lemma BStyleRootFirst(obs: seq<string>)
    requires IndexOf(obs, "ROOT").Some? && IndexOf(obs, "TA").Some?
    requires IndexOf(obs, "ROOT").value < IndexOf(obs, "TA").value
    ensures exists i :: 0 <= i < |obs| && obs[i] == "ROOT" && "TA" !in obs[..i]
  {
    var i := IndexOf(obs, "ROOT").value;
    var t := IndexOf(obs, "TA").value;
    assert forall j :: 0 <= j < i ==> obs[..i][j] == obs[j] && obs[j] != "TA";
    assert "TA" !in obs[..i];
  }

  lemma RootFirstBStyle(obs: seq<string>, i: nat)
    requires "TA" in obs && i < |obs| && obs[i] == "ROOT" && "TA" !in obs[..i]
    ensures IndexOf(obs, "ROOT").Some? && IndexOf(obs, "TA").Some?
    ensures IndexOf(obs, "ROOT").value < IndexOf(obs, "TA").value
  {
    var r := IndexOf(obs, "ROOT").value;
    var t := IndexOf(obs, "TA").value;
    assert r <= i;
    assert forall j :: 0 <= j < i ==> obs[..i][j] == obs[j];
  }

  // ------------------------------------------------------------------
  // Allomorph cards (lines 296-349)
  // ------------------------------------------------------------------

  /** A card of `slotted_allomorphs`; cards that have no voice class in the
      source carry None. */
  datatype Card = Card(form: string, urGloss: Option<string>, voiceClass: Option<string>, davisId: Option<string>, ordering: int)

  /** The `_push_dedup` key: (form, ur_gloss, davis_id). */
  datatype CardId = CardId(form: string, urGloss: Option<string>, davisId: Option<string>)

  function CardKey(c: Card): CardId {
    CardId(c.form, c.urGloss, c.davisId)
  }

  /** `key=lambda x: x.get("ordering", 0)`. */
  function CardOrder(c: Card): Ordering.Key {
    [Ordering.Num(c.ordering as real)]
  }

  /** The affix slots whose cards come from the allomorph join. */
  const AffixSlots: set<string> := {"100", "200", "300", "400", "500", "600"}

  /** The bucket a stored row contributes a card to, with the card: a TA row
      with a TA form, a ROOT row with a morpheme segment, or an affix row
      with an allomorph form. */
  function RowCard(r: SlotRow): (c: Option<(string, Card)>)
    ensures c.Some? ==> c.value.0 == SlotName(r) && (c.value.0 in AffixSlots || c.value.0 in {"TA", "ROOT"})
    ensures c.None? <==> !(|| (SlotName(r) == "TA" && Truthy(r.taForm))
                           || (SlotName(r) == "ROOT" && Truthy(r.mSegment))
                           || (SlotName(r) in AffixSlots && Truthy(r.aForm)))
  {
    var slot := SlotName(r);
    var o := IntOr(r.ordering, 0);
    if slot == "TA" && Truthy(r.taForm) then
      Some(("TA", Card(r.taForm.value, r.taNumber, r.taVoice, None, o)))
    else if slot == "ROOT" && Truthy(r.mSegment) then
      Some(("ROOT", Card(r.mSegment.value, r.mGloss, None, None, o)))
    else if slot in AffixSlots && Truthy(r.aForm) then
      Some((slot, Card(r.aForm.value, r.aGloss, None, r.aDavis, o)))
    else None
  }

  type Buckets = map<string, seq<Card>>

  /** `slotted.get(slot) or []`. */
  function Bucket(m: Buckets, slot: string): seq<Card> {
    if slot in m then m[slot] else []
  }

  /** `_push_dedup(slotted.setdefault(slot, []), card)`. */
  function Push(m: Buckets, slot: string, c: Card): Buckets {
    m[slot := Dedup.PushDedup(Bucket(m, slot), c, CardKey)]
  }

  /** The loop over the stored rows, pushing each row's card. */
  function RowBuckets(rows: seq<SlotRow>): Buckets {
    if |rows| == 0 then map[]
    else
      var m := RowBuckets(rows[..|rows| - 1]);
      match RowCard(rows[|rows| - 1])
      case None => m
      case Some(sc) => Push(m, sc.0, sc.1)
  }

  /** The cards the stored rows contribute to `slot`, in row order. */
  function RowCardsFor(rows: seq<SlotRow>, slot: string): (r: seq<Card>)
    ensures |r| <= |rows|
  {
    if |rows| == 0 then []
    else
      var c := RowCard(rows[|rows| - 1]);
      RowCardsFor(rows[..|rows| - 1], slot) + (if c.Some? && c.value.0 == slot then [c.value.1] else [])
  }

  /** Each bucket the row loop builds is the first-occurrence dedup of the
      cards its rows contribute, and a bucket exists once a card went in. */
  lemma {:induction false} RowBucketsAreDedups(rows: seq<SlotRow>, slot: string)
    ensures Bucket(RowBuckets(rows), slot) == Dedup.DedupBy(RowCardsFor(rows, slot), CardKey)
    ensures slot in RowBuckets(rows) <==> |RowCardsFor(rows, slot)| > 0
  {
    if |rows| > 0 {
      var p := rows[..|rows| - 1];
      RowBucketsAreDedups(p, slot);
      var m := RowBuckets(p);
      var c := RowCard(rows[|rows| - 1]);
      var s := RowCardsFor(rows, slot);
      if c.Some? && c.value.0 == slot {
        assert RowBuckets(rows) == Push(m, slot, c.value.1);
        assert s == RowCardsFor(p, slot) + [c.value.1];
        assert s[..|s| - 1] == RowCardsFor(p, slot);
        assert Dedup.DedupBy(s, CardKey) == Dedup.PushDedup(Dedup.DedupBy(RowCardsFor(p, slot), CardKey), c.value.1, CardKey);
      } else {
        assert slot in RowBuckets(rows) <==> slot in m;
        assert Bucket(RowBuckets(rows), slot) == Bucket(m, slot);
        assert s == RowCardsFor(p, slot);
      }
    }
  }

  /** No card is ever filed under "B". */
  lemma {:induction false} NoBCards(rows: seq<SlotRow>)
    ensures RowCardsFor(rows, "B") == []
    ensures "B" !in RowBuckets(rows)
  {
    if |rows| > 0 {
      var p := rows[..|rows| - 1];
      NoBCards(p);
      var c := RowCard(rows[|rows| - 1]);
      assert !(c.Some? && c.value.0 == "B");
      assert RowCardsFor(rows, "B") == RowCardsFor(p, "B") + [];
    }
    RowBucketsAreDedups(rows, "B");
  }

  /** The legacy PRMP rows as cards (`ordering or 0`). */
  function LegacyPrmpCards(ps: seq<LegacyPrmp>): (r: seq<Card>)
    ensures |r| == |ps|
    ensures forall i :: 0 <= i < |ps| ==> r[i].form == ps[i].form && r[i].davisId == ps[i].davisId
  {
    seq(|ps|, i requires 0 <= i < |ps| => Card(ps[i].form, ps[i].urGloss, None, ps[i].davisId, IntOr(ps[i].ordering, 0)))
  }

  /** The legacy TA rows as cards, counted from 1 (`ordering or i`). */
  function LegacyTaCards(ts: seq<LegacyTa>): (r: seq<Card>)
    ensures |r| == |ts|
    ensures forall i :: 0 <= i < |ts| ==> r[i].form == ts[i].form && r[i].davisId.None?
  {
    seq(|ts|, i requires 0 <= i < |ts| => Card(ts[i].form, ts[i].number, ts[i].voiceClass, None, IntOr(ts[i].ordering, i + 1)))
  }

  /** The buckets before sorting: the row loop, then the legacy PRMP rows
      when no 100 bucket exists, then the legacy TA rows when no TA bucket
      exists, each pushed onto a fresh bucket. */
  function UnsortedBuckets(rows: seq<SlotRow>, prmp: seq<LegacyPrmp>, ta: seq<LegacyTa>): Buckets {
    var m0 := RowBuckets(rows);
    var m1 := if "100" !in m0 && |prmp| > 0 then m0["100" := Dedup.DedupBy(LegacyPrmpCards(prmp), CardKey)] else m0;
    if "TA" !in m1 && |ta| > 0 then m1["TA" := Dedup.DedupBy(LegacyTaCards(ta), CardKey)] else m1
  }

  /** `slotted_allomorphs`: every bucket stably sorted by ordering. */
  function CardBuckets(rows: seq<SlotRow>, prmp: seq<LegacyPrmp>, ta: seq<LegacyTa>): (m: Buckets)
    ensures m.Keys == UnsortedBuckets(rows, prmp, ta).Keys
    ensures forall s :: s in m ==> Ordering.SortedBy(m[s], CardOrder)
    ensures forall s :: s in m ==> multiset(m[s]) == multiset(UnsortedBuckets(rows, prmp, ta)[s])
  {
    var u := UnsortedBuckets(rows, prmp, ta);
    map s | s in u :: Ordering.SortByKey(u[s], CardOrder)
  }

  /** Where each bucket's cards come from: stored rows win; legacy PRMP
      cards fill slot 100 and legacy TA cards slot TA only when the stored
      rows gave none; "B" never has a bucket. */
  lemma CardSources(rows: seq<SlotRow>, prmp: seq<LegacyPrmp>, ta: seq<LegacyTa>, slot: string)
    ensures var u := UnsortedBuckets(rows, prmp, ta);
            var own := RowCardsFor(rows, slot);
            && (|own| > 0 ==> slot in u && u[slot] == Dedup.DedupBy(own, CardKey))
            && (slot == "100" && |own| == 0 ==>
                  (slot in u <==> |prmp| > 0) && (|prmp| > 0 ==> u[slot] == Dedup.DedupBy(LegacyPrmpCards(prmp), CardKey)))
            && (slot == "TA" && |own| == 0 ==>
                  (slot in u <==> |ta| > 0) && (|ta| > 0 ==> u[slot] == Dedup.DedupBy(LegacyTaCards(ta), CardKey)))
            && (slot != "100" && slot != "TA" && |own| == 0 ==> slot !in u)
            && "B" !in u
  {
    RowBucketsAreDedups(rows, slot);
    NoBCards(rows);
    FillLegacy(RowBuckets(rows), Dedup.DedupBy(RowCardsFor(rows, slot), CardKey),
               Dedup.DedupBy(LegacyPrmpCards(prmp), CardKey), |prmp| > 0,
               Dedup.DedupBy(LegacyTaCards(ta), CardKey), |ta| > 0, slot);
  }

  /** The two legacy fills of `slotted_allomorphs` on any row-built map `m0`:
      "100" and "TA" are filled only when the rows left them missing, and
      every other bucket is the rows' own. */
  lemma FillLegacy(m0: Buckets, own: seq<Card>, prmp: seq<Card>, hasPrmp: bool,
                   ta: seq<Card>, hasTa: bool, slot: string)
    requires slot in m0 ==> m0[slot] == own
    requires "B" !in m0
    ensures var m1 := if "100" !in m0 && hasPrmp then m0["100" := prmp] else m0;
            var u := if "TA" !in m1 && hasTa then m1["TA" := ta] else m1;
            && (slot in m0 ==> slot in u && u[slot] == own)
            && (slot == "100" && slot !in m0 ==> (slot in u <==> hasPrmp) && (hasPrmp ==> u[slot] == prmp))
            && (slot == "TA" && slot !in m0 ==> (slot in u <==> hasTa) && (hasTa ==> u[slot] == ta))
            && (slot != "100" && slot != "TA" && slot !in m0 ==> slot !in u)
            && "B" !in u
  {
  }

  /** No bucket holds two cards with the same (form, ur_gloss, davis_id). */
  lemma CardBucketsUnique(rows: seq<SlotRow>, prmp: seq<LegacyPrmp>, ta: seq<LegacyTa>, slot: string)
    ensures slot in CardBuckets(rows, prmp, ta) ==> Dedup.UniqueKeys(CardBuckets(rows, prmp, ta)[slot], CardKey)
  {
    if slot in CardBuckets(rows, prmp, ta) {
      var u := UnsortedBuckets(rows, prmp, ta);
      CardSources(rows, prmp, ta, slot);
      Dedup.DedupByFirstOccurrences(RowCardsFor(rows, slot), CardKey);
      Dedup.DedupByFirstOccurrences(LegacyPrmpCards(prmp), CardKey);
      Dedup.DedupByFirstOccurrences(LegacyTaCards(ta), CardKey);
      assert Dedup.UniqueKeys(u[slot], CardKey);
      Dedup.UniqueKeysPermutation(u[slot], CardBuckets(rows, prmp, ta)[slot], CardKey);
    }
  }

  // ------------------------------------------------------------------
  // UR blocks (lines 7-33 and 351-394)
  // ------------------------------------------------------------------

  /** A block of the "stem morphology" timeline. Orderings are integers
      for stored rows and fractions for injected legacy rows. */
  datatype UrBlock = UrBlock(segment: string, gloss: string, position: string, ordering: real)

  /** The `seen` key of `_ur_add`: (segment, gloss, position). */
  datatype UrId = UrId(segment: string, gloss: string, position: string)

  function UrKey(b: UrBlock): UrId {
    UrId(b.segment, b.gloss, b.position)
  }

  /** The list of blocks together with the `seen` set. */
  datatype UrState = UrState(blocks: seq<UrBlock>, seen: set<UrId>)

  /** `seen` holds exactly the keys of the blocks, and no key repeats. */
  ghost predicate Consistent(st: UrState) {
    && (forall k :: k in st.seen <==> Dedup.HasKey(st.blocks, UrKey, k))
    && Dedup.UniqueKeys(st.blocks, UrKey)
  }

  /** The block `_ur_add` would append: gloss defaulted to "" and stripped. */
  function NewBlock(segment: string, gloss: Option<string>, position: string, ordering: real): (b: UrBlock)
    ensures b.segment == segment && b.position == position && b.ordering == ordering
    ensures NoEdgeSpace(b.gloss)
  {
    UrBlock(segment, Strip(OrElse(gloss, "")), position, ordering)
  }

  /** `_ur_add`: a falsy segment is ignored, and a block whose key is
      already in `seen` is dropped. */
  function UrAdd(st: UrState, segment: Option<string>, gloss: Option<string>, position: string, ordering: real): (r: UrState)
    ensures !Truthy(segment) ==> r == st
    ensures r.blocks == st.blocks || (Truthy(segment) && r.blocks == st.blocks + [NewBlock(segment.value, gloss, position, ordering)])
    ensures Consistent(st) ==> Consistent(r)
    ensures Consistent(st) && Truthy(segment) ==>
              r.blocks == Dedup.PushDedup(st.blocks, NewBlock(segment.value, gloss, position, ordering), UrKey)
  {
    if !Truthy(segment) then st
    else
      var b := NewBlock(segment.value, gloss, position, ordering);
      if UrKey(b) in st.seen then st
      else
        var r := UrState(st.blocks + [b], st.seen + {UrKey(b)});
        UrAddConsistent(st, b);
        r
  }

  lemma UrAddConsistent(st: UrState, b: UrBlock)
    requires UrKey(b) !in st.seen
    ensures Consistent(st) ==> Consistent(UrState(st.blocks + [b], st.seen + {UrKey(b)}))
  {
    if Consistent(st) {
      forall k
        ensures Dedup.HasKey(st.blocks + [b], UrKey, k) <==> Dedup.HasKey(st.blocks, UrKey, k) || k == UrKey(b)
      {
        Dedup.HasKeyAppend(st.blocks, [b], UrKey, k);
        assert Dedup.HasKey([b], UrKey, k) <==> k == UrKey(b) by {
          if k == UrKey(b) {
            assert UrKey([b][0]) == k;
          }
        }
      }
    }
  }

  /** What a stored row adds to the timeline: its TA form at position TA,
      else its allomorph form, else its morpheme segment, each at the row's
      slot. */
  function RowSegment(r: SlotRow): (c: Option<(string, Option<string>, string)>)
    ensures c.None? <==> !Truthy(r.taForm) && !Truthy(r.aForm) && !Truthy(r.mSegment)
    ensures Truthy(r.taForm) ==> c == Some((r.taForm.value, r.taNumber, "TA"))
    ensures !Truthy(r.taForm) && Truthy(r.aForm) ==> c == Some((r.aForm.value, r.aGloss, SlotName(r)))
    ensures !Truthy(r.taForm) && !Truthy(r.aForm) && Truthy(r.mSegment) ==> c == Some((r.mSegment.value, r.mGloss, SlotName(r)))
    ensures c.Some? ==> c.value.0 != ""
  {
    if Truthy(r.taForm) then Some((r.taForm.value, r.taNumber, "TA"))
    else if Truthy(r.aForm) then Some((r.aForm.value, r.aGloss, SlotName(r)))
    else if Truthy(r.mSegment) then Some((r.mSegment.value, r.mGloss, SlotName(r)))
    else None
  }

  function RowUr(st: UrState, r: SlotRow): UrState {
    match RowSegment(r)
    case None => st
    case Some(c) => UrAdd(st, Some(c.0), c.1, c.2, IntOr(r.ordering, 0) as real)
  }

  /** Step 1: every stored row in turn. */
  function StoredUr(rows: seq<SlotRow>): UrState {
    if |rows| == 0 then UrState([], {})
    else RowUr(StoredUr(rows[..|rows| - 1]), rows[|rows| - 1])
  }

  /** The candidate blocks of the stored rows, before deduplication. */
  function Candidates(rows: seq<SlotRow>): seq<UrBlock> {
    if |rows| == 0 then []
    else
      var r := rows[|rows| - 1];
      Candidates(rows[..|rows| - 1]) +
        match RowSegment(r)
        case None => []
        case Some(c) => [NewBlock(c.0, c.1, c.2, IntOr(r.ordering, 0) as real)]
  }

  /** Step 1 keeps the first of the rows' blocks with each key, and its
      `seen` set stays in step with the blocks. */
  lemma {:induction false} StoredUrIsDedup(rows: seq<SlotRow>)
    ensures Consistent(StoredUr(rows))
    ensures StoredUr(rows).blocks == Dedup.DedupBy(Candidates(rows), UrKey)
  {
    if |rows| > 0 {
      var p := rows[..|rows| - 1];
      StoredUrIsDedup(p);
      var cs := Candidates(rows);
      match RowSegment(rows[|rows| - 1])
      case None =>
        assert cs == Candidates(p);
      case Some(c) =>
        assert cs[..|cs| - 1] == Candidates(p);
    }
  }

  /** The orderings of the blocks at `position`. */
  function Orders(blocks: seq<UrBlock>, position: string): (r: seq<real>)
    ensures forall x :: x in r <==> exists i :: 0 <= i < |blocks| && blocks[i].position == position && blocks[i].ordering == x
  {
    if |blocks| == 0 then []
    else
      var p := blocks[..|blocks| - 1];
      var b := blocks[|blocks| - 1];
      var r := Orders(p, position) + (if b.position == position then [b.ordering] else []);
      assert forall i :: 0 <= i < |p| ==> p[i] == blocks[i];
      r
  }

  /** `min(xs, default=d)`. */
  function MinOr(xs: seq<real>, d: real): (r: real)
    ensures |xs| == 0 ==> r == d
    ensures |xs| > 0 ==> r in xs && forall i :: 0 <= i < |xs| ==> r <= xs[i]
  {
    if |xs| == 0 then d
    else if |xs| == 1 then xs[0]
    else
      var m := MinOr(xs[1..], d);
      if xs[0] <= m then xs[0] else m
  }

  /** `max(xs)` of a non-empty list. */
  function Max(xs: seq<real>): (r: real)
    requires |xs| > 0
    ensures r in xs && forall i :: 0 <= i < |xs| ==> xs[i] <= r
  {
    if |xs| == 1 then xs[0]
    else
      var m := Max(xs[1..]);
      if m <= xs[0] then xs[0] else m
  }

  predicate HasPosition(blocks: seq<UrBlock>, position: string) {
    exists i :: 0 <= i < |blocks| && blocks[i].position == position
  }

  /** Lines 369-374: after the last ROOT in B-style, else before the first
      TA or ROOT (or before 0). */
  function PrmpInjectOrder(blocks: seq<UrBlock>, bStyle: bool): real {
    var roots := Orders(blocks, "ROOT");
    if bStyle && |roots| > 0 then Max(roots) + 0.5
    else MinOr(Orders(blocks, "TA") + roots, 0.0) - 0.5
  }

  /** Lines 383-389: after the last ROOT in B-style, else before the first
      ROOT, else at -1. */
  function TaInjectOrder(blocks: seq<UrBlock>, bStyle: bool): real {
    var roots := Orders(blocks, "ROOT");
    if bStyle && |roots| > 0 then Max(roots) + 0.75
    else if |roots| > 0 then MinOr(roots, 0.0) - 0.75
    else -1.0
  }

  /** `_ur_add` of every legacy PRMP row at position 100 and one ordering. */
  function AddPrmp(st: UrState, ps: seq<LegacyPrmp>, ordering: real): UrState {
    if |ps| == 0 then st
    else
      var p := ps[|ps| - 1];
      UrAdd(AddPrmp(st, ps[..|ps| - 1], ordering), Some(p.form), p.urGloss, "100", ordering)
  }

  /** Step 2 (lines 366-377). */
  function InjectPrmp(st: UrState, prmp: seq<LegacyPrmp>, bStyle: bool): UrState {
    if !HasPosition(st.blocks, "100") && |prmp| > 0 then
      AddPrmp(st, prmp, PrmpInjectOrder(st.blocks, bStyle))
    else st
  }

  /** Step 3 (lines 379-391): only the first legacy TA row. */
  function InjectTa(st: UrState, ta: seq<LegacyTa>, bStyle: bool): UrState {
    if !HasPosition(st.blocks, "TA") && |ta| > 0 then
      UrAdd(st, Some(ta[0].form), ta[0].number, "TA", TaInjectOrder(st.blocks, bStyle))
    else st
  }

  function UrOrder(b: UrBlock): Ordering.Key {
    [Ordering.Num(b.ordering)]
  }

  /** The blocks before the final sort. */
  function Timeline(rows: seq<SlotRow>, prmp: seq<LegacyPrmp>, ta: seq<LegacyTa>): UrState {
    var b := BStyle(rows);
    InjectTa(InjectPrmp(StoredUr(rows), prmp, b), ta, b)
  }

  /** `morphemes`: the timeline stably sorted by ordering, with no two
      blocks sharing (segment, gloss, position). */
  function Morphemes(rows: seq<SlotRow>, prmp: seq<LegacyPrmp>, ta: seq<LegacyTa>): (r: seq<UrBlock>)
    ensures Ordering.SortedBy(r, UrOrder)
    ensures multiset(r) == multiset(Timeline(rows, prmp, ta).blocks)
    ensures forall k :: Ordering.WithKey(r, UrOrder, k) == Ordering.WithKey(Timeline(rows, prmp, ta).blocks, UrOrder, k)
    ensures Dedup.UniqueKeys(r, UrKey)
  {
    var t := Timeline(rows, prmp, ta).blocks;
    var r := Ordering.SortByKey(t, UrOrder);
    TimelineConsistent(rows, prmp, ta);
    Dedup.UniqueKeysPermutation(t, r, UrKey);
    r
  }

  lemma TimelineConsistent(rows: seq<SlotRow>, prmp: seq<LegacyPrmp>, ta: seq<LegacyTa>)
    ensures Consistent(Timeline(rows, prmp, ta))
  {
    StoredUrIsDedup(rows);
    AddPrmpConsistent(StoredUr(rows), prmp, PrmpInjectOrder(StoredUr(rows).blocks, BStyle(rows)));
  }

  lemma {:induction false} AddPrmpConsistent(st: UrState, ps: seq<LegacyPrmp>, ordering: real)
    requires Consistent(st)
    ensures Consistent(AddPrmp(st, ps, ordering))
  {
    if |ps| > 0 {
      AddPrmpConsistent(st, ps[..|ps| - 1], ordering);
    }
  }

  // ------------------------------------------------------------------
  // Where the injected blocks land
  // ------------------------------------------------------------------

  /** The legacy PRMP rows only append blocks at position 100, all at the
      given ordering. */
  lemma {:induction false} AddPrmpAppends(st: UrState, ps: seq<LegacyPrmp>, ordering: real)
    ensures var r := AddPrmp(st, ps, ordering).blocks;
            && |st.blocks| <= |r| && r[..|st.blocks|] == st.blocks
            && forall i :: |st.blocks| <= i < |r| ==> r[i].position == "100" && r[i].ordering == ordering
  {
    if |ps| > 0 {
      AddPrmpAppends(st, ps[..|ps| - 1], ordering);
    }
  }

  /** Blocks at other positions leave the orderings at `position` alone. */
  lemma {:induction false} OrdersIgnore(blocks: seq<UrBlock>, extra: seq<UrBlock>, position: string)
    requires forall i :: 0 <= i < |extra| ==> extra[i].position != position
    ensures Orders(blocks + extra, position) == Orders(blocks, position)
    decreases |extra|
  {
    if |extra| > 0 {
      var e := extra[..|extra| - 1];
      OrdersIgnore(blocks, e, position);
      var all := blocks + extra;
      assert all[..|all| - 1] == blocks + e;
      assert all[|all| - 1] == extra[|extra| - 1];
      assert Orders(all, position) == Orders(blocks + e, position);
    } else {
      assert blocks + extra == blocks;
    }
  }

  /** With no block at `position` there are no orderings for it. */
  lemma OrdersAbsent(blocks: seq<UrBlock>, position: string)
    requires !HasPosition(blocks, position)
    ensures Orders(blocks, position) == []
  {
  }

  /** Step 2 leaves the ROOT and TA orderings as step 1 left them. */
  lemma InjectPrmpKeepsOrders(st: UrState, prmp: seq<LegacyPrmp>, bStyle: bool)
    ensures Orders(InjectPrmp(st, prmp, bStyle).blocks, "ROOT") == Orders(st.blocks, "ROOT")
    ensures HasPosition(InjectPrmp(st, prmp, bStyle).blocks, "TA") <==> HasPosition(st.blocks, "TA")
  {
    var r := InjectPrmp(st, prmp, bStyle).blocks;
    if r != st.blocks {
      AddPrmpAppends(st, prmp, PrmpInjectOrder(st.blocks, bStyle));
      var extra := r[|st.blocks|..];
      assert r == st.blocks + extra;
      OrdersIgnore(st.blocks, extra, "ROOT");
      if HasPosition(r, "TA") {
        var i :| 0 <= i < |r| && r[i].position == "TA";
        assert i < |st.blocks| && r[i] == st.blocks[i];
      }
    }
  }

  /** A stored 100 block shuts the legacy PRMP rows out, and a stored TA
      block the legacy TA rows. */
  lemma LegacyIgnored(rows: seq<SlotRow>, prmp: seq<LegacyPrmp>, ta: seq<LegacyTa>)
    ensures HasPosition(StoredUr(rows).blocks, "100") ==> Morphemes(rows, prmp, ta) == Morphemes(rows, [], ta)
    ensures HasPosition(StoredUr(rows).blocks, "TA") ==> Morphemes(rows, prmp, ta) == Morphemes(rows, prmp, [])
  {
    var b := BStyle(rows);
    InjectPrmpKeepsOrders(StoredUr(rows), prmp, b);
  }

  /** When step 1 produced no 100 block, every 100 block of the timeline
      is a legacy PRMP row at the one injected ordering. */
  lemma InjectedPrmpOrdering(rows: seq<SlotRow>, prmp: seq<LegacyPrmp>, ta: seq<LegacyTa>)
    requires !HasPosition(StoredUr(rows).blocks, "100")
    ensures forall x :: x in Morphemes(rows, prmp, ta) && x.position == "100" ==>
              x.ordering == PrmpInjectOrder(StoredUr(rows).blocks, BStyle(rows))
  {
    var st := StoredUr(rows);
    var b := BStyle(rows);
    OnlyInjectedPrmp(st, prmp, ta, b);
    forall x | x in Morphemes(rows, prmp, ta) && x.position == "100"
      ensures x.ordering == PrmpInjectOrder(st.blocks, b)
    {
      assert x in multiset(Timeline(rows, prmp, ta).blocks);
    }
  }

  /** Steps 2 and 3 on blocks without 100 leave every 100 block at the
      PRMP injection ordering. */
  lemma OnlyInjectedPrmp(st: UrState, prmp: seq<LegacyPrmp>, ta: seq<LegacyTa>, b: bool)
    requires !HasPosition(st.blocks, "100")
    ensures var t := InjectTa(InjectPrmp(st, prmp, b), ta, b).blocks;
            forall i :: 0 <= i < |t| && t[i].position == "100" ==> t[i].ordering == PrmpInjectOrder(st.blocks, b)
  {
    var o := PrmpInjectOrder(st.blocks, b);
    var mid := InjectPrmp(st, prmp, b);
    if |prmp| > 0 {
      AddPrmpAppends(st, prmp, o);
    }
    InjectTaAppends(mid, ta, b);
    AppendedKeepOrdering(st.blocks, mid.blocks, InjectTa(mid, ta, b).blocks, o);
  }

  /** Blocks without 100, then 100 blocks at `o`, then TA blocks: every 100
      block is at `o`. */
  lemma AppendedKeepOrdering(st: seq<UrBlock>, mid: seq<UrBlock>, t: seq<UrBlock>, o: real)
    requires !HasPosition(st, "100")
    requires |st| <= |mid| && mid[..|st|] == st
    requires forall i :: |st| <= i < |mid| ==> mid[i].ordering == o
    requires |mid| <= |t| && t[..|mid|] == mid
    requires forall i :: |mid| <= i < |t| ==> t[i].position == "TA"
    ensures forall i :: 0 <= i < |t| && t[i].position == "100" ==> t[i].ordering == o
  {
    assert forall i :: 0 <= i < |st| ==> mid[i] == st[i] && st[i].position != "100";
    forall i | 0 <= i < |t| && t[i].position == "100"
      ensures t[i].ordering == o
    {
      if i < |mid| {
        assert t[i] == mid[i];
      }
    }
  }

  /** Step 3 appends at most one block, at position TA. */
  lemma InjectTaAppends(mid: UrState, ta: seq<LegacyTa>, b: bool)
    ensures var t := InjectTa(mid, ta, b).blocks;
            && |mid.blocks| <= |t| <= |mid.blocks| + 1
            && t[..|mid.blocks|] == mid.blocks
            && forall i :: |mid.blocks| <= i < |t| ==> t[i].position == "TA"
  {
    var t := InjectTa(mid, ta, b).blocks;
    if t != mid.blocks {
      assert t[..|mid.blocks|] == mid.blocks;
    }
  }

  /** When step 1 produced no TA block, the timeline's TA blocks are the
      first legacy TA row alone, placed by the TA injection rule. */
  lemma InjectedTa(rows: seq<SlotRow>, prmp: seq<LegacyPrmp>, ta: seq<LegacyTa>)
    requires !HasPosition(StoredUr(rows).blocks, "TA") && |ta| > 0
    ensures forall x :: x in Morphemes(rows, prmp, ta) && x.position == "TA" ==>
              x == NewBlock(ta[0].form, ta[0].number, "TA", TaInjectOrder(StoredUr(rows).blocks, BStyle(rows)))
  {
    var st := StoredUr(rows);
    var b := BStyle(rows);
    var t := Timeline(rows, prmp, ta).blocks;
    assert t == InjectTa(InjectPrmp(st, prmp, b), ta, b).blocks;
    InjectedTaAfterPrmp(st, prmp, ta, b);
    forall x | x in Morphemes(rows, prmp, ta) && x.position == "TA"
      ensures x == NewBlock(ta[0].form, ta[0].number, "TA", TaInjectOrder(st.blocks, b))
    {
      assert x in multiset(t);
    }
  }

  /** The same over any stored timeline and placement style. */
  lemma InjectedTaAfterPrmp(st: UrState, prmp: seq<LegacyPrmp>, ta: seq<LegacyTa>, b: bool)
    requires !HasPosition(st.blocks, "TA") && |ta| > 0
    ensures var t := InjectTa(InjectPrmp(st, prmp, b), ta, b).blocks;
            forall x :: x in t && x.position == "TA" ==>
              x == NewBlock(ta[0].form, ta[0].number, "TA", TaInjectOrder(st.blocks, b))
  {
    var mid := InjectPrmp(st, prmp, b);
    InjectPrmpKeepsOrders(st, prmp, b);
    assert TaInjectOrder(mid.blocks, b) == TaInjectOrder(st.blocks, b);
    OnlyInjectedTa(mid, ta, b);
  }

  /** Step 3 on blocks without TA adds the one TA block there will be. */
  lemma OnlyInjectedTa(mid: UrState, ta: seq<LegacyTa>, b: bool)
    requires !HasPosition(mid.blocks, "TA") && |ta| > 0
    ensures var t := InjectTa(mid, ta, b).blocks;
            forall i :: 0 <= i < |t| && t[i].position == "TA" ==>
              t[i] == NewBlock(ta[0].form, ta[0].number, "TA", TaInjectOrder(mid.blocks, b))
  {
    var t := InjectTa(mid, ta, b).blocks;
    forall i | 0 <= i < |t| && t[i].position == "TA"
      ensures t[i] == NewBlock(ta[0].form, ta[0].number, "TA", TaInjectOrder(mid.blocks, b))
    {
    }
  }

  // ------------------------------------------------------------------
  // Placement in the sorted timeline
  // ------------------------------------------------------------------

  /** In the sorted timeline an earlier block never has a larger ordering. */
  lemma SortedOrdering(r: seq<UrBlock>, i: nat, j: nat)
    requires Ordering.SortedBy(r, UrOrder)
    requires i < j < |r|
    ensures r[i].ordering <= r[j].ordering
  {
    assert Ordering.KeyLe(UrOrder(r[i]), UrOrder(r[j]));
    assert UrOrder(r[i])[1..] == [];
  }

  /** Steps 2 and 3 leave the ROOT orderings as step 1 left them. */
  lemma TimelineRootOrders(rows: seq<SlotRow>, prmp: seq<LegacyPrmp>, ta: seq<LegacyTa>)
    ensures Orders(Timeline(rows, prmp, ta).blocks, "ROOT") == Orders(StoredUr(rows).blocks, "ROOT")
  {
    var b := BStyle(rows);
    var mid := InjectPrmp(StoredUr(rows), prmp, b);
    InjectPrmpKeepsOrders(StoredUr(rows), prmp, b);
    var t := Timeline(rows, prmp, ta).blocks;
    if t != mid.blocks {
      var extra := t[|mid.blocks|..];
      assert t == mid.blocks + extra;
      OrdersIgnore(mid.blocks, extra, "ROOT");
    }
  }

  /** In A-style, with neither 100 nor TA stored, the injected TA block
      sorts before every injected 100 block. */
  lemma AStyleTaBefore100(rows: seq<SlotRow>, prmp: seq<LegacyPrmp>, ta: seq<LegacyTa>)
    requires !BStyle(rows)
    requires !HasPosition(StoredUr(rows).blocks, "100") && !HasPosition(StoredUr(rows).blocks, "TA")
    requires |ta| > 0
    ensures var r := Morphemes(rows, prmp, ta);
            forall i, j :: 0 <= i < j < |r| && r[i].position == "100" ==> r[j].position != "TA"
  {
    var st := StoredUr(rows).blocks;
    OrdersAbsent(st, "TA");
    var roots := Orders(st, "ROOT");
    assert Orders(st, "TA") + roots == roots;
    assert TaInjectOrder(st, false) < PrmpInjectOrder(st, false);
    InjectedPrmpOrdering(rows, prmp, ta);
    InjectedTa(rows, prmp, ta);
    var r := Morphemes(rows, prmp, ta);
    forall i, j | 0 <= i < j < |r| && r[i].position == "100"
      ensures r[j].position != "TA"
    {
      SortedOrdering(r, i, j);
      assert r[i] in r && r[j] in r;
    }
  }

  /** In B-style, with no 100 stored and some ROOT stored, every ROOT
      block sorts before every injected 100 block. */
  lemma BStyle100AfterRoot(rows: seq<SlotRow>, prmp: seq<LegacyPrmp>, ta: seq<LegacyTa>)
    requires BStyle(rows)
    requires !HasPosition(StoredUr(rows).blocks, "100") && HasPosition(StoredUr(rows).blocks, "ROOT")
    ensures var r := Morphemes(rows, prmp, ta);
            forall i, j :: 0 <= i < j < |r| && r[i].position == "100" ==> r[j].position != "ROOT"
  {
    var st := StoredUr(rows).blocks;
    var roots := Orders(st, "ROOT");
    var k :| 0 <= k < |st| && st[k].position == "ROOT";
    assert st[k].ordering in roots;
    var o := PrmpInjectOrder(st, true);
    assert o == Max(roots) + 0.5;
    InjectedPrmpOrdering(rows, prmp, ta);
    TimelineRootOrders(rows, prmp, ta);
    var t := Timeline(rows, prmp, ta).blocks;
    assert forall x :: x in Orders(t, "ROOT") ==> x < o;
    RootsBelow(Morphemes(rows, prmp, ta), t, o);
  }

  /** A sorted permutation of `t` in which every 100 block sits at `o`,
      above every ROOT ordering, has no ROOT after a 100 block. */
  lemma RootsBelow(r: seq<UrBlock>, t: seq<UrBlock>, o: real)
    requires Ordering.SortedBy(r, UrOrder) && multiset(r) == multiset(t)
    requires forall x :: x in r && x.position == "100" ==> x.ordering == o
    requires forall x :: x in Orders(t, "ROOT") ==> x < o
    ensures forall i, j :: 0 <= i < j < |r| && r[i].position == "100" ==> r[j].position != "ROOT"
  {
    forall i, j | 0 <= i < j < |r| && r[i].position == "100"
      ensures r[j].position != "ROOT"
    {
      SortedOrdering(r, i, j);
      assert r[i] in r;
      assert r[j] in multiset(t);
      var q :| 0 <= q < |t| && t[q] == r[j];
      assert t[q].ordering in Orders(t, t[q].position);
    }
  }

  // ------------------------------------------------------------------
  // The whole reconciliation
  // ------------------------------------------------------------------

  /** What `fetch_example_full` adds to the example row. */
  datatype Reconciled = Reconciled(
    morphemes: seq<UrBlock>,
    slotted: Buckets,
    prmpAllomorphs: seq<Card>,
    taAllomorphs: seq<Card>)

  /** Lines 283-400, after the queries. */
  function FetchExampleFull(rows: seq<SlotRow>, prmp: seq<LegacyPrmp>, ta: seq<LegacyTa>): (r: Reconciled)
    ensures "B" !in r.slotted
    ensures forall s :: s in r.slotted ==> |r.slotted[s]| > 0 && Ordering.SortedBy(r.slotted[s], CardOrder)
    ensures Ordering.SortedBy(r.morphemes, UrOrder) && Dedup.UniqueKeys(r.morphemes, UrKey)
    ensures r.prmpAllomorphs == Bucket(r.slotted, "100") && r.taAllomorphs == Bucket(r.slotted, "TA")
  {
    var slotted := CardBuckets(rows, prmp, ta);
    BucketsNonEmpty(rows, prmp, ta);
    Reconciled(Morphemes(rows, prmp, ta), slotted, Bucket(slotted, "100"), Bucket(slotted, "TA"))
  }

  /** A bucket exists only once a card went into it. */
  lemma BucketsNonEmpty(rows: seq<SlotRow>, prmp: seq<LegacyPrmp>, ta: seq<LegacyTa>)
    ensures "B" !in CardBuckets(rows, prmp, ta)
    ensures forall s :: s in CardBuckets(rows, prmp, ta) ==> |CardBuckets(rows, prmp, ta)[s]| > 0
  {
    CardSources(rows, prmp, ta, "B");
    forall s | s in CardBuckets(rows, prmp, ta)
      ensures |CardBuckets(rows, prmp, ta)[s]| > 0
    {
      BucketNonEmpty(rows, prmp, ta, s);
    }
  }

  lemma BucketNonEmpty(rows: seq<SlotRow>, prmp: seq<LegacyPrmp>, ta: seq<LegacyTa>, s: string)
    ensures s in CardBuckets(rows, prmp, ta) ==> |CardBuckets(rows, prmp, ta)[s]| > 0
  {
    if s in CardBuckets(rows, prmp, ta) {
      var u := UnsortedBuckets(rows, prmp, ta);
      var own := RowCardsFor(rows, s);
      CardSources(rows, prmp, ta, s);
      if |own| > 0 {
        DedupNonEmpty(own);
      } else if s == "100" {
        DedupNonEmpty(LegacyPrmpCards(prmp));
      } else {
        DedupNonEmpty(LegacyTaCards(ta));
      }
      assert |multiset(CardBuckets(rows, prmp, ta)[s])| == |multiset(u[s])|;
    }
  }

  lemma DedupNonEmpty(s: seq<Card>)
    requires |s| > 0
    ensures |Dedup.DedupBy(s, CardKey)| > 0
  {
    Dedup.DedupByFirstOccurrences(s, CardKey);
    assert Dedup.HasKey(s, CardKey, CardKey(s[0]));
  }
}
