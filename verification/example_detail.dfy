/** The re-tiling the `example_detail` route of app.py (lines 1759-1796)
    applies to what `fetch_example_full` returns: the stem tiles are the
    slotted cards read in template slot order and deduplicated by
    (segment, gloss), and every slot's card list is deduplicated by
    (form, ur_gloss, davis_id), with empty lists dropped. */
module ExampleDetail {
  import opened Wrappers
  import Catalog
  import Dedup
  import opened Reconcile

  /** The slot order used when the example has no template. */
  const DefaultOrder: seq<string> := ["100", "200", "300", "TA", "ROOT", "400", "500", "600"]

  /** Lines 1760-1765: the linked template's `slot_order` when its id is
      truthy and in the catalog and the order is non-empty, else the default. */
  function SlotOrder(templateId: Option<int>): (r: seq<string>)
    ensures |r| > 0
  {
    var found := if templateId.Some? && templateId.value != 0 then Catalog.FindById(templateId.value) else None;
    if found.Some? && |found.value.SlotOrder()| > 0 then found.value.SlotOrder() else DefaultOrder
  }

  /** A catalog id gives that entry's slot order; anything else gives the
      default order. */
  lemma SlotOrderChoice(templateId: Option<int>)
    ensures templateId.Some? && 51 <= templateId.value <= 118 ==>
              SlotOrder(templateId) == Catalog.At(templateId.value - 51).SlotOrder()
    ensures templateId.None? || !(51 <= templateId.value <= 118) ==> SlotOrder(templateId) == DefaultOrder
  {
    if templateId.Some? {
      Catalog.FindByIdPosition(templateId.value);
      if 51 <= templateId.value <= 118 {
        Catalog.EveryEntryHasTa(templateId.value - 51);
      }
    }
  }

  // ------------------------------------------------------------------
  // Stem tiles
  // ------------------------------------------------------------------

  /** A stem tile: a card's form, gloss and ordering. */
  datatype Tile = Tile(segment: string, gloss: Option<string>, ordering: int)

  /** The tile `seen` key: (segment, gloss). */
  datatype TileId = TileId(segment: string, gloss: Option<string>)

  function TileKey(t: Tile): TileId {
    TileId(t.segment, t.gloss)
  }

  function TileOf(c: Card): Tile {
    Tile(c.form, c.urGloss, c.ordering)
  }

  function TilesOf(cards: seq<Card>): (r: seq<Tile>)
    ensures |r| == |cards|
    ensures forall i :: 0 <= i < |cards| ==> r[i] == TileOf(cards[i])
  {
    seq(|cards|, i requires 0 <= i < |cards| => TileOf(cards[i]))
  }

  /** `stem_urs`: the cards of every slot of the order, slot by slot. */
  function StemUrs(slotted: Buckets, order: seq<string>): seq<Tile> {
    if |order| == 0 then []
    else TilesOf(Bucket(slotted, order[0])) + StemUrs(slotted, order[1..])
  }

  /** A tile comes from some card filed under a slot of the order, and every
      such card gives one. */
  lemma {:induction false} StemUrsFrom(slotted: Buckets, order: seq<string>, t: Tile)
    ensures t in StemUrs(slotted, order) <==>
              exists j, c :: 0 <= j < |order| && c in Bucket(slotted, order[j]) && t == TileOf(c)
  {
    if |order| > 0 {
      StemUrsFrom(slotted, order[1..], t);
      var here := TilesOf(Bucket(slotted, order[0]));
      if t in here {
        var i :| 0 <= i < |here| && here[i] == t;
        assert Bucket(slotted, order[0])[i] in Bucket(slotted, order[0]);
      }
      if exists j, c :: 0 <= j < |order| && c in Bucket(slotted, order[j]) && t == TileOf(c) {
        var j, c :| 0 <= j < |order| && c in Bucket(slotted, order[j]) && t == TileOf(c);
        if j == 0 {
          var i :| 0 <= i < |Bucket(slotted, order[0])| && Bucket(slotted, order[0])[i] == c;
          assert here[i] == t;
        } else {
          assert order[1..][j - 1] == order[j];
        }
      }
    }
  }

  /** `morphemes`: the first tile of each (segment, gloss), in slot order. */
  function StemTiles(slotted: Buckets, order: seq<string>): (r: seq<Tile>)
    ensures Dedup.UniqueKeys(r, TileKey)
    ensures forall k :: Dedup.HasKey(r, TileKey, k) <==> Dedup.HasKey(StemUrs(slotted, order), TileKey, k)
    ensures forall i :: 0 <= i < |r| ==>
              var s := StemUrs(slotted, order);
              Dedup.HasKey(s, TileKey, TileKey(r[i])) && r[i] == s[Dedup.FirstIndex(s, TileKey, TileKey(r[i]))]
  {
    Dedup.DedupByFirstOccurrences(StemUrs(slotted, order), TileKey);
    Dedup.DedupBy(StemUrs(slotted, order), TileKey)
  }

  // ------------------------------------------------------------------
  // Card lists
  // ------------------------------------------------------------------

  /** Lines 1785-1794: every list deduplicated by (form, ur_gloss,
      davis_id), and the empty lists dropped. */
  function UniqueCards(slotted: Buckets): (r: Buckets)
    ensures forall k :: k in r <==> k in slotted && |slotted[k]| > 0
    ensures forall k :: k in r ==> Dedup.UniqueKeys(r[k], CardKey)
    ensures forall k, id :: k in r ==> (Dedup.HasKey(r[k], CardKey, id) <==> Dedup.HasKey(slotted[k], CardKey, id))
  {
    UniqueCardsFacts(slotted);
    map k | k in slotted && |slotted[k]| > 0 :: Dedup.DedupBy(slotted[k], CardKey)
  }

  lemma UniqueCardsFacts(slotted: Buckets)
    ensures forall k :: k in slotted && |slotted[k]| > 0 ==>
              && |Dedup.DedupBy(slotted[k], CardKey)| > 0
              && Dedup.UniqueKeys(Dedup.DedupBy(slotted[k], CardKey), CardKey)
              && forall id :: Dedup.HasKey(Dedup.DedupBy(slotted[k], CardKey), CardKey, id) <==> Dedup.HasKey(slotted[k], CardKey, id)
  {
    forall k | k in slotted && |slotted[k]| > 0
      ensures |Dedup.DedupBy(slotted[k], CardKey)| > 0
      ensures Dedup.UniqueKeys(Dedup.DedupBy(slotted[k], CardKey), CardKey)
      ensures forall id :: Dedup.HasKey(Dedup.DedupBy(slotted[k], CardKey), CardKey, id) <==> Dedup.HasKey(slotted[k], CardKey, id)
    {
      DedupNonEmpty(slotted[k]);
      Dedup.DedupByFirstOccurrences(slotted[k], CardKey);
    }
  }

  // ------------------------------------------------------------------
  // The route
  // ------------------------------------------------------------------

  datatype Detail = Detail(morphemes: seq<Tile>, slotted: Buckets)

  /** What the page shows for an example: tiles in the template's slot
      order and the deduplicated card lists. */
  function ExampleDetailOf(templateId: Option<int>, slotted: Buckets): (r: Detail)
    ensures templateId.None? ==> r.morphemes == StemTiles(slotted, DefaultOrder)
    ensures forall k :: k in r.slotted ==> |r.slotted[k]| > 0
  {
    Detail(StemTiles(slotted, SlotOrder(templateId)), UniqueCards(slotted))
  }

  /** Every card filed under a slot of the order shows up as a tile with its
      (segment, gloss), and every tile is such a card's. */
  lemma TilesCoverOrderedSlots(templateId: Option<int>, slotted: Buckets, t: TileId)
    ensures var r := ExampleDetailOf(templateId, slotted).morphemes;
            var order := SlotOrder(templateId);
            Dedup.HasKey(r, TileKey, t) <==>
              exists j, c :: 0 <= j < |order| && c in Bucket(slotted, order[j]) && TileKey(TileOf(c)) == t
  {
    var order := SlotOrder(templateId);
    var s := StemUrs(slotted, order);
    if Dedup.HasKey(s, TileKey, t) {
      var i :| 0 <= i < |s| && TileKey(s[i]) == t;
      StemUrsFrom(slotted, order, s[i]);
    }
    if exists j, c :: 0 <= j < |order| && c in Bucket(slotted, order[j]) && TileKey(TileOf(c)) == t {
      var j, c :| 0 <= j < |order| && c in Bucket(slotted, order[j]) && TileKey(TileOf(c)) == t;
      StemUrsFrom(slotted, order, TileOf(c));
      var i :| 0 <= i < |s| && s[i] == TileOf(c);
      assert TileKey(s[i]) == t;
    }
  }
}
