/** The static template catalog of template_defs.py: 68 canonical slot
    sequences with ids 51..118, in file order. The order matters: matching
    takes the first entry whose sequence equals the submitted one, and some
    sequences occur once as transitive and once as intransitive.

    The catalog is written out as six families. A family is a skeleton of
    fixed and optional slots, and each entry of the family is the skeleton
    with some of its optional slots present. For example, entry 56
    (`Entry(56, TransitiveA, {P300, B})`) is the skeleton
    100-(300)-TA-ROOT-(400)-(B)-(500)-(600) with 300 and B present, that is
    100-300-TA-ROOT-B. Stating the invariants once per family keeps their
    proofs independent of the number of entries. */
module Catalog {
  import opened Wrappers
  import Text

  /** A morpheme slot of the Tamayame verb template. Prefix slots 100-300,
      the theme slot TA, the root, suffix slots 400-600 and the benefactive B. */
  datatype Slot = P100 | P200 | P300 | TA | ROOT | S400 | S500 | S600 | B

  /** The slot's name as it appears in slot sequences, stored data and forms. */
  function Name(s: Slot): string {
    match s
    case P100 => "100"
    case P200 => "200"
    case P300 => "300"
    case TA => "TA"
    case ROOT => "ROOT"
    case S400 => "400"
    case S500 => "500"
    case S600 => "600"
    case B => "B"
  }

  /** The slot a name stands for, if any. */
  function ParseSlot(name: string): (r: Option<Slot>)
    ensures r.Some? ==> Name(r.value) == name
    ensures r.None? ==> forall s: Slot :: Name(s) != name
  {
    if name == "100" then Some(P100)
    else if name == "200" then Some(P200)
    else if name == "300" then Some(P300)
    else if name == "TA" then Some(TA)
    else if name == "ROOT" then Some(ROOT)
    else if name == "400" then Some(S400)
    else if name == "500" then Some(S500)
    else if name == "600" then Some(S600)
    else if name == "B" then Some(B)
    else None
  }

  /** Distinct slots have distinct names. */
  lemma NameInjective(a: Slot, b: Slot)
    ensures Name(a) == Name(b) ==> a == b
  {
    assert ParseSlot(Name(a)) == Some(a);
  }

  /** A slot sequence written out as names. */
  function Names(ss: seq<Slot>): (r: seq<string>)
    ensures |r| == |ss|
    ensures forall k :: 0 <= k < |ss| ==> r[k] == Name(ss[k])
  {
    seq(|ss|, k requires 0 <= k < |ss| => Name(ss[k]))
  }

  /** Two slot sequences read the same exactly when they are the same. */
  lemma NamesInjective(a: seq<Slot>, b: seq<Slot>)
    ensures Names(a) == Names(b) <==> a == b
  {
    if Names(a) == Names(b) {
      forall k | 0 <= k < |a|
        ensures a[k] == b[k]
      {
        NameInjective(a[k], b[k]);
      }
    }
  }

  datatype Transitivity = Transitive | Intransitive {
    /** The value as stored: "transitive" or "intransitive". */
    function Name(): string {
      match this
      case Transitive => "transitive"
      case Intransitive => "intransitive"
    }
  }

  // ------------------------------------------------------------------
  // Families and skeletons
  // ------------------------------------------------------------------

  /** A skeleton position: a slot every entry of the family has, or one
      that only some entries have. */
  datatype Part = Fixed(slot: Slot) | Optional(slot: Slot)

  /** The families of the catalog, in file order. */
  datatype Family = TransitiveA | TransitiveB | IntransitiveA1 | IntransitiveA2 | IntransitiveB1 | IntransitiveB2 {

    /** The prefix of every entry name of the family. */
    function Label(): string {
      match this
      case TransitiveA => "Transitive Verb A"
      case TransitiveB => "Transitive Verb B"
      case IntransitiveA1 => "Intransitive Verb A1"
      case IntransitiveA2 => "Intransitive Verb A2"
      case IntransitiveB1 => "Intransitive Verb B1"
      case IntransitiveB2 => "Intransitive Verb B2"
    }

    function Valency(): Transitivity {
      if this == TransitiveA || this == TransitiveB then Transitive else Intransitive
    }

    function Skeleton(): seq<Part> {
      match this
      case TransitiveA =>
        [Fixed(P100), Optional(P300), Fixed(TA), Fixed(ROOT), Optional(S400), Optional(B), Optional(S500), Optional(S600)]
      case TransitiveB =>
        [Fixed(P200), Optional(P300), Fixed(TA), Fixed(ROOT), Optional(S400), Optional(B), Optional(S500)]
      case IntransitiveA1 =>
        [Fixed(P100), Fixed(TA), Fixed(ROOT), Optional(S400), Optional(S500), Optional(S600)]
      case IntransitiveA2 =>
        [Fixed(P200), Fixed(TA), Fixed(ROOT), Optional(S400), Optional(S500)]
      case IntransitiveB1 =>
        [Fixed(ROOT), Optional(S400), Fixed(P100), Fixed(TA), Optional(S600)]
      case IntransitiveB2 =>
        [Fixed(ROOT), Optional(S400), Optional(P200), Fixed(TA)]
    }
  }

  predicate Kept(p: Part, chosen: set<Slot>) {
    p.Fixed? || p.slot in chosen
  }

  /** The skeleton's slots, in order, keeping every fixed slot and the
      optional slots listed in `chosen`. */
  function Layout(parts: seq<Part>, chosen: set<Slot>): (r: seq<Slot>)
    ensures |r| <= |parts|
  {
    if |parts| == 0 then []
    else (if Kept(parts[0], chosen) then [parts[0].slot] else []) + Layout(parts[1..], chosen)
  }

  /** How many times `s` holds `x`. */
  function Occurrences(s: seq<Slot>, x: Slot): (n: nat)
    ensures n <= |s|
    ensures n == 0 <==> x !in s
  {
    if |s| == 0 then 0
    else
      assert s == [s[0]] + s[1..];
      (if s[0] == x then 1 else 0) + Occurrences(s[1..], x)
  }

  /** `a` is immediately followed by `b` somewhere in `s`. */
  predicate Adjacent(s: seq<Slot>, a: Slot, b: Slot)
    decreases |s|
  {
    |s| >= 2 && ((s[0] == a && s[1] == b) || Adjacent(s[1..], a, b))
  }

  ghost predicate DistinctSlots(parts: seq<Part>) {
    forall m, n :: 0 <= m < n < |parts| ==> parts[m].slot != parts[n].slot
  }

  /** A slot that sits at exactly one skeleton position occurs once in the
      layout if that position is kept, and not at all otherwise. */
  lemma {:induction false} LayoutOccurrences(parts: seq<Part>, chosen: set<Slot>, k: nat)
    requires DistinctSlots(parts)
    requires k < |parts|
    ensures Occurrences(Layout(parts, chosen), parts[k].slot) == if Kept(parts[k], chosen) then 1 else 0
    decreases |parts|
  {
    var x := parts[k].slot;
    var rest := Layout(parts[1..], chosen);
    var head: seq<Slot> := if Kept(parts[0], chosen) then [parts[0].slot] else [];
    OccurrencesAppend(head, rest, x);
    if k == 0 {
      LayoutAbsent(parts[1..], chosen, x);
    } else {
      LayoutOccurrences(parts[1..], chosen, k - 1);
    }
  }

  /** A slot at no skeleton position is not in the layout. */
  lemma {:induction false} LayoutAbsent(parts: seq<Part>, chosen: set<Slot>, x: Slot)
    requires forall m :: 0 <= m < |parts| ==> parts[m].slot != x
    ensures x !in Layout(parts, chosen)
    decreases |parts|
  {
    if |parts| > 0 {
      LayoutAbsent(parts[1..], chosen, x);
    }
  }

  lemma {:induction false} OccurrencesAppend(a: seq<Slot>, b: seq<Slot>, x: Slot)
    ensures Occurrences(a + b, x) == Occurrences(a, x) + Occurrences(b, x)
    decreases |a|
  {
    if |a| > 0 {
      assert (a + b)[1..] == a[1..] + b;
      OccurrencesAppend(a[1..], b, x);
    } else {
      assert a + b == b;
    }
  }

  /** Two fixed slots next to each other in the skeleton are next to each
      other in every layout. */
  lemma {:induction false} LayoutAdjacent(parts: seq<Part>, chosen: set<Slot>, k: nat)
    requires k + 1 < |parts| && parts[k].Fixed? && parts[k + 1].Fixed?
    ensures Adjacent(Layout(parts, chosen), parts[k].slot, parts[k + 1].slot)
    decreases |parts|
  {
    var r := Layout(parts, chosen);
    if k == 0 {
      assert r[0] == parts[0].slot;
      assert r[1..] == Layout(parts[1..], chosen);
    } else {
      LayoutAdjacent(parts[1..], chosen, k - 1);
      if Kept(parts[0], chosen) {
        assert r == [parts[0].slot] + Layout(parts[1..], chosen);
        assert r[1..] == Layout(parts[1..], chosen);
      } else {
        assert r == Layout(parts[1..], chosen);
      }
    }
  }

  /** A fixed first skeleton position gives the first slot of every layout. */
  lemma LayoutFirst(parts: seq<Part>, chosen: set<Slot>)
    requires |parts| > 0 && parts[0].Fixed?
    ensures |Layout(parts, chosen)| > 0 && Layout(parts, chosen)[0] == parts[0].slot
  {
  }

  /** The layout shows which optional slots were chosen: two layouts of one
      skeleton agree only if they agree on every optional position. */
  lemma LayoutDeterminesChoice(parts: seq<Part>, a: set<Slot>, b: set<Slot>, x: Slot)
    requires DistinctSlots(parts)
    requires Optional(x) in parts
    requires Layout(parts, a) == Layout(parts, b)
    ensures x in a <==> x in b
  {
    var k :| 0 <= k < |parts| && parts[k] == Optional(x);
    LayoutOccurrences(parts, a, k);
    LayoutOccurrences(parts, b, k);
  }

  // ------------------------------------------------------------------
  // Entries
  // ------------------------------------------------------------------

  /** One catalog entry: `template_id`, `name`, `slot_order`, `type` and
      `transitivity`. Every entry's `type` is "verb". */
  datatype Template = Template(id: int, name: string, slots: seq<Slot>, transitivity: Transitivity) {
    function Kind(): string {
      "verb"
    }

    /** `slot_order` as the catalog stores it. */
    function SlotOrder(): seq<string> {
      Names(slots)
    }
  }

  /** A row of the catalog: its id, its family and the optional slots it has. */
  datatype Entry = Entry(id: int, family: Family, chosen: set<Slot>)

  /** The family of the entry at position `i`: 32 entries of transitive A,
      16 of transitive B, then 8, 4, 4 and 4 of the intransitive families. */
  function FamilyOf(i: nat): Family
    requires i < 68
  {
    if i < 32 then TransitiveA
    else if i < 48 then TransitiveB
    else if i < 56 then IntransitiveA1
    else if i < 60 then IntransitiveA2
    else if i < 64 then IntransitiveB1
    else IntransitiveB2
  }

  function Bit(b: bool): nat {
    if b then 1 else 0
  }

  /** Which optional slots of its family an entry has, as a number with one
      bit per optional slot of the family. Entries of one family have
      different codes. */
  function Code(f: Family, chosen: set<Slot>): nat {
    match f
    case TransitiveA =>
      Bit(P300 in chosen) + 2 * Bit(S400 in chosen) + 4 * Bit(B in chosen) + 8 * Bit(S500 in chosen) + 16 * Bit(S600 in chosen)
    case TransitiveB =>
      Bit(P300 in chosen) + 2 * Bit(S400 in chosen) + 4 * Bit(B in chosen) + 8 * Bit(S500 in chosen)
    case IntransitiveA1 =>
      Bit(S400 in chosen) + 2 * Bit(S500 in chosen) + 4 * Bit(S600 in chosen)
    case IntransitiveA2 =>
      Bit(S400 in chosen) + 2 * Bit(S500 in chosen)
    case IntransitiveB1 =>
      Bit(S400 in chosen) + 2 * Bit(S600 in chosen)
    case IntransitiveB2 =>
      Bit(S400 in chosen) + 2 * Bit(P200 in chosen)
  }

  predicate EntryOk(e: Entry, i: nat)
    requires i < 68
  {
    e.id == 51 + i && e.family == FamilyOf(i) && PositionOf(e.family, Code(e.family, e.chosen)) == i
  }

  /** The entry at position `i` of the catalog (template_defs.py:4-884). */
  function At(i: nat): (t: Template)
    requires i < 68
    ensures t.id == 51 + i
    ensures t.transitivity == Transitive <==> i < 48
  {
    var e := EntryAt(i);
    var slots := Layout(e.family.Skeleton(), e.chosen);
    Template(e.id, e.family.Label() + ": " + Text.Join("-", Names(slots)), slots, e.family.Valency())
  }

  function EntryAt(i: nat): (e: Entry)
    requires i < 68
    ensures EntryOk(e, i)
  {
    if i < 8 then Entries0(i)
    else if i < 16 then Entries8(i)
    else if i < 24 then Entries16(i)
    else if i < 32 then Entries24(i)
    else if i < 40 then Entries32(i)
    else if i < 48 then Entries40(i)
    else if i < 56 then Entries48(i)
    else Entries56(i)
  }

  function Entries0(i: nat): (r: Entry)
    requires 0 <= i < 8
    ensures EntryOk(r, i)
  {
    match i
    case 0 => Entry(51, TransitiveA, {})
    case 1 => Entry(52, TransitiveA, {P300})
    case 2 => Entry(53, TransitiveA, {S400})
    case 3 => Entry(54, TransitiveA, {P300, S400})
    case 4 => Entry(55, TransitiveA, {B})
    case 5 => Entry(56, TransitiveA, {P300, B})
    case 6 => Entry(57, TransitiveA, {S500})
    case _ => Entry(58, TransitiveA, {P300, S500})
  }

  function Entries8(i: nat): (r: Entry)
    requires 8 <= i < 16
    ensures EntryOk(r, i)
  {
    match i
    case 8 => Entry(59, TransitiveA, {S600})
    case 9 => Entry(60, TransitiveA, {P300, S600})
    case 10 => Entry(61, TransitiveA, {S400, B})
    case 11 => Entry(62, TransitiveA, {P300, S400, B})
    case 12 => Entry(63, TransitiveA, {S400, S500})
    case 13 => Entry(64, TransitiveA, {P300, S400, S500})
    case 14 => Entry(65, TransitiveA, {S400, S600})
    case _ => Entry(66, TransitiveA, {P300, S400, S600})
  }

  function Entries16(i: nat): (r: Entry)
    requires 16 <= i < 24
    ensures EntryOk(r, i)
  {
    match i
    case 16 => Entry(67, TransitiveA, {B, S500})
    case 17 => Entry(68, TransitiveA, {P300, B, S500})
    case 18 => Entry(69, TransitiveA, {B, S600})
    case 19 => Entry(70, TransitiveA, {P300, B, S600})
    case 20 => Entry(71, TransitiveA, {S500, S600})
    case 21 => Entry(72, TransitiveA, {P300, S500, S600})
    case 22 => Entry(73, TransitiveA, {S400, B, S500})
    case _ => Entry(74, TransitiveA, {P300, S400, B, S500})
  }

  function Entries24(i: nat): (r: Entry)
    requires 24 <= i < 32
    ensures EntryOk(r, i)
  {
    match i
    case 24 => Entry(75, TransitiveA, {S400, B, S600})
    case 25 => Entry(76, TransitiveA, {P300, S400, B, S600})
    case 26 => Entry(77, TransitiveA, {S400, S500, S600})
    case 27 => Entry(78, TransitiveA, {P300, S400, S500, S600})
    case 28 => Entry(79, TransitiveA, {B, S500, S600})
    case 29 => Entry(80, TransitiveA, {P300, B, S500, S600})
    case 30 => Entry(81, TransitiveA, {S400, B, S500, S600})
    case _ => Entry(82, TransitiveA, {P300, S400, B, S500, S600})
  }

  function Entries32(i: nat): (r: Entry)
    requires 32 <= i < 40
    ensures EntryOk(r, i)
  {
    match i
    case 32 => Entry(83, TransitiveB, {})
    case 33 => Entry(84, TransitiveB, {P300})
    case 34 => Entry(85, TransitiveB, {S400})
    case 35 => Entry(86, TransitiveB, {P300, S400})
    case 36 => Entry(87, TransitiveB, {B})
    case 37 => Entry(88, TransitiveB, {P300, B})
    case 38 => Entry(89, TransitiveB, {S500})
    case _ => Entry(90, TransitiveB, {P300, S500})
  }

  function Entries40(i: nat): (r: Entry)
    requires 40 <= i < 48
    ensures EntryOk(r, i)
  {
    match i
    case 40 => Entry(91, TransitiveB, {S400, B})
    case 41 => Entry(92, TransitiveB, {P300, S400, B})
    case 42 => Entry(93, TransitiveB, {S400, S500})
    case 43 => Entry(94, TransitiveB, {P300, S400, S500})
    case 44 => Entry(95, TransitiveB, {B, S500})
    case 45 => Entry(96, TransitiveB, {P300, B, S500})
    case 46 => Entry(97, TransitiveB, {S400, B, S500})
    case _ => Entry(98, TransitiveB, {P300, S400, B, S500})
  }

  function Entries48(i: nat): (r: Entry)
    requires 48 <= i < 56
    ensures EntryOk(r, i)
  {
    match i
    case 48 => Entry(99, IntransitiveA1, {})
    case 49 => Entry(100, IntransitiveA1, {S400})
    case 50 => Entry(101, IntransitiveA1, {S500})
    case 51 => Entry(102, IntransitiveA1, {S600})
    case 52 => Entry(103, IntransitiveA1, {S400, S500})
    case 53 => Entry(104, IntransitiveA1, {S400, S600})
    case 54 => Entry(105, IntransitiveA1, {S500, S600})
    case _ => Entry(106, IntransitiveA1, {S400, S500, S600})
  }

  function Entries56(i: nat): (r: Entry)
    requires 56 <= i < 68
    ensures EntryOk(r, i)
  {
    match i
    case 56 => Entry(107, IntransitiveA2, {})
    case 57 => Entry(108, IntransitiveA2, {S400})
    case 58 => Entry(109, IntransitiveA2, {S500})
    case 59 => Entry(110, IntransitiveA2, {S400, S500})
    case 60 => Entry(111, IntransitiveB1, {})
    case 61 => Entry(112, IntransitiveB1, {S400})
    case 62 => Entry(113, IntransitiveB1, {S600})
    case 63 => Entry(114, IntransitiveB1, {S400, S600})
    case 64 => Entry(115, IntransitiveB2, {})
    case 65 => Entry(116, IntransitiveB2, {S400})
    case 66 => Entry(117, IntransitiveB2, {P200})
    case _ => Entry(118, IntransitiveB2, {S400, P200})
  }

  function PositionOf(f: Family, code: nat): int {
    match f
    case TransitiveA => (
      match code
      case 0 => 0
      case 1 => 1
      case 2 => 2
      case 3 => 3
      case 4 => 4
      case 5 => 5
      case 6 => 10
      case 7 => 11
      case 8 => 6
      case 9 => 7
      case 10 => 12
      case 11 => 13
      case 12 => 16
      case 13 => 17
      case 14 => 22
      case 15 => 23
      case 16 => 8
      case 17 => 9
      case 18 => 14
      case 19 => 15
      case 20 => 18
      case 21 => 19
      case 22 => 24
      case 23 => 25
      case 24 => 20
      case 25 => 21
      case 26 => 26
      case 27 => 27
      case 28 => 28
      case 29 => 29
      case 30 => 30
      case 31 => 31
      case _ => -1)
    case TransitiveB => (
      match code
      case 0 => 32
      case 1 => 33
      case 2 => 34
      case 3 => 35
      case 4 => 36
      case 5 => 37
      case 6 => 40
      case 7 => 41
      case 8 => 38
      case 9 => 39
      case 10 => 42
      case 11 => 43
      case 12 => 44
      case 13 => 45
      case 14 => 46
      case 15 => 47
      case _ => -1)
    case IntransitiveA1 => (
      match code
      case 0 => 48
      case 1 => 49
      case 2 => 50
      case 3 => 52
      case 4 => 51
      case 5 => 53
      case 6 => 54
      case 7 => 55
      case _ => -1)
    case IntransitiveA2 => (
      match code
      case 0 => 56
      case 1 => 57
      case 2 => 58
      case 3 => 59
      case _ => -1)
    case IntransitiveB1 => (
      match code
      case 0 => 60
      case 1 => 61
      case 2 => 62
      case 3 => 63
      case _ => -1)
    case IntransitiveB2 => (
      match code
      case 0 => 64
      case 1 => 65
      case 2 => 66
      case 3 => 67
      case _ => -1)
  }

  /** `TEMPLATES`, in file order. */
  function Templates(): (ts: seq<Template>)
    ensures |ts| == 68
    ensures forall i :: 0 <= i < 68 ==> ts[i] == At(i)
  {
    seq(68, i requires 0 <= i < 68 => At(i))
  }

  /** The first entry with the given id, as in `next(t for t in TEMPLATES if
      t["template_id"] == id)`. */
  function FindById(id: int): (r: Option<Template>)
    ensures r.Some? ==> r.value in Templates() && r.value.id == id
    ensures r.None? ==> forall i :: 0 <= i < |Templates()| ==> Templates()[i].id != id
  {
    FindIn(Templates(), id)
  }

  function FindIn(ts: seq<Template>, id: int): (r: Option<Template>)
    ensures r.Some? ==> r.value in ts && r.value.id == id
    ensures r.None? ==> forall i :: 0 <= i < |ts| ==> ts[i].id != id
  {
    if |ts| == 0 then None
    else if ts[0].id == id then Some(ts[0])
    else FindIn(ts[1..], id)
  }

  // ------------------------------------------------------------------
  // Static invariants of the catalog
  // ------------------------------------------------------------------

  /** TA and ROOT occur exactly once; TA is immediately followed by ROOT
      unless ROOT comes first, and a ROOT-first sequence is intransitive;
      B occurs only in transitive sequences. */
  predicate SlotsWellFormed(slots: seq<Slot>, transitivity: Transitivity) {
    && Occurrences(slots, TA) == 1
    && Occurrences(slots, ROOT) == 1
    && (Adjacent(slots, TA, ROOT) || (|slots| > 0 && slots[0] == ROOT))
    && (|slots| > 0 && slots[0] == ROOT ==> transitivity == Intransitive)
    && (B in slots ==> transitivity == Transitive)
  }

  /** What the entry at position `i` satisfies: its id is 51 plus its
      position, its sequence is well formed, and the first 48 entries are
      the transitive ones. */
  predicate WellFormed(t: Template, i: nat) {
    && t.id == 51 + i
    && SlotsWellFormed(t.slots, t.transitivity)
    && (t.transitivity == Transitive <==> i < 48)
  }

  /** No slot sits at two positions of a skeleton. */
  lemma SkeletonDistinct(f: Family)
    ensures DistinctSlots(f.Skeleton())
  {
    if f.Valency() == Transitive {
      TransitiveDistinct(f);
    } else {
      IntransitiveDistinct(f);
    }
  }

  lemma TransitiveDistinct(f: Family)
    requires f.Valency() == Transitive
    ensures DistinctSlots(f.Skeleton())
  {
  }

  lemma IntransitiveDistinct(f: Family)
    requires f.Valency() == Intransitive
    ensures DistinctSlots(f.Skeleton())
  {
  }

  /** Every sequence a family produces is well formed, whichever optional
      slots are present. */
  lemma FamilyWellFormed(f: Family, chosen: set<Slot>)
    ensures SlotsWellFormed(Layout(f.Skeleton(), chosen), f.Valency())
  {
    match f
    case TransitiveA => TransitiveWellFormed(f, chosen);
    case TransitiveB => TransitiveWellFormed(f, chosen);
    case IntransitiveA1 => IntransitiveAWellFormed(f, chosen);
    case IntransitiveA2 => IntransitiveAWellFormed(f, chosen);
    case IntransitiveB1 => IntransitiveBWellFormed(f, chosen);
    case IntransitiveB2 => IntransitiveBWellFormed(f, chosen);
  }

  /** Transitive skeletons: a prefix slot, optionally 300, then TA and ROOT. */
  lemma TransitiveWellFormed(f: Family, chosen: set<Slot>)
    requires f == TransitiveA || f == TransitiveB
    ensures SlotsWellFormed(Layout(f.Skeleton(), chosen), f.Valency())
  {
    var sk := f.Skeleton();
    SkeletonDistinct(f);
    LayoutFirst(sk, chosen);
    LayoutOccurrences(sk, chosen, 2);
    LayoutOccurrences(sk, chosen, 3);
    LayoutAdjacent(sk, chosen, 2);
  }

  /** Intransitive A skeletons: a prefix slot, then TA and ROOT, no B. */
  lemma IntransitiveAWellFormed(f: Family, chosen: set<Slot>)
    requires f == IntransitiveA1 || f == IntransitiveA2
    ensures SlotsWellFormed(Layout(f.Skeleton(), chosen), f.Valency())
  {
    var sk := f.Skeleton();
    SkeletonDistinct(f);
    LayoutFirst(sk, chosen);
    LayoutOccurrences(sk, chosen, 1);
    LayoutOccurrences(sk, chosen, 2);
    LayoutAdjacent(sk, chosen, 1);
    LayoutAbsent(sk, chosen, B);
  }

  /** Intransitive B skeletons: ROOT first, TA last, no B. */
  lemma IntransitiveBWellFormed(f: Family, chosen: set<Slot>)
    requires f == IntransitiveB1 || f == IntransitiveB2
    ensures SlotsWellFormed(Layout(f.Skeleton(), chosen), f.Valency())
  {
    var sk := f.Skeleton();
    SkeletonDistinct(f);
    LayoutFirst(sk, chosen);
    LayoutOccurrences(sk, chosen, 0);
    LayoutOccurrences(sk, chosen, 3);
    LayoutAbsent(sk, chosen, B);
  }

  /** Every catalog entry is well formed (template_defs.py:4-884). */
  lemma CatalogWellFormed(i: nat)
    requires i < 68
    ensures WellFormed(At(i), i)
  {
    var e := EntryAt(i);
    FamilyWellFormed(e.family, e.chosen);
  }

  /** Ids are strictly increasing, so no two entries share an id, and the
      entry with id `n` sits at position `n - 51`. */
  lemma FindByIdPosition(id: int)
    ensures 51 <= id <= 118 ==> FindById(id) == Some(At(id - 51))
    ensures !(51 <= id <= 118) ==> FindById(id) == None
  {
    FindInIncreasing(Templates(), id);
  }

  lemma {:induction false} FindInIncreasing(ts: seq<Template>, id: int)
    requires forall i :: 0 <= i < |ts| ==> ts[i].id == ts[0].id + i
    ensures ts != [] && ts[0].id <= id < ts[0].id + |ts| ==> FindIn(ts, id) == Some(ts[id - ts[0].id])
    ensures !(ts != [] && ts[0].id <= id < ts[0].id + |ts|) ==> FindIn(ts, id) == None
    decreases |ts|
  {
    if |ts| > 1 {
      FindInIncreasing(ts[1..], id);
    }
  }

  /** Equal layouts of one family have equal codes. */
  lemma SameLayoutSameCode(f: Family, a: set<Slot>, b: set<Slot>)
    ensures Layout(f.Skeleton(), a) == Layout(f.Skeleton(), b) ==> Code(f, a) == Code(f, b)
  {
    var sk := f.Skeleton();
    if Layout(sk, a) == Layout(sk, b) {
      SkeletonDistinct(f);
      forall x | Optional(x) in sk
        ensures x in a <==> x in b
      {
        LayoutDeterminesChoice(sk, a, b, x);
      }
    }
  }

  /** The slot every sequence of the family starts with. */
  function Head(f: Family): (s: Slot)
    ensures |f.Skeleton()| > 0 && f.Skeleton()[0] == Fixed(s)
  {
    match f
    case TransitiveA => P100
    case TransitiveB => P200
    case IntransitiveA1 => P100
    case IntransitiveA2 => P200
    case IntransitiveB1 => ROOT
    case IntransitiveB2 => ROOT
  }

  /** Two families of the same transitivity never produce the same
      sequence: the first slot tells transitive A from B, A1 from A2, and
      both from B1 and B2; only B1 has a 100 slot. */
  lemma FamiliesApart(f: Family, g: Family, a: set<Slot>, b: set<Slot>)
    requires f != g && f.Valency() == g.Valency()
    ensures Layout(f.Skeleton(), a) != Layout(g.Skeleton(), b)
  {
    var _, _ := Head(f), Head(g);
    LayoutFirst(f.Skeleton(), a);
    LayoutFirst(g.Skeleton(), b);
    if Head(f) == Head(g) {
      assert {f, g} == {IntransitiveB1, IntransitiveB2};
      var (a1, b2) := if f == IntransitiveB1 then (a, b) else (b, a);
      ApartB(a1, b2);
    }
  }

  lemma ApartB(a: set<Slot>, b: set<Slot>)
    ensures P100 in Layout(IntransitiveB1.Skeleton(), a)
    ensures P100 !in Layout(IntransitiveB2.Skeleton(), b)
  {
    SkeletonDistinct(IntransitiveB1);
    LayoutOccurrences(IntransitiveB1.Skeleton(), a, 2);
    LayoutAbsent(IntransitiveB2.Skeleton(), b, P100);
  }

  /** Within one transitivity no two entries share a slot sequence, so the
      first match for a sequence is the only one of its transitivity. */
  lemma SlotsUniqueWithinTransitivity(i: nat, j: nat)
    requires i < j < 68
    requires i < 48 <==> j < 48
    ensures At(i).transitivity == At(j).transitivity
    ensures At(i).slots != At(j).slots
  {
    var ei, ej := EntryAt(i), EntryAt(j);
    if ei.family == ej.family {
      SameLayoutSameCode(ei.family, ei.chosen, ej.chosen);
    } else {
      FamiliesApart(ei.family, ej.family, ei.chosen, ej.chosen);
    }
  }

  /** The fixed slots alone, for the four families that share them. */
  lemma BareTransitiveA()
    ensures Layout(TransitiveA.Skeleton(), {}) == [P100, TA, ROOT]
  {
  }

  lemma BareIntransitiveA1()
    ensures Layout(IntransitiveA1.Skeleton(), {}) == [P100, TA, ROOT]
  {
  }

  lemma BareTransitiveB()
    ensures Layout(TransitiveB.Skeleton(), {}) == [P200, TA, ROOT]
  {
  }

  lemma BareIntransitiveA2()
    ensures Layout(IntransitiveA2.Skeleton(), {}) == [P200, TA, ROOT]
  {
  }

  /** Across transitivities sequences repeat: 51 and 99 share 100-TA-ROOT,
      83 and 107 share 200-TA-ROOT. */
  lemma SlotsRepeatAcrossTransitivity()
    ensures At(0).id == 51 && At(48).id == 99
    ensures At(0).slots == At(48).slots == [P100, TA, ROOT]
    ensures At(0).transitivity != At(48).transitivity
    ensures At(32).id == 83 && At(56).id == 107
    ensures At(32).slots == At(56).slots == [P200, TA, ROOT]
    ensures At(32).transitivity != At(56).transitivity
  {
    BareTransitiveA();
    BareIntransitiveA1();
    BareTransitiveB();
    BareIntransitiveA2();
    assert EntryAt(0) == Entry(51, TransitiveA, {});
    assert EntryAt(48) == Entry(99, IntransitiveA1, {});
    assert EntryAt(32) == Entry(83, TransitiveB, {});
    assert EntryAt(56) == Entry(107, IntransitiveA2, {});
  }

  /** Every catalog sequence names a TA slot. */
  lemma EveryEntryHasTa(i: nat)
    requires i < 68
    ensures "TA" in At(i).SlotOrder()
  {
    CatalogWellFormed(i);
    TaNamed(At(i));
  }

  lemma TaNamed(t: Template)
    requires Occurrences(t.slots, TA) == 1
    ensures "TA" in t.SlotOrder()
  {
    var k :| 0 <= k < |t.slots| && t.slots[k] == TA;
    assert t.SlotOrder()[k] == "TA";
  }

  /** The first entry, 51, is the transitive 100-TA-ROOT. */
  lemma FirstEntry()
    ensures At(0).SlotOrder() == ["100", "TA", "ROOT"]
    ensures At(0).transitivity == Transitive
  {
    BareTransitiveA();
    assert EntryAt(0) == Entry(51, TransitiveA, {});
    assert Names([P100, TA, ROOT]) == ["100", "TA", "ROOT"];
  }
}
