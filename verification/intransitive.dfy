/** db/intransitive.py: the class-letter normaliser, this file's own number
    normaliser, the choice of the primary-key column of
    `intransitive_classes`, and the per-number dictionary that
    `fetch_entry_intransitive_classes` builds from its query rows. */
module Intransitive {
  import opened Wrappers
  import opened Text

  /** `intransitive_class_letter`: None stays None; anything else is
      trimmed and upper-cased and kept only if it is "A" or "B". */
  function ClassLetter(raw: Option<string>): (r: Option<string>)
    ensures r.Some? ==> r.value == "A" || r.value == "B"
    ensures r.Some? <==> raw.Some? && Upper(Strip(raw.value)) in {"A", "B"}
    ensures r.Some? ==> r.value == Upper(Strip(raw.value))
  {
    match raw
    case None => None
    case Some(v) =>
      var s := Upper(Strip(v));
      if s == "A" || s == "B" then Some(s) else None
  }

  lemma ClassLetterIdempotent(raw: Option<string>)
    ensures ClassLetter(ClassLetter(raw)) == ClassLetter(raw)
  {
    var r := ClassLetter(raw);
    if r.Some? {
      StripNoEdgeSpace(r.value);
      assert Upper(r.value) == r.value;
    }
  }

  /** Lower-case, padded spellings are accepted; other letters are not. */
  lemma ClassLetterExamples()
    ensures ClassLetter(Some(" b ")) == Some("B")
    ensures ClassLetter(Some("C")) == None
    ensures ClassLetter(None) == None
  {
    assert Strip(" b ") == "b" by {
      assert SkipWhile(" b ", 0, IsSpace) == 1;
      assert |Strip(" b ")| == 1;
    }
    StripNoEdgeSpace("C");
  }

  /** The alias classes `_norm_number` recognises by prefix; "dual" starts
      with "du", so its own test in line 20 adds nothing. */
  predicate SgLike(c: string) {
    StartsWith(c, "sg") || StartsWith(c, "sing")
  }

  predicate DlLike(c: string) {
    StartsWith(c, "dl") || StartsWith(c, "du")
  }

  predicate PlLike(c: string) {
    StartsWith(c, "pl")
  }

  /** The prefix mapping of lines 18-24 on an already canonical text. */
  function MapNumberPrefix(s: string): (r: string)
    ensures NoEdgeSpace(s) && Lower(s) == s ==> NoEdgeSpace(r) && Lower(r) == r
  {
    if StartsWith(s, "sg") || StartsWith(s, "sing") then "sg"
    else if StartsWith(s, "dl") || StartsWith(s, "du") || StartsWith(s, "dual") then "dl"
    else if StartsWith(s, "pl") then "pl"
    else s
  }

  /** `_norm_number`: a falsy value becomes ""; otherwise the trimmed,
      lower-cased text is mapped by prefix to "sg", "dl" or "pl", and kept
      as it is when no prefix applies. The result is always trimmed and
      lower-case. */
  function NormNumber(val: Option<string>): (r: string)
    ensures !Truthy(val) ==> r == ""
    ensures NoEdgeSpace(r) && Lower(r) == r
  {
    if !Truthy(val) then "" else MapNumberPrefix(Canon(val.value))
  }

  /** The prefix classes decide the result, singular first, then dual,
      then plural; a text in none of them comes back unchanged. */
  lemma MapNumberPrefixAliases(c: string)
    ensures var r := MapNumberPrefix(c);
            && (r == "sg" <==> SgLike(c))
            && (r == "dl" <==> !SgLike(c) && DlLike(c))
            && (r == "pl" <==> !SgLike(c) && !DlLike(c) && PlLike(c))
            && (!SgLike(c) && !DlLike(c) && !PlLike(c) ==> r == c)
  {
    if c == "sg" { assert SgLike(c); }
    if c == "dl" { assert DlLike(c); }
    if c == "pl" { assert PlLike(c); }
  }

  /** For a truthy value, the alias classes of its trimmed, lower-cased
      text decide the result. */
  lemma NormNumberAliases(v: string)
    requires v != ""
    ensures var c, r := Canon(v), NormNumber(Some(v));
            && (r == "sg" <==> SgLike(c))
            && (r == "dl" <==> !SgLike(c) && DlLike(c))
            && (r == "pl" <==> !SgLike(c) && !DlLike(c) && PlLike(c))
            && (!SgLike(c) && !DlLike(c) && !PlLike(c) ==> r == c)
  {
    MapNumberPrefixAliases(Canon(v));
  }

  /** Normalising twice is normalising once: the three canonical spellings
      are fixed points, and every other result has no alias prefix. */
  lemma NormNumberIdempotent(val: Option<string>)
    ensures NormNumber(Some(NormNumber(val))) == NormNumber(val)
  {
    var r := NormNumber(val);
    if r != "" {
      CanonFixed(r);
      MapNumberPrefixAliases(r);
      if Truthy(val) {
        MapNumberPrefixAliases(Canon(val.value));
      }
    }
  }

  /** Capitalised spellings map to the short forms. */
  lemma NormNumberSingWord()
    ensures NormNumber(Some("Sing")) == "sg"
  {
    StripNoEdgeSpace("Sing");
    assert Lower("Sing") == "sing";
    assert StartsWith("sing", "sing");
  }

  lemma NormNumberDualWord()
    ensures NormNumber(Some("DUAL")) == "dl"
  {
    CanonDual();
    MapDual();
  }

  lemma CanonDual()
    ensures Canon("DUAL") == "dual"
  {
    StripNoEdgeSpace("DUAL");
    assert Strip("DUAL") == "DUAL";
    assert Lower("DUAL") == "dual";
  }

  lemma MapDual()
    ensures MapNumberPrefix("dual") == "dl"
  {
    assert "dual"[..2] != "sg" && "dual"[..4] != "sing";
    assert StartsWith("dual", "du");
  }

  /** A bare "s" or "p" is not a prefix of any alias and stays as it is. */
  lemma NormNumberBareLetters()
    ensures NormNumber(Some("s")) == "s"
    ensures NormNumber(Some("p")) == "p"
  {
    CanonFixed("s");
    CanonFixed("p");
  }

  // ------------------------------------------------------------------
  // Primary-key column
  // ------------------------------------------------------------------

  /** The candidate primary-key names, in the order they are tried. */
  function PkCandidates(): seq<string> {
    ["id", "class_id", "intransitive_class_id"]
  }

  /** The first candidate present in `cols`, or None. */
  function FirstPresent(cands: seq<string>, cols: set<string>): (r: Option<nat>)
    ensures r.Some? ==> r.value < |cands| && cands[r.value] in cols
                        && forall j :: 0 <= j < r.value ==> cands[j] !in cols
    ensures r.None? ==> forall j :: 0 <= j < |cands| ==> cands[j] !in cols
  {
    if |cands| == 0 then None
    else if cands[0] in cols then Some(0)
    else
      match FirstPresent(cands[1..], cols)
      case None => None
      case Some(i) => Some(i + 1)
  }

  /** Lines 49-56: the primary key is the first of `id`, `class_id`,
      `intransitive_class_id` that the table has; with none of them the
      function raises. */
  function PkColumn(cols: set<string>): (r: Result<string>)
    ensures r.Success? ==> r.value in cols && r.value in PkCandidates()
    ensures r.Success? ==> forall j :: 0 <= j < |PkCandidates()| && PkCandidates()[j] == r.value ==>
                             forall i :: 0 <= i < j ==> PkCandidates()[i] !in cols
    ensures r.Failure? <==> "id" !in cols && "class_id" !in cols && "intransitive_class_id" !in cols
  {
    var cands := PkCandidates();
    assert cands[0] == "id" && cands[1] == "class_id" && cands[2] == "intransitive_class_id";
    match FirstPresent(cands, cols)
    case None => Failure("Couldn't find PK in tamayame_dictionary.intransitive_classes")
    case Some(i) => Success(cands[i])
  }

  /** `id` wins whenever it is present, whatever else the table has. */
  lemma PkPrefersId(cols: set<string>)
    requires "id" in cols
    ensures PkColumn(cols) == Success("id")
  {
  }

  // ------------------------------------------------------------------
  // Per-number mapping
  // ------------------------------------------------------------------

  /** One row of the join in lines 59-73. */
  datatype ClassRow = ClassRow(
    number: Option<string>,
    classCode: Option<string>,
    numberUsage: Option<string>,
    taId: Option<int>,
    taForm: Option<string>,
    taNumber: Option<string>)

  /** The dictionary value built for a row (lines 80-86). */
  datatype ClassInfo = ClassInfo(
    classCode: Option<string>,
    numberUsage: Option<string>,
    taId: Option<int>,
    taForm: Option<string>,
    taNumber: string)

  function InfoOf(row: ClassRow): (info: ClassInfo)
    ensures info.taNumber == NormNumber(row.taNumber)
    ensures info.classCode == row.classCode && info.taId == row.taId
  {
    ClassInfo(row.classCode, row.numberUsage, row.taId, row.taForm, NormNumber(row.taNumber))
  }

  /** Lines 78-86: one entry per number, keyed by the raw number; a later
      row with the same number replaces the earlier one. */
  function ClassesByNumber(rows: seq<ClassRow>): (out: map<Option<string>, ClassInfo>)
    ensures out.Keys == set i | 0 <= i < |rows| :: rows[i].number
    decreases |rows|
  {
    if |rows| == 0 then map[]
    else
      var pre := rows[..|rows| - 1];
      var last := rows[|rows| - 1];
      assert forall i :: 0 <= i < |pre| ==> pre[i] == rows[i];
      assert rows == pre + [last];
      ClassesByNumber(pre)[last.number := InfoOf(last)]
  }

  /** The last row that carries a number decides its entry: no earlier row
      with the same number shows through. */
  lemma {:induction false} ClassesByNumberLastWins(rows: seq<ClassRow>, i: nat)
    requires i < |rows|
    requires forall j :: i < j < |rows| ==> rows[j].number != rows[i].number
    ensures rows[i].number in ClassesByNumber(rows)
    ensures ClassesByNumber(rows)[rows[i].number] == InfoOf(rows[i])
    decreases |rows|
  {
    if i < |rows| - 1 {
      var pre := rows[..|rows| - 1];
      ClassesByNumberLastWins(pre, i);
    }
  }
}
