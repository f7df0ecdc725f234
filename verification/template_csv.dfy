/** The record parsing of generate_template_defs.py, which turned the
    exported `templates.csv` into the catalog: a PostgreSQL array literal
    such as `{100,TA,ROOT}` becomes a list of slot names, `template_id` is
    parsed as an integer, and the optional `type` and `transitivity`
    columns get defaults. */
module TemplateCsv {
  import opened Wrappers
  import opened Text

  predicate IsBrace(c: char) {
    c == '{' || c == '}'
  }

  /** `raw.strip('{}')`: every brace at either end is removed, braces
      inside are kept. */
  function StripBraces(raw: string): (r: string)
    ensures |r| > 0 ==> !IsBrace(r[0]) && !IsBrace(r[|r| - 1])
    ensures var i := SkipWhile(raw, 0, IsBrace);
            && i + |r| <= |raw| && r == raw[i..i + |r|]
            && (forall k :: 0 <= k < i ==> IsBrace(raw[k]))
            && (forall k :: i + |r| <= k < |raw| ==> IsBrace(raw[k]))
  {
    StripBy(raw, IsBrace)
  }

  /** `[s.strip() for s in parts if s.strip()]`: the tokens are exactly the
      non-empty trimmed parts. */
  function Tokens(parts: seq<string>): (toks: seq<string>)
    ensures |toks| <= |parts|
    ensures forall k :: 0 <= k < |toks| ==> toks[k] != "" && NoEdgeSpace(toks[k])
  {
    if |parts| == 0 then []
    else
      var rest := Tokens(parts[1..]);
      assert forall k :: 1 <= k < |parts| ==> parts[1..][k - 1] == parts[k];
      Piece(parts[0]) + rest
  }

  /** What one part contributes: its trimmed text, unless that is empty. */
  function Piece(part: string): (toks: seq<string>)
    ensures |toks| <= 1
    ensures forall k :: 0 <= k < |toks| ==> toks[k] == Strip(part) != "" && NoEdgeSpace(toks[k])
    ensures Strip(part) != "" ==> toks == [Strip(part)]
  {
    if Strip(part) != "" then [Strip(part)] else []
  }

  /** The comprehension works part by part: the tokens of two runs of parts
      are the tokens of the first run followed by those of the second, so
      the order of the parts is kept. */
  lemma {:induction false} TokensConcat(a: seq<string>, b: seq<string>)
    ensures Tokens(a + b) == Tokens(a) + Tokens(b)
  {
    if |a| > 0 {
      var x, r := a[0], a[1..];
      TokensConcat(r, b);
      SplitHead(a, b);
      TokensCons(x, r);
      TokensCons(x, r + b);
      ConcatAssoc(Piece(x), Tokens(r), Tokens(b));
    } else {
      assert a + b == b;
    }
  }

  lemma SplitHead<T>(a: seq<T>, b: seq<T>)
    requires |a| > 0
    ensures a == [a[0]] + a[1..] && a + b == [a[0]] + (a[1..] + b)
  {
  }

  lemma ConcatAssoc<T>(x: seq<T>, y: seq<T>, z: seq<T>)
    ensures x + (y + z) == (x + y) + z
  {
  }

  /** One part in front adds its piece in front. */
  lemma TokensCons(part: string, rest: seq<string>)
    ensures Tokens([part] + rest) == Piece(part) + Tokens(rest)
  {
    assert ([part] + rest)[1..] == rest;
  }

  /** Every token is the trimmed text of a part. */
  lemma {:induction false} TokensSound(parts: seq<string>, j: nat)
    requires j < |Tokens(parts)|
    ensures exists k :: 0 <= k < |parts| && Strip(parts[k]) == Tokens(parts)[j]
  {
    var t := Strip(parts[0]);
    var rest := Tokens(parts[1..]);
    if t != "" && j == 0 {
      assert Strip(parts[0]) == Tokens(parts)[0];
    } else {
      var j' := if t != "" then j - 1 else j;
      assert Tokens(parts)[j] == rest[j'];
      TokensSound(parts[1..], j');
      var k :| 0 <= k < |parts[1..]| && Strip(parts[1..][k]) == rest[j'];
      assert parts[1..][k] == parts[k + 1];
    }
  }

  /** No non-empty trimmed part is dropped. */
  lemma {:induction false} TokensComplete(parts: seq<string>, k: nat)
    requires k < |parts| && Strip(parts[k]) != ""
    ensures Strip(parts[k]) in Tokens(parts)
  {
    if k > 0 {
      TokensComplete(parts[1..], k - 1);
    }
  }

  /** A single part gives its trimmed text, or nothing when that is empty. */
  lemma TokensOfOne(p: string)
    ensures Strip(p) != "" ==> Tokens([p]) == [Strip(p)]
    ensures Strip(p) == "" ==> Tokens([p]) == []
  {
    assert [p][1..] == [];
  }

  /** A stripped piece holds only characters of the piece it came from. */
  lemma TokensFrom(parts: seq<string>, c: char)
    requires forall k :: 0 <= k < |parts| ==> c !in parts[k]
    ensures forall k :: 0 <= k < |Tokens(parts)| ==> c !in Tokens(parts)[k]
  {
    if |parts| > 0 {
      TokensFrom(parts[1..], c);
      var t := Strip(parts[0]);
      assert forall x :: x in t ==> x in parts[0];
    }
  }

  /** The slot list of one CSV row: line 19 strips the braces, line 20
      splits at commas, trims every piece and drops the empty ones. */
  function SlotOrder(raw: string): (toks: seq<string>)
    ensures forall k :: 0 <= k < |toks| ==> toks[k] != "" && NoEdgeSpace(toks[k]) && ',' !in toks[k]
    ensures |toks| <= Count(raw, ',') + 1
  {
    var inner := StripBraces(raw);
    var parts := Split(inner, ',');
    TokensFrom(parts, ',');
    CountInfix(raw, SkipWhile(raw, 0, IsBrace), |inner|, ',');
    Tokens(parts)
  }

  /** Padding around a name and an empty piece are dropped:
      `{ TA , ,ROOT}` gives TA, ROOT. */
  lemma SlotOrderPadded()
    ensures SlotOrder("{ TA , ,ROOT}") == ["TA", "ROOT"]
  {
    var raw := "{ TA , ,ROOT}";
    var j := " TA , ,ROOT";
    assert raw == "{" + j + "}";
    BraceStripOfWrapped(j);
    var parts := PaddedParts();
    PaddedTokens();
    assert SlotOrder(raw) == Tokens(Split(StripBraces(raw), ','));
  }

  lemma PaddedTokens()
    ensures Tokens([" TA ", " ", "ROOT"]) == ["TA", "ROOT"]
  {
    assert [" TA ", " ", "ROOT"] == ([" TA "] + [" "]) + ["ROOT"];
    PaddedStrips();
    TokensConcat([" TA "] + [" "], ["ROOT"]);
    TokensConcat([" TA "], [" "]);
    TokensOfOne(" TA ");
    TokensOfOne(" ");
    TokensOfOne("ROOT");
  }

  lemma PaddedParts() returns (parts: seq<string>)
    ensures parts == [" TA ", " ", "ROOT"] && Split(" TA , ,ROOT", ',') == parts
  {
    parts := [" TA ", " ", "ROOT"];
    assert Join(",", parts) == " TA , ,ROOT";
    assert forall k :: 0 <= k < |parts| ==> ',' !in parts[k];
    SplitJoin(parts, ',');
  }

  lemma PaddedStrips()
    ensures Strip(" TA ") == "TA" && Strip(" ") == "" && Strip("ROOT") == "ROOT"
  {
    assert " TA " == " " + "TA" + " ";
    StripSurrounded(" ", "TA", " ");
    StripNoEdgeSpace("ROOT");
  }

  lemma {:induction false} CountInfix(s: string, i: nat, n: nat, c: char)
    requires i + n <= |s|
    ensures Count(s[i..i + n], c) <= Count(s, c)
    decreases |s|
  {
    if i > 0 {
      CountInfix(s[1..], i - 1, n, c);
      assert s[1..][i - 1..i - 1 + n] == s[i..i + n];
    } else if n > 0 {
      CountInfix(s[1..], 0, n - 1, c);
      assert s[1..][0..n - 1] == s[1..n];
      assert s[0..n][1..] == s[1..n];
    }
  }

  /** A token the parser can give back: non-empty, no edge whitespace, and
      none of the characters the format uses. */
  predicate PlainToken(t: string) {
    t != "" && NoEdgeSpace(t) && ',' !in t && '{' !in t && '}' !in t
  }

  /** The array literal the database exports for a list of slot names. */
  function ArrayLiteral(toks: seq<string>): string {
    "{" + Join(",", toks) + "}"
  }

  /** Parsing the exported literal of plain tokens gives the tokens back. */
  lemma SlotOrderRoundTrip(toks: seq<string>)
    requires forall k :: 0 <= k < |toks| ==> PlainToken(toks[k])
    ensures SlotOrder(ArrayLiteral(toks)) == toks
  {
    var j := Join(",", toks);
    JoinNoBraceEdges(toks);
    var raw := ArrayLiteral(toks);
    assert raw == "{" + j + "}";
    BraceStripOfWrapped(j);
    if |toks| == 0 {
      assert Split("", ',') == [""];
    } else {
      SplitJoin(toks, ',');
      TokensOfPlain(toks);
    }
  }

  /** The join of plain tokens neither starts nor ends with a brace. */
  lemma JoinNoBraceEdges(toks: seq<string>)
    requires forall k :: 0 <= k < |toks| ==> PlainToken(toks[k])
    ensures var j := Join(",", toks);
            |j| > 0 ==> !IsBrace(j[0]) && !IsBrace(j[|j| - 1])
    ensures |toks| > 0 ==> |Join(",", toks)| > 0
  {
    if |toks| > 1 {
      JoinNoBraceEdges(toks[1..]);
      var rest := Join(",", toks[1..]);
      assert Join(",", toks) == toks[0] + "," + rest;
    }
  }

  /** Stripping the braces of `{j}` gives `j` back when `j` has none at its ends. */
  lemma BraceStripOfWrapped(j: string)
    requires |j| > 0 ==> !IsBrace(j[0]) && !IsBrace(j[|j| - 1])
    ensures StripBraces("{" + j + "}") == j
  {
    var raw := "{" + j + "}";
    var r := StripBraces(raw);
    var i := SkipWhile(raw, 0, IsBrace);
    if |j| > 0 {
      assert !IsBrace(raw[1]);
      assert i == 1;
      assert !IsBrace(raw[|raw| - 2]);
      assert |r| == |j|;
      assert r == raw[1..1 + |j|] == j;
    } else {
      assert |r| == 0;
    }
  }

  lemma {:induction false} TokensOfPlain(toks: seq<string>)
    requires forall k :: 0 <= k < |toks| ==> PlainToken(toks[k])
    ensures Tokens(toks) == toks
  {
    if |toks| > 0 {
      assert PlainToken(toks[0]);
      StripNoEdgeSpace(toks[0]);
      var t := Strip(toks[0]);
      assert t == toks[0] && t != "";
      assert forall k :: 0 <= k < |toks[1..]| ==> PlainToken(toks[1..][k]) by {
        forall k | 0 <= k < |toks[1..]| ensures PlainToken(toks[1..][k]) {
          assert toks[1..][k] == toks[k + 1];
        }
      }
      TokensOfPlain(toks[1..]);
      assert Tokens(toks) == [t] + Tokens(toks[1..]);
      assert [toks[0]] + toks[1..] == toks;
    }
  }

  // ------------------------------------------------------------------
  // Rows
  // ------------------------------------------------------------------

  /** A CSV row as `csv.DictReader` yields it: column name to text. */
  type CsvRow = map<string, string>

  /** The record written for one row. */
  datatype TemplateRecord = TemplateRecord(
    templateId: int,
    name: string,
    slotOrder: seq<string>,
    kind: string,
    transitivity: string)

  /** Lines 15-31: a missing `template_id`, `name` or `slot_order` column is
      a `KeyError`, a `template_id` that is not an integer a `ValueError`;
      `type` defaults to "verb" and `transitivity` to "" when the column is
      absent. */
  function ParseRow(row: CsvRow): (r: Result<TemplateRecord>)
    ensures r.Success? <==>
              && "template_id" in row && ParseInt(row["template_id"]).Some?
              && "name" in row && "slot_order" in row
    ensures r.Success? ==>
              && r.value.templateId == ParseInt(row["template_id"]).value
              && r.value.name == row["name"]
              && r.value.slotOrder == SlotOrder(row["slot_order"])
              && r.value.kind == (if "type" in row then row["type"] else "verb")
              && r.value.transitivity == (if "transitivity" in row then row["transitivity"] else "")
  {
    if "template_id" !in row then Failure("KeyError: 'template_id'")
    else
      match ParseInt(row["template_id"])
      case None => Failure("ValueError: invalid literal for int()")
      case Some(id) =>
        if "name" !in row then Failure("KeyError: 'name'")
        else if "slot_order" !in row then Failure("KeyError: 'slot_order'")
        else
          Success(TemplateRecord(
            id,
            row["name"],
            SlotOrder(row["slot_order"]),
            if "type" in row then row["type"] else "verb",
            if "transitivity" in row then row["transitivity"] else ""))
  }

  /** The row the database exports for a record. */
  function ExportRow(t: TemplateRecord): CsvRow {
    map["template_id" := IntToString(t.templateId), "name" := t.name,
        "slot_order" := ArrayLiteral(t.slotOrder), "type" := t.kind,
        "transitivity" := t.transitivity]
  }

  /** Parsing an exported row gives the record back, when its slot names
      are plain tokens. */
  lemma ParseExportRoundTrip(t: TemplateRecord)
    requires forall k :: 0 <= k < |t.slotOrder| ==> PlainToken(t.slotOrder[k])
    ensures ParseRow(ExportRow(t)) == Success(t)
  {
    ParseIntToString(t.templateId);
    SlotOrderRoundTrip(t.slotOrder);
    var row := ExportRow(t);
    assert "name"[0] != "type"[0];
    assert row["template_id"] == IntToString(t.templateId) && row["name"] == t.name;
    assert row["slot_order"] == ArrayLiteral(t.slotOrder);
    assert row["type"] == t.kind && row["transitivity"] == t.transitivity;
  }
}
