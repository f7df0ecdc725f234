/** db/lookups.py: the TA-number normaliser of this file and the way
    `fetch_ta_allomorphs_by_number` assembles its WHERE clause, parameters,
    LIMIT and OFFSET. */
module Lookups {
  import opened Wrappers
  import opened Text

  /** The nine keys of the alias table. */
  const Aliases: set<string> := {"1", "sg", "singular", "2", "du", "dual", "3", "pl", "plural"}

  /** The alias table of lines 29-31, on already canonical text: a key maps
      to its full word and anything else is returned as it is. */
  function TaNumberAlias(s: string): (r: string)
    ensures s in {"1", "sg", "singular"} ==> r == "singular"
    ensures s in {"2", "du", "dual"} ==> r == "dual"
    ensures s in {"3", "pl", "plural"} ==> r == "plural"
    ensures s !in Aliases ==> r == s
    ensures r in {"singular", "dual", "plural"} || r == s
  {
    if s in {"1", "sg", "singular"} then "singular"
    else if s in {"2", "du", "dual"} then "dual"
    else if s in {"3", "pl", "plural"} then "plural"
    else s
  }

  /** The three full words the alias table produces are canonical. */
  lemma AliasWordsCanonical()
    ensures NoEdgeSpace("singular") && Lower("singular") == "singular"
    ensures NoEdgeSpace("dual") && Lower("dual") == "dual"
    ensures NoEdgeSpace("plural") && Lower("plural") == "plural"
  {
    SingularCanonical();
    DualCanonical();
    PluralCanonical();
  }

  lemma SingularCanonical()
    ensures NoEdgeSpace("singular") && Lower("singular") == "singular"
  {
    LowerFixed("singular");
  }

  lemma DualCanonical()
    ensures NoEdgeSpace("dual") && Lower("dual") == "dual"
  {
    LowerFixed("dual");
  }

  lemma PluralCanonical()
    ensures NoEdgeSpace("plural") && Lower("plural") == "plural"
  {
    LowerFixed("plural");
  }

  /** `_normalize_ta_number`: None stays None; anything else is trimmed,
      lower-cased and looked up in the alias table, and kept when it is
      not there. */
  function NormalizeTaNumber(n: Option<string>): (r: Option<string>)
    ensures r.None? <==> n.None?
    ensures r.Some? ==> NoEdgeSpace(r.value) && Lower(r.value) == r.value
    ensures n.Some? && Canon(n.value) !in Aliases ==> r == Some(Canon(n.value))
  {
    match n
    case None => None
    case Some(v) =>
      AliasWordsCanonical();
      Some(TaNumberAlias(Canon(v)))
  }

  /** Each alias maps to its full word: "1", "sg" and "singular" to
      "singular", "2", "du" and "dual" to "dual", "3", "pl" and "plural" to
      "plural", whatever the padding and case. */
  lemma NormalizeTaNumberAliases(v: string)
    ensures Canon(v) in {"1", "sg", "singular"} ==> NormalizeTaNumber(Some(v)) == Some("singular")
    ensures Canon(v) in {"2", "du", "dual"} ==> NormalizeTaNumber(Some(v)) == Some("dual")
    ensures Canon(v) in {"3", "pl", "plural"} ==> NormalizeTaNumber(Some(v)) == Some("plural")
  {
  }

  /** The full words are aliases of themselves. */
  lemma TaNumberAliasIdempotent(s: string)
    ensures TaNumberAlias(TaNumberAlias(s)) == TaNumberAlias(s)
  {
  }

  /** Normalising twice is normalising once. */
  lemma NormalizeTaNumberIdempotent(n: Option<string>)
    ensures NormalizeTaNumber(NormalizeTaNumber(n)) == NormalizeTaNumber(n)
  {
    if n.Some? {
      var r := NormalizeTaNumber(n).value;
      CanonFixed(r);
      TaNumberAliasIdempotent(Canon(n.value));
    }
  }

  /** The spelling "dl", which the intransitive normaliser produces, is not
      an alias here and stays "dl". */
  lemma NormalizeTaNumberKeepsDl()
    ensures NormalizeTaNumber(Some("dl")) == Some("dl")
  {
    CanonOfLowerCase("dl");
    AliasKeepsDl();
  }

  lemma AliasKeepsDl()
    ensures TaNumberAlias("dl") == "dl"
  {
    assert "dl"[1] != "du"[1];
    assert "dl" !in {"1", "sg", "singular"} && "dl" !in {"2", "du", "dual"} && "dl" !in {"3", "pl", "plural"};
  }

  lemma NormalizeTaNumberDigit()
    ensures NormalizeTaNumber(Some("2")) == Some("dual")
  {
    CanonOfLowerCase("2");
  }

  // ------------------------------------------------------------------
  // Query assembly
  // ------------------------------------------------------------------

  /** The parts of the statement that depend on the arguments. */
  datatype TaQuery = TaQuery(
    wheres: seq<string>,
    params: seq<string>,
    whereSql: string,
    limit: int,
    offset: int)

  /** A filter of lines 41-46 with the parameter it binds. */
  datatype Filter = NumberIs(number: string) | VoiceIs(voice: string) | FormLike(pattern: string) {

    function Condition(): string {
      match this
      case NumberIs(_) => "ta.number = %s"
      case VoiceIs(_) => "ta.voice_class = %s"
      case FormLike(_) => "ta.form ILIKE %s"
    }

    function Param(): string {
      match this
      case NumberIs(n) => n
      case VoiceIs(v) => v
      case FormLike(p) => p
    }

    function Rank(): nat {
      match this
      case NumberIs(_) => 0
      case VoiceIs(_) => 1
      case FormLike(_) => 2
    }
  }

  /** The supplied filters, in the order of lines 41-46, each present
      exactly when its argument is truthy; `num` is the number after
      normalisation, and the search filter binds the text wrapped in `%`
      wildcards. */
  function Filters(num: Option<string>, voiceClass: Option<string>, search: Option<string>)
    : (fs: seq<Filter>)
    ensures forall x :: NumberIs(x) in fs <==> Truthy(num) && x == num.value
    ensures forall x :: VoiceIs(x) in fs <==> Truthy(voiceClass) && x == voiceClass.value
    ensures forall x :: FormLike(x) in fs <==> Truthy(search) && x == "%" + search.value + "%"
    ensures forall i, j :: 0 <= i < j < |fs| ==> fs[i].Rank() < fs[j].Rank()
  {
    (if Truthy(num) then [NumberIs(num.value)] else [])
    + (if Truthy(voiceClass) then [VoiceIs(voiceClass.value)] else [])
    + (if Truthy(search) then [FormLike("%" + search.value + "%")] else [])
  }

  /** Lines 35-56: one condition and one parameter per supplied filter,
      joined with AND behind a WHERE that is left out when there is no
      filter; LIMIT defaults to 500 and OFFSET to 0, also when 0 is passed. */
  function BuildTaQuery(number: Option<string>, voiceClass: Option<string>, search: Option<string>,
                        limit: Option<int>, offset: Option<int>): (q: TaQuery)
    ensures var fs := Filters(NormalizeTaNumber(number), voiceClass, search);
            && |q.wheres| == |q.params| == |fs|
            && forall i :: 0 <= i < |fs| ==> q.wheres[i] == fs[i].Condition() && q.params[i] == fs[i].Param()
    ensures q.whereSql == "" <==> |q.wheres| == 0
    ensures |q.wheres| > 0 ==> q.whereSql == "WHERE " + Join(" AND ", q.wheres)
    ensures q.limit == IntOr(limit, 500) && q.offset == IntOr(offset, 0)
  {
    var fs := Filters(NormalizeTaNumber(number), voiceClass, search);
    var wheres := seq(|fs|, i requires 0 <= i < |fs| => fs[i].Condition());
    var params := seq(|fs|, i requires 0 <= i < |fs| => fs[i].Param());
    TaQuery(wheres, params,
            if |wheres| > 0 then "WHERE " + Join(" AND ", wheres) else "",
            IntOr(limit, 500), IntOr(offset, 0))
  }

  /** There are as many conditions as supplied filters: one per truthy
      argument, the number counted after normalisation. */
  lemma BuildTaQueryCount(number: Option<string>, voiceClass: Option<string>, search: Option<string>,
                          limit: Option<int>, offset: Option<int>)
    ensures |BuildTaQuery(number, voiceClass, search, limit, offset).wheres|
            == (if Truthy(NormalizeTaNumber(number)) then 1 else 0)
               + (if Truthy(voiceClass) then 1 else 0)
               + (if Truthy(search) then 1 else 0)
  {
  }

  /** No filter supplied: no WHERE, no parameters, and the default page. */
  lemma BuildTaQueryUnfiltered()
    ensures var q := BuildTaQuery(None, None, None, None, None);
            q.whereSql == "" && q.params == [] && q.limit == 500 && q.offset == 0
  {
  }

  /** A blank number normalises to "" and adds no condition. */
  lemma BlankNumberAddsNothing(v: string)
    requires forall i :: 0 <= i < |v| ==> IsSpace(v[i])
    ensures forall f :: f in Filters(NormalizeTaNumber(Some(v)), None, None) ==> !f.NumberIs?
  {
    assert SkipWhile(v, 0, IsSpace) == |v|;
    assert Canon(v) == "";
    assert TaNumberAlias("") == "";
    assert NormalizeTaNumber(Some(v)) == Some("");
  }
}
