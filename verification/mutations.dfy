/** db/mutations.py: the checks `insert_example` and `insert_morpheme` make
    before they write, and the statement shape `insert_example` builds. */
module Mutations {
  import opened Wrappers
  import opened Text

  /** The allowed values of `morphemes.position` and `morphemes.category`
      (lines 5-6). */
  const ValidPositions: set<string> := {"prefix", "root", "suffix", "infix", "circumfix", "other"}
  const ValidCategories: set<string> := {"root", "affix", "stem", "clitic", "particle", "unknown", "ta"}

  /** The statement parts of `insert_example` (lines 17-19): the columns in
      the payload's key order, one `%s` per column, and the values in the
      same order. */
  datatype ExampleInsert<V> = ExampleInsert(fields: seq<string>, placeholders: seq<string>, params: seq<V>) {

    function Sql(): string {
      "INSERT INTO tamayame_dictionary.examples (" + Join(", ", fields)
      + ") VALUES (" + Join(", ", placeholders) + ") RETURNING example_id"
    }
  }

  /** Lines 14-19: an empty payload is refused; otherwise every key becomes
      a column, in order, bound to its value. The payload is the dict as its
      items in insertion order. */
  function InsertExample<V>(payload: seq<(string, V)>): (r: Result<ExampleInsert<V>>)
    ensures r.Failure? <==> |payload| == 0
    ensures r.Failure? ==> r.error == "insert_example: payload is empty"
    ensures r.Success? ==>
              && |r.value.fields| == |r.value.placeholders| == |r.value.params| == |payload|
              && forall i :: 0 <= i < |payload| ==>
                   r.value.fields[i] == payload[i].0 && r.value.params[i] == payload[i].1
                   && r.value.placeholders[i] == "%s"
  {
    if |payload| == 0 then Failure("insert_example: payload is empty")
    else
      Success(ExampleInsert(
        seq(|payload|, i requires 0 <= i < |payload| => payload[i].0),
        seq(|payload|, i requires 0 <= i < |payload| => "%s"),
        seq(|payload|, i requires 0 <= i < |payload| => payload[i].1)))
  }

  /** Pairing each column with its bound value gives the payload back. */
  lemma InsertExamplePairsBack<V>(payload: seq<(string, V)>)
    requires |payload| > 0
    ensures var e := InsertExample(payload).value;
            seq(|e.fields|, i requires 0 <= i < |e.fields| => (e.fields[i], e.params[i])) == payload
  {
  }

  // ------------------------------------------------------------------
  // insert_morpheme
  // ------------------------------------------------------------------

  /** `x if x in allowed else fallback`, the check of lines 58 and 62. */
  function Validate(x: string, allowed: set<string>, fallback: string): (r: string)
    ensures fallback in allowed ==> r in allowed
    ensures x in allowed ==> r == x
    ensures x !in allowed ==> r == fallback
  {
    if x !in allowed then fallback else x
  }

  /** Lines 57-59: the position is trimmed and lower-cased, "root" standing
      in for a falsy value and for anything outside the allowed set. */
  function NormalizePosition(position: Option<string>): (r: string)
    ensures r in ValidPositions
    ensures Canon(OrElse(position, "root")) in ValidPositions ==> r == Canon(OrElse(position, "root"))
    ensures Canon(OrElse(position, "root")) !in ValidPositions ==> r == "root"
  {
    Validate(Canon(OrElse(position, "root")), ValidPositions, "root")
  }

  /** Lines 61-63: likewise for the category, with "unknown" as the fallback. */
  function NormalizeCategory(category: Option<string>): (r: string)
    ensures r in ValidCategories
    ensures Canon(OrElse(category, "unknown")) in ValidCategories ==> r == Canon(OrElse(category, "unknown"))
    ensures Canon(OrElse(category, "unknown")) !in ValidCategories ==> r == "unknown"
  {
    Validate(Canon(OrElse(category, "unknown")), ValidCategories, "unknown")
  }

  /** A validated value that is canonical is its own validation, whatever
      the fallback. */
  lemma ValidateCanonicalFixed(x: string, allowed: set<string>, fallback: string)
    requires x in allowed && Canon(x) == x && x != ""
    ensures Validate(Canon(OrElse(Some(x), fallback)), allowed, fallback) == x
  {
  }

  /** The fallbacks are canonical. */
  lemma RootIsCanonical()
    ensures Canon("root") == "root"
  {
    CanonOfLowerCase("root");
  }

  lemma UnknownIsCanonical()
    ensures Canon("unknown") == "unknown"
  {
    CanonOfLowerCase("unknown");
  }

  /** Validating an already validated position changes nothing. */
  lemma NormalizePositionIdempotent(position: Option<string>)
    ensures NormalizePosition(Some(NormalizePosition(position))) == NormalizePosition(position)
  {
    var r := NormalizePosition(position);
    if r == Canon(OrElse(position, "root")) {
      CanonIdempotent(OrElse(position, "root"));
    } else {
      RootIsCanonical();
    }
    ValidateCanonicalFixed(r, ValidPositions, "root");
  }

  lemma NormalizeCategoryIdempotent(category: Option<string>)
    ensures NormalizeCategory(Some(NormalizeCategory(category))) == NormalizeCategory(category)
  {
    var r := NormalizeCategory(category);
    if r == Canon(OrElse(category, "unknown")) {
      CanonIdempotent(OrElse(category, "unknown"));
    } else {
      UnknownIsCanonical();
    }
    ValidateCanonicalFixed(r, ValidCategories, "unknown");
  }

  /** The row `insert_morpheme` writes. */
  datatype MorphemeInsert = MorphemeInsert(
    entryId: int,
    segment: string,
    gloss: string,
    position: string,
    ordering: int,
    category: string)

  /** Lines 54-63: a falsy segment is refused; otherwise the row carries the
      validated position and category and the other arguments unchanged. */
  function InsertMorpheme(entryId: int, segment: Option<string>, gloss: string,
                          position: Option<string>, ordering: int, category: Option<string>)
    : (r: Result<MorphemeInsert>)
    ensures r.Failure? <==> !Truthy(segment)
    ensures r.Failure? ==> r.error == "insert_morpheme: segment is required"
    ensures r.Success? ==>
              && r.value.segment == segment.value
              && r.value.position in ValidPositions
              && r.value.category in ValidCategories
              && r.value.position == NormalizePosition(position)
              && r.value.category == NormalizeCategory(category)
              && r.value.entryId == entryId && r.value.gloss == gloss && r.value.ordering == ordering
  {
    if !Truthy(segment) then Failure("insert_morpheme: segment is required")
    else
      Success(MorphemeInsert(entryId, segment.value, gloss, NormalizePosition(position),
                             ordering, NormalizeCategory(category)))
  }

  /** An unknown position is replaced, not refused: the insert goes ahead as "root". */
  lemma UnknownPositionBecomesRoot(entryId: int, segment: string, position: string)
    requires segment != ""
    requires Canon(position) !in ValidPositions && position != ""
    ensures InsertMorpheme(entryId, Some(segment), "", Some(position), 1, None).Success?
    ensures InsertMorpheme(entryId, Some(segment), "", Some(position), 1, None).value.position == "root"
  {
  }
}
