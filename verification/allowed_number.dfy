/** `_norm_number_to_allowed` (app.py lines 165-178), the number
    normaliser of the add-entry route: it maps a submitted number onto the
    spellings the database's CHECK constraint allows. The allowed values
    are a Python set; the model takes them as a sequence in the set's
    iteration order, which decides the last-resort choice. */
module AllowedNumber {
  import opened Wrappers
  import opened Text

  /** The first candidate that is allowed, if any. */
  function FirstAllowed(cands: seq<string>, allowed: seq<string>): (r: Option<string>)
    ensures r.Some? ==> r.value in cands && r.value in allowed
    ensures r.Some? ==> exists i :: 0 <= i < |cands| && cands[i] == r.value
                                   && forall j :: 0 <= j < i ==> cands[j] !in allowed
    ensures r.None? ==> forall j :: 0 <= j < |cands| ==> cands[j] !in allowed
  {
    if |cands| == 0 then None
    else if cands[0] in allowed then Some(cands[0])
    else
      var r := FirstAllowed(cands[1..], allowed);
      assert r.Some? ==> exists i :: 0 <= i < |cands| && cands[i] == r.value
                                     && forall j :: 0 <= j < i ==> cands[j] !in allowed by {
        if r.Some? {
          var i :| 0 <= i < |cands| - 1 && cands[1..][i] == r.value
                   && forall j :: 0 <= j < i ==> cands[1..][j] !in allowed;
          assert cands[i + 1] == r.value;
          assert forall j :: 1 <= j < i + 1 ==> cands[j] == cands[1..][j - 1];
        }
      }
      r
  }

  /** The aliases of lines 168-176 and the spellings each tries, in order. */
  function Preferences(r: string): (cands: seq<string>)
  {
    if r in {"sg", "s", "sing", "singular"} then ["singular", "sg"]
    else if r in {"dl", "du", "dual"} then ["dual", "du", "dl"]
    else if r in {"pl", "p", "plural"} then ["plural", "pl"]
    else []
  }

  /** Two and three candidates are tried left to right. */
  lemma FirstAllowedPair(a: string, b: string, allowed: seq<string>)
    ensures FirstAllowed([a, b], allowed)
            == if a in allowed then Some(a) else if b in allowed then Some(b) else None
  {
    assert [a, b][1..] == [b];
  }

  lemma FirstAllowedTriple(a: string, b: string, c: string, allowed: seq<string>)
    ensures FirstAllowed([a, b, c], allowed)
            == if a in allowed then Some(a) else if b in allowed then Some(b)
               else if c in allowed then Some(c) else None
  {
    assert [a, b, c][1..] == [b, c];
    FirstAllowedPair(b, c, allowed);
  }

  /** The choice made for an already trimmed, lower-cased value `c`. */
  function Choose(c: string, allowed: seq<string>): (r: Option<string>)
    ensures r.Some? <==> |allowed| > 0
    ensures r.Some? ==> r.value in allowed
    ensures c in allowed ==> r == Some(c)
  {
    if c in allowed then Some(c)
    else
      match FirstAllowed(Preferences(c), allowed)
      case Some(p) => Some(p)
      case None => if |allowed| > 0 then Some(allowed[0]) else None
  }

  /** Lines 165-178: the trimmed, lower-cased value if it is allowed; else
      the first allowed spelling of its alias group; else the first allowed
      value of all. With nothing allowed, `next` raises and there is no
      result. */
  function NormNumberToAllowed(raw: Option<string>, allowed: seq<string>): (r: Option<string>)
    ensures r.Some? <==> |allowed| > 0
    ensures r.Some? ==> r.value in allowed
    ensures Canon(OrElse(raw, "")) in allowed ==> r == Some(Canon(OrElse(raw, "")))
  {
    Choose(Canon(OrElse(raw, "")), allowed)
  }

  /** The full word is preferred to the abbreviation: "singular" over "sg". */
  lemma PrefersSingular(c: string, allowed: seq<string>)
    requires c in {"sg", "s", "sing", "singular"} && c !in allowed
    ensures "singular" in allowed ==> Choose(c, allowed) == Some("singular")
    ensures "singular" !in allowed && "sg" in allowed ==> Choose(c, allowed) == Some("sg")
  {
    FirstAllowedPair("singular", "sg", allowed);
  }

  /** "dual" over "du" over "dl". */
  lemma PrefersDual(c: string, allowed: seq<string>)
    requires c in {"dl", "du", "dual"} && c !in allowed
    ensures "dual" in allowed ==> Choose(c, allowed) == Some("dual")
    ensures "dual" !in allowed && "du" in allowed ==> Choose(c, allowed) == Some("du")
    ensures "dual" !in allowed && "du" !in allowed && "dl" in allowed ==> Choose(c, allowed) == Some("dl")
  {
    FirstAllowedTriple("dual", "du", "dl", allowed);
  }

  /** "plural" over "pl". */
  lemma PrefersPlural(c: string, allowed: seq<string>)
    requires c in {"pl", "p", "plural"} && c !in allowed
    ensures "plural" in allowed ==> Choose(c, allowed) == Some("plural")
    ensures "plural" !in allowed && "pl" in allowed ==> Choose(c, allowed) == Some("pl")
  {
    FirstAllowedPair("plural", "pl", allowed);
  }

  /** A value in no alias group that is not allowed falls back to the
      first allowed value. */
  lemma FallsBackToFirst(c: string, allowed: seq<string>)
    requires |allowed| > 0 && c !in allowed
    requires c !in {"sg", "s", "sing", "singular", "dl", "du", "dual", "pl", "p", "plural"}
    ensures Choose(c, allowed) == Some(allowed[0])
  {
  }

  /** Feeding the result back in returns it unchanged. */
  lemma NormNumberToAllowedIdempotent(raw: Option<string>, allowed: seq<string>)
    requires forall i :: 0 <= i < |allowed| ==> NoEdgeSpace(allowed[i]) && Lower(allowed[i]) == allowed[i]
    ensures var r := NormNumberToAllowed(raw, allowed);
            r.Some? ==> NormNumberToAllowed(r, allowed) == r
  {
    var r := NormNumberToAllowed(raw, allowed);
    if r.Some? {
      var k :| 0 <= k < |allowed| && allowed[k] == r.value;
      CanonFixed(r.value);
    }
  }
}
