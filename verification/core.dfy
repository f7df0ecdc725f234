/** db/core.py: `normalize_morpheme`, the normal form morpheme strings are
    stored and compared in. Unicode NFC normalisation comes from the
    `unicodedata` library and is passed in as an uninterpreted function. */
module Core {
  import opened Wrappers
  import opened Text

  /** U+02BC MODIFIER LETTER APOSTROPHE, which replaces the ASCII apostrophe. */
  const ModifierApostrophe: char := '\U{02BC}'

  /** Lines 49-60: None and "" give ""; otherwise NFC, then every ASCII
      apostrophe becomes U+02BC, then surrounding whitespace is removed.
      The replacement comes after NFC, so no apostrophe survives even if
      NFC were to produce one. */
  function NormalizeMorpheme(s: Option<string>, nfc: string -> string): (r: string)
    ensures !Truthy(s) ==> r == ""
    ensures '\'' !in r
    ensures NoEdgeSpace(r)
    ensures Truthy(s) ==> forall k :: 0 <= k < |r| ==>
              r[k] in nfc(s.value) || (r[k] == ModifierApostrophe && '\'' in nfc(s.value))
    ensures Truthy(s) ==> r == ReplaceChar(Strip(nfc(s.value)), '\'', ModifierApostrophe)
  {
    if !Truthy(s) then ""
    else
      var u := nfc(s.value);
      StripByReplaceCommutes(u, '\'', ModifierApostrophe, IsSpace);
      StripFromText(u);
      ReplaceFromText(Strip(u), u, '\'', ModifierApostrophe);
      Strip(ReplaceChar(u, '\'', ModifierApostrophe))
  }

  /** Replacing a character that does not occur changes nothing. */
  lemma ReplaceAbsent(s: string, a: char, b: char)
    requires a !in s
    ensures ReplaceChar(s, a, b) == s
  {
  }

  /** A string already in normal form — NFC-stable, trimmed, with no ASCII
      apostrophe — is its own normal form. */
  lemma NormalizeMorphemeFixed(s: string, nfc: string -> string)
    requires nfc(s) == s && NoEdgeSpace(s) && '\'' !in s
    ensures NormalizeMorpheme(Some(s), nfc) == s
  {
    if s != "" {
      ReplaceAbsent(s, '\'', ModifierApostrophe);
      StripNoEdgeSpace(s);
    }
  }

  /** Normalising twice is normalising once, provided NFC leaves the first
      result unchanged (NFC is idempotent, which is outside this model). */
  lemma NormalizeMorphemeIdempotent(s: Option<string>, nfc: string -> string)
    requires nfc(NormalizeMorpheme(s, nfc)) == NormalizeMorpheme(s, nfc)
    ensures NormalizeMorpheme(Some(NormalizeMorpheme(s, nfc)), nfc) == NormalizeMorpheme(s, nfc)
  {
    NormalizeMorphemeFixed(NormalizeMorpheme(s, nfc), nfc);
  }

  /** With NFC the identity, `" a'b "` is stored as "aʼb": the padding goes
      and the apostrophe becomes U+02BC. */
  lemma NormalizeMorphemePadded(nfc: string -> string)
    requires forall x :: nfc(x) == x
    ensures NormalizeMorpheme(Some(" a'b "), nfc) == ['a', ModifierApostrophe, 'b']
  {
    var t := ReplaceChar(" a'b ", '\'', ModifierApostrophe);
    assert t == " " + ['a', ModifierApostrophe, 'b'] + " ";
    StripSurrounded(" ", ['a', ModifierApostrophe, 'b'], " ");
  }

  /** With NFC the identity, an apostrophe is turned into U+02BC. */
  lemma NormalizeMorphemeApostrophe(nfc: string -> string)
    requires forall x :: nfc(x) == x
    ensures NormalizeMorpheme(Some("a'"), nfc) == ['a', ModifierApostrophe]
  {
    var t := ReplaceChar("a'", '\'', ModifierApostrophe);
    assert t == ['a', ModifierApostrophe];
    StripNoEdgeSpace(t);
  }
}
