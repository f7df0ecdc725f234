/** String helpers with Python's semantics: `str.strip()`, `str.lower()`,
    `str.upper()`, `str.split(sep)`, `sep.join(parts)`, `int(s)` and the
    `x or default` idiom on optional strings.

    Case mapping is ASCII-only: letters outside A-Z/a-z are left unchanged. */
module Text {
  import opened Wrappers

  // ------------------------------------------------------------------
  // Characters
  // ------------------------------------------------------------------

  /** The characters Python's `str.isspace()` accepts, which is the set that
      `str.strip()` with no argument removes. */
  predicate IsSpace(c: char) {
    var n := c as int;
    n == 0x20 || (0x09 <= n <= 0x0D) || (0x1C <= n <= 0x1F)
    || n == 0x85 || n == 0xA0 || n == 0x1680
    || (0x2000 <= n <= 0x200A) || n == 0x2028 || n == 0x2029
    || n == 0x202F || n == 0x205F || n == 0x3000
  }

  predicate IsDigit(c: char) {
    '0' <= c <= '9'
  }

  predicate IsUpperAscii(c: char) {
    'A' <= c <= 'Z'
  }

  predicate IsLowerAscii(c: char) {
    'a' <= c <= 'z'
  }

  function LowerChar(c: char): (r: char)
    ensures !IsUpperAscii(r)
    ensures IsSpace(r) <==> IsSpace(c)
    ensures IsDigit(r) <==> IsDigit(c)
  {
    if IsUpperAscii(c) then (c as int + 32) as char else c
  }

  function UpperChar(c: char): (r: char)
    ensures !IsLowerAscii(r)
    ensures IsSpace(r) <==> IsSpace(c)
  {
    if IsLowerAscii(c) then (c as int - 32) as char else c
  }

  // ------------------------------------------------------------------
  // Case mapping
  // ------------------------------------------------------------------

  function Lower(s: string): (r: string)
    ensures |r| == |s|
    ensures forall i :: 0 <= i < |s| ==> r[i] == LowerChar(s[i])
  {
    if |s| == 0 then "" else [LowerChar(s[0])] + Lower(s[1..])
  }

  function Upper(s: string): (r: string)
    ensures |r| == |s|
    ensures forall i :: 0 <= i < |s| ==> r[i] == UpperChar(s[i])
  {
    if |s| == 0 then "" else [UpperChar(s[0])] + Upper(s[1..])
  }

  lemma LowerIdempotent(s: string)
    ensures Lower(Lower(s)) == Lower(s)
  {
    var l := Lower(s);
    assert forall i :: 0 <= i < |l| ==> LowerChar(l[i]) == l[i];
  }

  /** A string without upper-case ASCII letters is its own lower case. */
  lemma LowerFixed(s: string)
    requires forall i :: 0 <= i < |s| ==> !IsUpperAscii(s[i])
    ensures Lower(s) == s
  {
  }

  lemma UpperIdempotent(s: string)
    ensures Upper(Upper(s)) == Upper(s)
  {
    var u := Upper(s);
    assert forall i :: 0 <= i < |u| ==> UpperChar(u[i]) == u[i];
  }

  predicate IsCasedAscii(c: char) {
    IsUpperAscii(c) || IsLowerAscii(c)
  }

  /** Python's `str.title()`: a letter is upper-cased when the character
      before it is not a letter, lower-cased otherwise. `afterCased` says
      whether the character before `s` is a letter. */
  function TitleFrom(s: string, afterCased: bool): (r: string)
    ensures |r| == |s|
  {
    if |s| == 0 then ""
    else [if afterCased then LowerChar(s[0]) else UpperChar(s[0])] + TitleFrom(s[1..], IsCasedAscii(s[0]))
  }

  function Title(s: string): (r: string)
    ensures |r| == |s|
  {
    TitleFrom(s, false)
  }

  /** A lower-case word `w` in title case is matched by exactly the strings
      that lower-case to `w`: the test is case-insensitive. */
  lemma {:induction false} TitleOfWord(s: string, w: string, afterCased: bool)
    requires forall i :: 0 <= i < |w| ==> IsLowerAscii(w[i])
    ensures TitleFrom(s, afterCased) == (if afterCased || |w| == 0 then w else [UpperChar(w[0])] + w[1..])
            <==> Lower(s) == w
  {
    if |s| > 0 && |w| > 0 {
      var t := if afterCased then w else [UpperChar(w[0])] + w[1..];
      var c := if afterCased then LowerChar(s[0]) else UpperChar(s[0]);
      assert TitleFrom(s, afterCased) == [c] + TitleFrom(s[1..], IsCasedAscii(s[0]));
      assert t == [t[0]] + w[1..];
      assert c == t[0] <==> LowerChar(s[0]) == w[0];
      assert Lower(s) == [LowerChar(s[0])] + Lower(s[1..]);
      assert w == [w[0]] + w[1..];
      if LowerChar(s[0]) == w[0] {
        assert IsCasedAscii(s[0]);
        TitleOfWord(s[1..], w[1..], true);
      }
    }
  }

  // ------------------------------------------------------------------
  // Whitespace stripping
  // ------------------------------------------------------------------

  /** Neither the first nor the last character is whitespace. */
  predicate NoEdgeSpace(s: string) {
    |s| == 0 || (!IsSpace(s[0]) && !IsSpace(s[|s| - 1]))
  }

  /** The first position at or after `i` whose character `drop` does not
      accept, or `|s|` when there is none. */
  function SkipWhile(s: string, i: nat, drop: char -> bool): (j: nat)
    requires i <= |s|
    ensures i <= j <= |s|
    ensures forall k :: i <= k < j ==> drop(s[k])
    ensures j < |s| ==> !drop(s[j])
    decreases |s| - i
  {
    if i < |s| && drop(s[i]) then SkipWhile(s, i + 1, drop) else i
  }

  /** The end of `s[lo..hi]` once the characters `drop` accepts are
      removed from its end. */
  function SkipBackWhile(s: string, lo: nat, hi: nat, drop: char -> bool): (j: nat)
    requires lo <= hi <= |s|
    ensures lo <= j <= hi
    ensures forall k :: j <= k < hi ==> drop(s[k])
    ensures j > lo ==> !drop(s[j - 1])
    decreases hi
  {
    if hi > lo && drop(s[hi - 1]) then SkipBackWhile(s, lo, hi - 1, drop) else hi
  }

  /** `s.strip(chars)`, where `drop` says which characters are in `chars`:
      the infix of `s` left after removing those characters at both ends.
      Everything removed is accepted by `drop` and the result starts and
      ends with characters it rejects, which determines the result. */
  function StripBy(s: string, drop: char -> bool): (r: string)
    ensures |r| > 0 ==> !drop(r[0]) && !drop(r[|r| - 1])
    ensures var i := SkipWhile(s, 0, drop);
            && i + |r| <= |s| && r == s[i..i + |r|]
            && (forall k :: 0 <= k < i ==> drop(s[k]))
            && (forall k :: i + |r| <= k < |s| ==> drop(s[k]))
  {
    var i := SkipWhile(s, 0, drop);
    var j := SkipBackWhile(s, i, |s|, drop);
    s[i..j]
  }

  /** Whitespace around a text without edge whitespace is all `strip` removes. */
  lemma StripSurrounded(pre: string, t: string, post: string)
    requires forall k :: 0 <= k < |pre| ==> IsSpace(pre[k])
    requires forall k :: 0 <= k < |post| ==> IsSpace(post[k])
    requires t != "" && NoEdgeSpace(t)
    ensures Strip(pre + t + post) == t
  {
    var s := pre + t + post;
    var i := SkipWhile(s, 0, IsSpace);
    var r := Strip(s);
    assert s[|pre|] == t[0];
    assert i == |pre|;
    assert s[|pre| + |t| - 1] == t[|t| - 1];
    assert |r| >= |t|;
    assert |r| <= |t| by {
      if |r| > |t| {
        assert false;
      }
    }
    assert r == s[|pre|..|pre| + |t|] == t;
  }

  /** A string whose end characters `drop` rejects is its own strip. */
  lemma StripByFixed(s: string, drop: char -> bool)
    requires |s| > 0 ==> !drop(s[0]) && !drop(s[|s| - 1])
    ensures StripBy(s, drop) == s
  {
    if |s| > 0 {
      assert SkipWhile(s, 0, drop) == 0;
      assert SkipBackWhile(s, 0, |s|, drop) == |s|;
    }
  }

  /** Skipping only looks at which characters `drop` accepts. */
  lemma {:induction false} SkipWhileAlike(u: string, t: string, i: nat, drop: char -> bool)
    requires |u| == |t| && i <= |u|
    requires forall k :: 0 <= k < |u| ==> drop(t[k]) == drop(u[k])
    ensures SkipWhile(u, i, drop) == SkipWhile(t, i, drop)
    decreases |u| - i
  {
    if i < |u| && drop(u[i]) {
      SkipWhileAlike(u, t, i + 1, drop);
    }
  }

  lemma {:induction false} SkipBackWhileAlike(u: string, t: string, lo: nat, hi: nat, drop: char -> bool)
    requires |u| == |t| && lo <= hi <= |u|
    requires forall k :: 0 <= k < |u| ==> drop(t[k]) == drop(u[k])
    ensures SkipBackWhile(u, lo, hi, drop) == SkipBackWhile(t, lo, hi, drop)
    decreases hi
  {
    if hi > lo && drop(u[hi - 1]) {
      SkipBackWhileAlike(u, t, lo, hi - 1, drop);
    }
  }

  /** Replacing `a` by a `b` that `drop` treats alike commutes with
      stripping: both orders cut the same ends. */
  lemma StripByReplaceCommutes(u: string, a: char, b: char, drop: char -> bool)
    requires drop(a) == drop(b)
    ensures StripBy(ReplaceChar(u, a, b), drop) == ReplaceChar(StripBy(u, drop), a, b)
  {
    var t := ReplaceChar(u, a, b);
    SkipWhileAlike(u, t, 0, drop);
    var i := SkipWhile(u, 0, drop);
    SkipBackWhileAlike(u, t, i, |u|, drop);
    var j := SkipBackWhile(u, i, |u|, drop);
    StripByEnds(t, drop);
    StripByEnds(u, drop);
    ReplaceSlice(u, a, b, i, j);
  }

  /** The strip is the text between the two skips. */
  lemma StripByEnds(s: string, drop: char -> bool)
    ensures var i := SkipWhile(s, 0, drop);
            StripBy(s, drop) == s[i..SkipBackWhile(s, i, |s|, drop)]
  {
  }

  /** Replacing in a slice is slicing the replaced string. */
  lemma ReplaceSlice(u: string, a: char, b: char, i: nat, j: nat)
    requires i <= j <= |u|
    ensures ReplaceChar(u, a, b)[i..j] == ReplaceChar(u[i..j], a, b)
  {
    var t := ReplaceChar(u, a, b);
    forall k | 0 <= k < j - i
      ensures t[i..j][k] == ReplaceChar(u[i..j], a, b)[k]
    {
      assert t[i + k] == if u[i + k] == a then b else u[i + k];
    }
  }

  /** Replacing `a` by `b` in text drawn from `u` leaves no `a` and only
      characters of `u` or `b`, the latter only when `u` has an `a`. */
  lemma ReplaceFromText(v: string, u: string, a: char, b: char)
    requires a != b
    requires forall k :: 0 <= k < |v| ==> v[k] in u
    ensures a !in ReplaceChar(v, a, b)
    ensures forall k :: 0 <= k < |v| ==>
              ReplaceChar(v, a, b)[k] in u || (ReplaceChar(v, a, b)[k] == b && a in u)
  {
    var w := ReplaceChar(v, a, b);
    forall k | 0 <= k < |v|
      ensures w[k] != a && (w[k] in u || (w[k] == b && a in u))
    {
      assert v[k] in u;
    }
  }

  /** `s.strip()`: whitespace removed at both ends. */
  function Strip(s: string): (r: string)
    ensures NoEdgeSpace(r)
    ensures var i := SkipWhile(s, 0, IsSpace);
            && i + |r| <= |s| && r == s[i..i + |r|]
            && (forall k :: 0 <= k < i ==> IsSpace(s[k]))
            && (forall k :: i + |r| <= k < |s| ==> IsSpace(s[k]))
  {
    StripBy(s, IsSpace)
  }

  /** Every character of the strip is a character of the text. */
  lemma StripFromText(s: string)
    ensures forall k :: 0 <= k < |Strip(s)| ==> Strip(s)[k] in s
  {
    var i := SkipWhile(s, 0, IsSpace);
    forall k | 0 <= k < |Strip(s)|
      ensures Strip(s)[k] in s
    {
      assert Strip(s)[k] == s[i + k];
    }
  }

  /** A string without edge whitespace is its own strip. */
  lemma StripNoEdgeSpace(s: string)
    requires NoEdgeSpace(s)
    ensures Strip(s) == s
  {
    StripByFixed(s, IsSpace);
  }

  lemma StripIdempotent(s: string)
    ensures Strip(Strip(s)) == Strip(s)
  {
    StripNoEdgeSpace(Strip(s));
  }

  /** Lower-casing neither creates nor removes edge whitespace. */
  lemma LowerKeepsNoEdgeSpace(s: string)
    requires NoEdgeSpace(s)
    ensures NoEdgeSpace(Lower(s))
  {
  }

  lemma UpperKeepsNoEdgeSpace(s: string)
    requires NoEdgeSpace(s)
    ensures NoEdgeSpace(Upper(s))
  {
  }

  /** `s.strip().lower()`, the canonical form most normalisers start from. */
  function Canon(s: string): (r: string)
    ensures NoEdgeSpace(r)
    ensures Lower(r) == r
  {
    var t := Strip(s);
    LowerKeepsNoEdgeSpace(t);
    LowerIdempotent(t);
    Lower(t)
  }

  /** A canonical string is its own canonical form. */
  lemma CanonFixed(s: string)
    requires NoEdgeSpace(s) && Lower(s) == s
    ensures Canon(s) == s
  {
    StripNoEdgeSpace(s);
  }

  /** A trimmed string without upper-case ASCII letters is canonical. */
  lemma CanonOfLowerCase(s: string)
    requires NoEdgeSpace(s)
    requires forall i :: 0 <= i < |s| ==> !IsUpperAscii(s[i])
    ensures Canon(s) == s
  {
    LowerFixed(s);
    CanonFixed(s);
  }

  lemma CanonIdempotent(s: string)
    ensures Canon(Canon(s)) == Canon(s)
  {
    CanonFixed(Canon(s));
  }

  // ------------------------------------------------------------------
  // Python truthiness of optional strings
  // ------------------------------------------------------------------

  /** Python truthiness of a nullable string: neither None nor "". */
  predicate Truthy(o: Option<string>) {
    o.Some? && o.value != ""
  }

  /** Python's `o or default` on a nullable string. */
  function OrElse(o: Option<string>, default: string): (r: string)
    ensures Truthy(o) ==> r == o.value
    ensures !Truthy(o) ==> r == default
  {
    if Truthy(o) then o.value else default
  }

  // ------------------------------------------------------------------
  // Prefixes and replacement
  // ------------------------------------------------------------------

  /** `s.startswith(p)`. */
  predicate StartsWith(s: string, p: string) {
    |p| <= |s| && s[..|p|] == p
  }

  /** `s.replace(a, b)` for single characters. */
  function ReplaceChar(s: string, a: char, b: char): (r: string)
    ensures |r| == |s|
    ensures forall i :: 0 <= i < |s| ==> r[i] == if s[i] == a then b else s[i]
  {
    seq(|s|, i requires 0 <= i < |s| => if s[i] == a then b else s[i])
  }

  // ------------------------------------------------------------------
  // Split and join
  // ------------------------------------------------------------------

  /** `sep.join(parts)`. */
  function Join(sep: string, parts: seq<string>): string
    decreases |parts|
  {
    if |parts| == 0 then ""
    else if |parts| == 1 then parts[0]
    else parts[0] + sep + Join(sep, parts[1..])
  }

  function Count(s: string, c: char): (n: nat)
    ensures n <= |s|
  {
    if |s| == 0 then 0 else (if s[0] == c then 1 else 0) + Count(s[1..], c)
  }

  /** `s.split(sep)` for a one-character separator: never empty, one more
      piece than there are separators, and no piece contains the separator. */
  function Split(s: string, sep: char): (parts: seq<string>)
    ensures |parts| == Count(s, sep) + 1
    ensures forall k :: 0 <= k < |parts| ==> sep !in parts[k]
    decreases |s|
  {
    if |s| == 0 then [""]
    else
      var rest := Split(s[1..], sep);
      if s[0] == sep then [""] + rest
      else [[s[0]] + rest[0]] + rest[1..]
  }

  /** Joining the pieces of a split gives back the original string. */
  lemma {:induction false} JoinSplit(s: string, sep: char)
    ensures Join([sep], Split(s, sep)) == s
    decreases |s|
  {
    if |s| > 0 {
      var rest := Split(s[1..], sep);
      JoinSplit(s[1..], sep);
      if s[0] == sep {
        assert Split(s, sep) == [""] + rest;
        assert Join([sep], [""] + rest) == "" + [sep] + Join([sep], rest);
        assert s == [s[0]] + s[1..];
      } else {
        var parts := [[s[0]] + rest[0]] + rest[1..];
        assert Split(s, sep) == parts;
        if |rest| == 1 {
          assert Join([sep], parts) == [s[0]] + rest[0];
          assert Join([sep], rest) == rest[0];
        } else {
          assert parts[1..] == rest[1..];
          assert Join([sep], rest) == rest[0] + [sep] + Join([sep], rest[1..]);
          assert Join([sep], parts) == ([s[0]] + rest[0]) + [sep] + Join([sep], rest[1..]);
        }
        assert s == [s[0]] + s[1..];
      }
    }
  }

  /** Splitting a join gives back the pieces, when no piece holds the separator. */
  lemma {:induction false} SplitJoin(parts: seq<string>, sep: char)
    requires |parts| >= 1
    requires forall k :: 0 <= k < |parts| ==> sep !in parts[k]
    ensures Split(Join([sep], parts), sep) == parts
    decreases |parts|
  {
    if |parts| == 1 {
      assert Join([sep], parts) == parts[0];
      SplitNoSep(parts[0], sep);
    } else {
      var tail := Join([sep], parts[1..]);
      SplitJoin(parts[1..], sep);
      assert Join([sep], parts) == parts[0] + ([sep] + tail);
      SplitPrefix(parts[0], [sep] + tail, sep);
      assert ([sep] + tail)[1..] == tail;
    }
  }

  /** A string free of the separator splits into itself. */
  lemma {:induction false} SplitNoSep(s: string, sep: char)
    requires sep !in s
    ensures Split(s, sep) == [s]
    decreases |s|
  {
    if |s| > 0 {
      assert sep !in s[1..];
      SplitNoSep(s[1..], sep);
      assert s == [s[0]] + s[1..];
    }
  }

  /** The first piece is the text before the first separator: a prefix of
      `s` that is all of `s` or is followed by a separator. */
  lemma {:induction false} SplitHead(s: string, sep: char)
    ensures var p := Split(s, sep)[0];
            |p| <= |s| && p == s[..|p|] && (|p| == |s| || s[|p|] == sep)
    decreases |s|
  {
    if |s| > 0 && s[0] != sep {
      SplitHead(s[1..], sep);
      var q := Split(s[1..], sep)[0];
      assert Split(s, sep)[0] == [s[0]] + q;
      assert s[..|q| + 1] == [s[0]] + s[1..][..|q|];
    }
  }

  /** A separator-free prefix glues onto the first piece of what follows. */
  lemma {:induction false} SplitPrefix(a: string, b: string, sep: char)
    requires sep !in a
    requires |b| > 0 && b[0] == sep
    ensures Split(a + b, sep) == [a] + Split(b[1..], sep)
    decreases |a|
  {
    if |a| == 0 {
      assert a + b == b;
    } else {
      assert (a + b)[1..] == a[1..] + b;
      assert sep !in a[1..];
      SplitPrefix(a[1..], b, sep);
      assert [a[0]] + a[1..] == a;
    }
  }

  // ------------------------------------------------------------------
  // Decimal integers
  // ------------------------------------------------------------------

  predicate AllDigits(s: string) {
    forall i :: 0 <= i < |s| ==> IsDigit(s[i])
  }

  function DigitsValue(s: string): nat
    requires AllDigits(s)
  {
    if |s| == 0 then 0 else DigitsValue(s[..|s| - 1]) * 10 + (s[|s| - 1] as int - '0' as int)
  }

  function DigitChar(d: nat): (c: char)
    requires d < 10
    ensures IsDigit(c) && c as int - '0' as int == d
  {
    ('0' as int + d) as char
  }

  /** Decimal rendering of a natural number, without leading zeros. */
  function NatToString(n: nat): (r: string)
    ensures |r| > 0 && AllDigits(r) && DigitsValue(r) == n
    ensures |r| > 1 ==> r[0] != '0'
  {
    if n < 10 then [DigitChar(n)]
    else
      var p := NatToString(n / 10);
      var r := p + [DigitChar(n % 10)];
      assert r[..|r| - 1] == p;
      r
  }

  /** Python's `str(i)` for an integer. */
  function IntToString(i: int): (r: string)
    ensures |r| > 0 && NoEdgeSpace(r)
  {
    if i < 0 then "-" + NatToString(-i) else NatToString(i)
  }

  /** Python's `int(s)` on a string: surrounding whitespace, an optional sign
      and at least one ASCII digit. None stands for the `ValueError` it raises. */
  function ParseInt(s: string): (r: Option<int>)
    ensures r.Some? ==> |Strip(s)| > 0
  {
    var t := Strip(s);
    if |t| > 0 && (t[0] == '-' || t[0] == '+') then
      var d := t[1..];
      var v: int := if |d| > 0 && AllDigits(d) then DigitsValue(d) else 0;
      if |d| > 0 && AllDigits(d) then Some(if t[0] == '-' then -v else v)
      else None
    else if |t| > 0 && AllDigits(t) then Some(DigitsValue(t))
    else None
  }

  /** Parsing the rendering of an integer gives the integer back. */
  lemma ParseIntToString(i: int)
    ensures ParseInt(IntToString(i)) == Some(i)
  {
    var s := IntToString(i);
    StripNoEdgeSpace(s);
    if i < 0 {
      assert s[1..] == NatToString(-i);
    }
  }
}
