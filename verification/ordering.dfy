/** Sort keys and a stable sort.

    Every `ORDER BY` in the SQL queries and every Python `list.sort(key=…)` in
    the model goes through `SortByKey`. A key is a sequence of parts compared
    lexicographically; a part is a number, a text or a NULL. Texts compare by
    code point (the "C" collation), and NULL sorts after every text and
    number, which is PostgreSQL's default for ascending order. */
module Ordering {

  datatype KeyPart = Num(x: real) | Text(s: string) | Null

  type Key = seq<KeyPart>

  /** Code-point lexicographic order; a proper prefix sorts first. */
  predicate StrLe(a: string, b: string)
    decreases |a|
  {
    |a| == 0 || (|b| > 0 && (a[0] < b[0] || (a[0] == b[0] && StrLe(a[1..], b[1..]))))
  }

  function Rank(p: KeyPart): nat {
    match p
    case Num(_) => 0
    case Text(_) => 1
    case Null => 2
  }

  predicate PartLe(p: KeyPart, q: KeyPart) {
    Rank(p) < Rank(q)
    || (p.Num? && q.Num? && p.x <= q.x)
    || (p.Text? && q.Text? && StrLe(p.s, q.s))
    || (p.Null? && q.Null?)
  }

  /** Lexicographic order on keys; a proper prefix sorts first. */
  predicate KeyLe(a: Key, b: Key)
    decreases |a|
  {
    |a| == 0 || (|b| > 0 && ((PartLe(a[0], b[0]) && a[0] != b[0]) || (a[0] == b[0] && KeyLe(a[1..], b[1..]))))
  }

  // ------------------------------------------------------------------
  // KeyLe is a total order
  // ------------------------------------------------------------------

  lemma {:induction false} StrLeTotal(a: string, b: string)
    ensures StrLe(a, b) || StrLe(b, a)
    decreases |a|
  {
    if |a| > 0 && |b| > 0 && a[0] == b[0] {
      StrLeTotal(a[1..], b[1..]);
    }
  }

  lemma {:induction false} StrLeAntisymmetric(a: string, b: string)
    requires StrLe(a, b) && StrLe(b, a)
    ensures a == b
    decreases |a|
  {
    if |a| > 0 {
      StrLeAntisymmetric(a[1..], b[1..]);
      assert a == [a[0]] + a[1..] && b == [b[0]] + b[1..];
    }
  }

  lemma {:induction false} StrLeTransitive(a: string, b: string, c: string)
    requires StrLe(a, b) && StrLe(b, c)
    ensures StrLe(a, c)
    decreases |a|
  {
    if |a| > 0 && a[0] == b[0] && b[0] == c[0] {
      StrLeTransitive(a[1..], b[1..], c[1..]);
    }
  }

  lemma PartLeTotal(p: KeyPart, q: KeyPart)
    ensures PartLe(p, q) || PartLe(q, p)
  {
    if p.Text? && q.Text? {
      StrLeTotal(p.s, q.s);
    }
  }

  lemma PartLeAntisymmetric(p: KeyPart, q: KeyPart)
    requires PartLe(p, q) && PartLe(q, p)
    ensures p == q
  {
    if p.Text? && q.Text? {
      StrLeAntisymmetric(p.s, q.s);
    }
  }

  lemma PartLeTransitive(p: KeyPart, q: KeyPart, r: KeyPart)
    requires PartLe(p, q) && PartLe(q, r)
    ensures PartLe(p, r)
  {
    if p.Text? && q.Text? && r.Text? {
      StrLeTransitive(p.s, q.s, r.s);
    }
  }

  lemma {:induction false} KeyLeTotal(a: Key, b: Key)
    ensures KeyLe(a, b) || KeyLe(b, a)
    decreases |a|
  {
    if |a| > 0 && |b| > 0 {
      if a[0] == b[0] {
        KeyLeTotal(a[1..], b[1..]);
      } else {
        PartLeTotal(a[0], b[0]);
      }
    }
  }

  lemma {:induction false} StrLeReflexive(a: string)
    ensures StrLe(a, a)
    decreases |a|
  {
    if |a| > 0 {
      StrLeReflexive(a[1..]);
    }
  }

  lemma PartLeReflexive(p: KeyPart)
    ensures PartLe(p, p)
  {
    if p.Text? {
      StrLeReflexive(p.s);
    }
  }

  lemma {:induction false} KeyLeReflexive(a: Key)
    ensures KeyLe(a, a)
    decreases |a|
  {
    if |a| > 0 {
      KeyLeReflexive(a[1..]);
    }
  }

  lemma {:induction false} KeyLeTransitive(a: Key, b: Key, c: Key)
    requires KeyLe(a, b) && KeyLe(b, c)
    ensures KeyLe(a, c)
    decreases |a|
  {
    if |a| > 0 {
      assert |b| > 0 && |c| > 0;
      if a[0] == b[0] && b[0] == c[0] {
        KeyLeTransitive(a[1..], b[1..], c[1..]);
      } else {
        PartLeReflexive(a[0]);
        PartLeReflexive(b[0]);
        assert PartLe(a[0], b[0]);
        assert PartLe(b[0], c[0]);
        PartLeTransitive(a[0], b[0], c[0]);
        if a[0] == c[0] {
          PartLeAntisymmetric(a[0], b[0]);
          assert false;
        }
      }
    }
  }

  lemma {:induction false} KeyLeAntisymmetric(a: Key, b: Key)
    requires KeyLe(a, b) && KeyLe(b, a)
    ensures a == b
    decreases |a|
  {
    if |a| > 0 {
      if a[0] == b[0] {
        KeyLeAntisymmetric(a[1..], b[1..]);
        assert a == [a[0]] + a[1..] && b == [b[0]] + b[1..];
      } else {
        PartLeAntisymmetric(a[0], b[0]);
      }
    }
  }

  // ------------------------------------------------------------------
  // Stable sort
  // ------------------------------------------------------------------

  ghost predicate SortedBy<T>(s: seq<T>, key: T -> Key) {
    forall i, j :: 0 <= i < j < |s| ==> KeyLe(key(s[i]), key(s[j]))
  }

  /** The elements of `s` whose key is `k`, in their order in `s`. */
  function WithKey<T>(s: seq<T>, key: T -> Key, k: Key): (r: seq<T>)
    ensures |r| <= |s|
  {
    if |s| == 0 then []
    else (if key(s[0]) == k then [s[0]] else []) + WithKey(s[1..], key, k)
  }

  lemma {:induction false} WithKeyAppend<T>(a: seq<T>, b: seq<T>, key: T -> Key, k: Key)
    ensures WithKey(a + b, key, k) == WithKey(a, key, k) + WithKey(b, key, k)
    decreases |a|
  {
    if |a| > 0 {
      assert (a + b)[0] == a[0];
      assert (a + b)[1..] == a[1..] + b;
      WithKeyAppend(a[1..], b, key, k);
    } else {
      assert a + b == b;
    }
  }

  /** Insert `x` before the first element whose key is not smaller than its own. */
  function InsertByKey<T(==)>(x: T, s: seq<T>, key: T -> Key): (r: seq<T>)
    ensures multiset(r) == multiset(s) + multiset{x}
    ensures |r| == |s| + 1
    decreases |s|
  {
    if |s| == 0 then [x]
    else if KeyLe(key(x), key(s[0])) then [x] + s
    else
      assert s == [s[0]] + s[1..];
      [s[0]] + InsertByKey(x, s[1..], key)
  }

  /** A lower bound on every key survives the insertion of an element above it. */
  lemma {:induction false} InsertLowerBound<T>(x: T, s: seq<T>, key: T -> Key, b: Key)
    requires KeyLe(b, key(x))
    requires forall i :: 0 <= i < |s| ==> KeyLe(b, key(s[i]))
    ensures forall j :: 0 <= j < |InsertByKey(x, s, key)| ==> KeyLe(b, key(InsertByKey(x, s, key)[j]))
    decreases |s|
  {
    if |s| > 0 && !KeyLe(key(x), key(s[0])) {
      InsertLowerBound(x, s[1..], key, b);
    }
  }

  lemma {:induction false} InsertSorted<T>(x: T, s: seq<T>, key: T -> Key)
    requires SortedBy(s, key)
    ensures SortedBy(InsertByKey(x, s, key), key)
    decreases |s|
  {
    var r := InsertByKey(x, s, key);
    if |s| == 0 {
    } else if KeyLe(key(x), key(s[0])) {
      forall i, j | 0 <= i < j < |r|
        ensures KeyLe(key(r[i]), key(r[j]))
      {
        if i == 0 && j > 1 {
          KeyLeTransitive(key(x), key(s[0]), key(s[j - 1]));
        }
      }
    } else {
      KeyLeTotal(key(x), key(s[0]));
      InsertSorted(x, s[1..], key);
      InsertLowerBound(x, s[1..], key, key(s[0]));
      var t := InsertByKey(x, s[1..], key);
      assert r == [s[0]] + t;
      forall i, j | 0 <= i < j < |r|
        ensures KeyLe(key(r[i]), key(r[j]))
      {
        if i > 0 {
          assert r[i] == t[i - 1] && r[j] == t[j - 1];
        }
      }
    }
  }

  /** Insertion keeps equal-key elements in order: `x` lands before every
      element whose key equals its own. */
  lemma {:induction false} InsertStable<T>(x: T, s: seq<T>, key: T -> Key, k: Key)
    ensures WithKey(InsertByKey(x, s, key), key, k) == WithKey([x] + s, key, k)
    decreases |s|
  {
    if |s| > 0 && !KeyLe(key(x), key(s[0])) {
      KeyLeReflexive(key(x));
      assert key(x) != key(s[0]);
      var t := InsertByKey(x, s[1..], key);
      InsertStable(x, s[1..], key, k);
      WithKeyAppend([s[0]], t, key, k);
      WithKeyAppend([s[0]], [x] + s[1..], key, k);
      WithKeyAppend([s[0]], [x], key, k);
      WithKeyAppend([x], [s[0]], key, k);
      WithKeyAppend([x], s[1..], key, k);
      WithKeyAppend([s[0]] + [x], s[1..], key, k);
      WithKeyAppend([x] + [s[0]], s[1..], key, k);
      assert [s[0]] + ([x] + s[1..]) == ([s[0]] + [x]) + s[1..];
      assert [x] + s == ([x] + [s[0]]) + s[1..];
    }
  }

  /** A stable sort: the result is ordered by key, is a permutation of the
      input, and elements with equal keys keep their relative order. This is
      Python's `list.sort(key=…)` and, with ties left in input order, an SQL
      `ORDER BY`. */
  function SortByKey<T(==)>(s: seq<T>, key: T -> Key): (r: seq<T>)
    ensures SortedBy(r, key)
    ensures multiset(r) == multiset(s)
    ensures |r| == |s|
    ensures forall k :: WithKey(r, key, k) == WithKey(s, key, k)
    decreases |s|
  {
    if |s| == 0 then []
    else
      var t := SortByKey(s[1..], key);
      InsertSorted(s[0], t, key);
      var r := InsertByKey(s[0], t, key);
      assert s == [s[0]] + s[1..];
      assert forall k :: WithKey(r, key, k) == WithKey(s, key, k) by {
        forall k
          ensures WithKey(r, key, k) == WithKey(s, key, k)
        {
          InsertStable(s[0], t, key, k);
          WithKeyAppend([s[0]], t, key, k);
          WithKeyAppend([s[0]], s[1..], key, k);
        }
      }
      r
  }

  /** An already-sorted sequence is left unchanged by the sort. */
  lemma {:induction false} SortSortedIsIdentity<T>(s: seq<T>, key: T -> Key)
    requires SortedBy(s, key)
    ensures SortByKey(s, key) == s
    decreases |s|
  {
    if |s| > 0 {
      assert SortedBy(s[1..], key);
      SortSortedIsIdentity(s[1..], key);
      assert SortByKey(s[1..], key) == s[1..];
      if |s| > 1 {
        assert KeyLe(key(s[0]), key(s[1]));
      }
      assert s == [s[0]] + s[1..];
    }
  }
}
