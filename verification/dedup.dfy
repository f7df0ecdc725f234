/** Keeping the first occurrence of each key.

    `PushDedup` is `_push_dedup` from db/examples_dal.py: append an item to a
    bucket unless an item with the same key is already there. `DedupBy`
    pushes every element of a sequence in turn; it is also the shape of the
    `seen`-set loops in example_detail and of `DISTINCT ON` over a sorted
    relation. */
module Dedup {

  predicate HasKey<T, K(==)>(s: seq<T>, key: T -> K, k: K) {
    exists i :: 0 <= i < |s| && key(s[i]) == k
  }

  ghost predicate UniqueKeys<T, K>(s: seq<T>, key: T -> K) {
    forall i, j :: 0 <= i < j < |s| ==> key(s[i]) != key(s[j])
  }

  /** The position of the first element of `s` whose key is `k`. */
  function FirstIndex<T, K(==)>(s: seq<T>, key: T -> K, k: K): (i: nat)
    requires HasKey(s, key, k)
    ensures i < |s| && key(s[i]) == k
    ensures forall j :: 0 <= j < i ==> key(s[j]) != k
  {
    if key(s[0]) == k then 0
    else
      assert exists i :: 1 <= i < |s| && key(s[i]) == k;
      var i :| 1 <= i < |s| && key(s[i]) == k;
      assert key(s[1..][i - 1]) == k;
      1 + FirstIndex(s[1..], key, k)
  }

  /** `_push_dedup(bucket, item)`: the bucket is returned unchanged when it
      already holds an item with the same key, and extended by `item` otherwise. */
  function PushDedup<T, K(==)>(bucket: seq<T>, item: T, key: T -> K): (r: seq<T>)
    ensures |bucket| <= |r| <= |bucket| + 1 && r[..|bucket|] == bucket
    ensures |r| > |bucket| ==> r[|bucket|] == item
    ensures |r| > |bucket| <==> !HasKey(bucket, key, key(item))
    ensures HasKey(r, key, key(item))
  {
    var r := if HasKey(bucket, key, key(item)) then bucket else bucket + [item];
    assert key(r[|r| - 1]) == key(item) || HasKey(bucket, key, key(item));
    r
  }

  /** Pushing adds no key but the item's: every key of the result is the
      item's or already a key of the bucket. */
  lemma PushDedupKeys<T, K>(bucket: seq<T>, item: T, key: T -> K)
    ensures var r := PushDedup(bucket, item, key);
            forall i :: 0 <= i < |r| ==> key(r[i]) == key(item) || HasKey(bucket, key, key(r[i]))
  {
    var r := PushDedup(bucket, item, key);
    forall i | 0 <= i < |r| ensures key(r[i]) == key(item) || HasKey(bucket, key, key(r[i])) {
      if i < |bucket| {
        assert r[i] == bucket[i];
      }
    }
  }

  /** Pushing never breaks key uniqueness. */
  lemma PushDedupKeepsUnique<T, K>(bucket: seq<T>, item: T, key: T -> K)
    requires UniqueKeys(bucket, key)
    ensures UniqueKeys(PushDedup(bucket, item, key), key)
  {
  }

  /** Pushing every element of `s`, first to last, onto an empty bucket. */
  function DedupBy<T, K(==)>(s: seq<T>, key: T -> K): (r: seq<T>)
    ensures |r| <= |s|
    decreases |s|
  {
    if |s| == 0 then []
    else PushDedup(DedupBy(s[..|s| - 1], key), s[|s| - 1], key)
  }

  /** The dedup keeps exactly the keys of its input, once each, and every
      element it keeps is the first element of the input with that key. */
  lemma {:induction false} DedupByFirstOccurrences<T, K>(s: seq<T>, key: T -> K)
    ensures UniqueKeys(DedupBy(s, key), key)
    ensures forall k :: HasKey(DedupBy(s, key), key, k) <==> HasKey(s, key, k)
    ensures forall i :: 0 <= i < |DedupBy(s, key)| ==>
              HasKey(s, key, key(DedupBy(s, key)[i])) &&
              DedupBy(s, key)[i] == s[FirstIndex(s, key, key(DedupBy(s, key)[i]))]
    decreases |s|
  {
    if |s| > 0 {
      var p := s[..|s| - 1];
      var x := s[|s| - 1];
      var d := DedupBy(p, key);
      DedupByFirstOccurrences(p, key);
      var r := DedupBy(s, key);
      assert r == PushDedup(d, x, key);
      assert p + [x] == s;
      forall k
        ensures HasKey(r, key, k) <==> HasKey(s, key, k)
      {
        HasKeyAppend(p, [x], key, k);
        HasKeyAppend(d, [x], key, k);
      }
      forall i | 0 <= i < |r|
        ensures HasKey(s, key, key(r[i])) && r[i] == s[FirstIndex(s, key, key(r[i]))]
      {
        var k := key(r[i]);
        assert HasKey(r, key, k);
        if i < |d| {
          assert r[i] == d[i];
          assert HasKey(p, key, k);
          FirstIndexPrefix(p, x, key, k);
          assert p + [x] == s;
        } else {
          assert r[i] == x;
          assert !HasKey(d, key, k);
          assert !HasKey(p, key, k);
          assert p + [x] == s;
          FirstIndexLast(p, x, key);
        }
      }
    }
  }

  lemma HasKeyAppend<T, K>(a: seq<T>, b: seq<T>, key: T -> K, k: K)
    ensures HasKey(a + b, key, k) <==> HasKey(a, key, k) || HasKey(b, key, k)
  {
    if HasKey(a + b, key, k) {
      var i :| 0 <= i < |a + b| && key((a + b)[i]) == k;
      if i >= |a| {
        assert key(b[i - |a|]) == k;
      }
    }
    if HasKey(b, key, k) {
      var i :| 0 <= i < |b| && key(b[i]) == k;
      assert key((a + b)[i + |a|]) == k;
    }
    if HasKey(a, key, k) {
      var i :| 0 <= i < |a| && key(a[i]) == k;
      assert key((a + b)[i]) == k;
    }
  }

  lemma FirstIndexPrefix<T, K>(p: seq<T>, x: T, key: T -> K, k: K)
    requires HasKey(p, key, k)
    ensures HasKey(p + [x], key, k)
    ensures FirstIndex(p + [x], key, k) == FirstIndex(p, key, k)
  {
    var i := FirstIndex(p, key, k);
    assert key((p + [x])[i]) == k;
    var j := FirstIndex(p + [x], key, k);
    assert (p + [x])[j] == p[j] || j == |p|;
  }

  lemma FirstIndexLast<T, K>(p: seq<T>, x: T, key: T -> K)
    requires !HasKey(p, key, key(x))
    ensures HasKey(p + [x], key, key(x))
    ensures FirstIndex(p + [x], key, key(x)) == |p|
  {
    assert key((p + [x])[|p|]) == key(x);
    assert forall j :: 0 <= j < |p| ==> (p + [x])[j] == p[j];
  }

  /** Every element the dedup keeps comes from its input. */
  lemma {:induction false} DedupBySubset<T, K>(s: seq<T>, key: T -> K)
    ensures forall x :: x in DedupBy(s, key) ==> x in s
    decreases |s|
  {
    if |s| > 0 {
      DedupBySubset(s[..|s| - 1], key);
      assert forall x :: x in s[..|s| - 1] ==> x in s;
    }
  }

  /** Every key of the input is kept. */
  lemma DedupByCovers<T, K>(s: seq<T>, key: T -> K)
    ensures forall i :: 0 <= i < |s| ==> HasKey(DedupBy(s, key), key, key(s[i]))
  {
    DedupByFirstOccurrences(s, key);
    forall i | 0 <= i < |s|
      ensures HasKey(DedupBy(s, key), key, key(s[i]))
    {
      assert HasKey(s, key, key(s[i]));
    }
  }

  /** The element kept at position `i` is the first of its key in the input. */
  lemma DedupByKeepsFirst<T, K>(s: seq<T>, key: T -> K, i: nat)
    requires i < |DedupBy(s, key)|
    ensures HasKey(s, key, key(DedupBy(s, key)[i]))
    ensures DedupBy(s, key)[i] == s[FirstIndex(s, key, key(DedupBy(s, key)[i]))]
  {
    DedupByFirstOccurrences(s, key);
  }

  /** The element kept at `i` sits in the input no later than any input
      element with the same key. */
  lemma DedupByKeptBefore<T, K>(s: seq<T>, key: T -> K, i: nat, k: nat) returns (f: nat)
    requires i < |DedupBy(s, key)| && k < |s|
    requires key(s[k]) == key(DedupBy(s, key)[i])
    ensures f <= k < |s| && DedupBy(s, key)[i] == s[f]
  {
    DedupByKeepsFirst(s, key, i);
    f := FirstIndex(s, key, key(DedupBy(s, key)[i]));
  }

  /** A sequence whose keys are already unique is its own dedup, so
      deduplicating twice is the same as deduplicating once. */
  lemma {:induction false} DedupByUnique<T, K>(s: seq<T>, key: T -> K)
    requires UniqueKeys(s, key)
    ensures DedupBy(s, key) == s
    decreases |s|
  {
    if |s| > 0 {
      var p := s[..|s| - 1];
      assert UniqueKeys(p, key);
      DedupByUnique(p, key);
      DedupByFirstOccurrences(p, key);
      assert !HasKey(p, key, key(s[|s| - 1])) by {
        forall i | 0 <= i < |p|
          ensures key(p[i]) != key(s[|s| - 1])
        {
          assert p[i] == s[i];
        }
      }
      assert p + [s[|s| - 1]] == s;
    }
  }

  lemma DedupByIdempotent<T, K>(s: seq<T>, key: T -> K)
    ensures DedupBy(DedupBy(s, key), key) == DedupBy(s, key)
  {
    DedupByFirstOccurrences(s, key);
    DedupByUnique(DedupBy(s, key), key);
  }

  // ------------------------------------------------------------------
  // Permutations
  // ------------------------------------------------------------------

  /** An element at two positions occurs at least twice. */
  lemma MultisetTwice<T>(s: seq<T>, i: nat, j: nat)
    requires i < j < |s| && s[i] == s[j]
    ensures multiset(s)[s[i]] >= 2
  {
    assert s == s[..i] + [s[i]] + s[i + 1..j] + [s[j]] + s[j + 1..];
  }

  /** In a sequence without repeats every element occurs at most once. */
  lemma {:induction false} MultisetOnce<T>(d: seq<T>, x: T)
    requires forall p, q :: 0 <= p < q < |d| ==> d[p] != d[q]
    ensures multiset(d)[x] <= 1
    decreases |d|
  {
    if |d| > 0 {
      MultisetOnce(d[1..], x);
      assert d == [d[0]] + d[1..];
      if d[0] == x {
        assert x !in d[1..];
      }
    }
  }

  /** Reordering a sequence whose keys are unique keeps them unique. */
  lemma UniqueKeysPermutation<T, K>(s: seq<T>, r: seq<T>, key: T -> K)
    requires UniqueKeys(s, key)
    requires multiset(r) == multiset(s)
    ensures UniqueKeys(r, key)
  {
    forall i, j | 0 <= i < j < |r|
      ensures key(r[i]) != key(r[j])
    {
      assert r[i] in multiset(s) && r[j] in multiset(s);
      var p :| 0 <= p < |s| && s[p] == r[i];
      var q :| 0 <= q < |s| && s[q] == r[j];
      if r[i] == r[j] {
        MultisetTwice(r, i, j);
        MultisetOnce(s, r[i]);
      } else {
        assert p != q;
      }
    }
  }
}
