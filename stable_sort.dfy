/**
 * Python's `sorted(xs, key=key, reverse=True)` on integer keys: a stable sort
 * into non-increasing key order, where elements with equal keys keep the
 * order they had in `xs`.
 */
module StableSort {

  /** Every element's key is at least the key of every later element. */
  predicate NonIncreasing<T>(s: seq<T>, key: T -> int) {
    forall i, j :: 0 <= i < j < |s| ==> key(s[i]) >= key(s[j])
  }

  /** The elements of `s` whose key is `k`, in their order in `s`. */
  function WithKey<T>(s: seq<T>, key: T -> int, k: int): seq<T> {
    if |s| == 0 then []
    else (if key(s[0]) == k then [s[0]] else []) + WithKey(s[1..], key, k)
  }

  /** `WithKey(s, key, k)` holds only elements of `s`, and only ones whose key is `k`. */
  lemma {:induction false} WithKeyMembers<T>(s: seq<T>, key: T -> int, k: int)
    ensures forall i :: 0 <= i < |WithKey(s, key, k)| ==>
      WithKey(s, key, k)[i] in s && key(WithKey(s, key, k)[i]) == k
  {
    if |s| > 0 {
      WithKeyMembers(s[1..], key, k);
      var h := if key(s[0]) == k then [s[0]] else [];
      forall i | 0 <= i < |WithKey(s, key, k)|
        ensures WithKey(s, key, k)[i] in s && key(WithKey(s, key, k)[i]) == k
      {
        if i >= |h| {
          assert WithKey(s, key, k)[i] == WithKey(s[1..], key, k)[i - |h|];
          assert WithKey(s[1..], key, k)[i - |h|] in s[1..];
        }
      }
    }
  }

  /** `t` lists, for every key, the same elements as `s` in the same order. */
  ghost predicate SameOrderPerKey<T>(t: seq<T>, s: seq<T>, key: T -> int) {
    forall k :: WithKey(t, key, k) == WithKey(s, key, k)
  }

  /**
   * Places `x` in front of the first element whose key does not exceed
   * `key(x)`: ahead of the elements with the same key, which came later.
   */
  function InsertDesc<T>(x: T, s: seq<T>, key: T -> int): (r: seq<T>)
    ensures multiset(r) == multiset(s) + multiset{x}
  {
    if |s| == 0 || key(s[0]) <= key(x) then [x] + s
    else
      assert s == [s[0]] + s[1..];
      [s[0]] + InsertDesc(x, s[1..], key)
  }

  /** The stable descending sort, by insertion from the back of the input. */
  function SortDesc<T>(s: seq<T>, key: T -> int): (r: seq<T>)
    ensures multiset(r) == multiset(s)
  {
    if |s| == 0 then []
    else
      assert s == [s[0]] + s[1..];
      InsertDesc(s[0], SortDesc(s[1..], key), key)
  }

  /** Inserting an element whose key is at most `m` into keys at most `m` keeps them at most `m`. */
  lemma {:induction false} InsertBounded<T>(x: T, s: seq<T>, key: T -> int, m: int)
    requires key(x) <= m
    requires forall i :: 0 <= i < |s| ==> key(s[i]) <= m
    ensures forall i :: 0 <= i < |InsertDesc(x, s, key)| ==> key(InsertDesc(x, s, key)[i]) <= m
  {
    if |s| > 0 && key(s[0]) > key(x) {
      var rest := InsertDesc(x, s[1..], key);
      InsertBounded(x, s[1..], key, m);
      assert InsertDesc(x, s, key) == [s[0]] + rest;
    }
  }

  lemma {:induction false} InsertNonIncreasing<T>(x: T, s: seq<T>, key: T -> int)
    requires NonIncreasing(s, key)
    ensures NonIncreasing(InsertDesc(x, s, key), key)
  {
    if |s| > 0 && key(s[0]) > key(x) {
      var rest := InsertDesc(x, s[1..], key);
      NonIncreasingTail(s, key);
      InsertNonIncreasing(x, s[1..], key);
      InsertBounded(x, s[1..], key, key(s[0]));
      var r := [s[0]] + rest;
      assert InsertDesc(x, s, key) == r;
      forall i, j | 0 <= i < j < |r| ensures key(r[i]) >= key(r[j]) {
        assert r[j] == rest[j - 1];
        if i > 0 {
          assert r[i] == rest[i - 1];
        }
      }
    }
  }

  /** The output of the sort is in non-increasing key order. */
  lemma {:induction false} SortDescNonIncreasing<T>(s: seq<T>, key: T -> int)
    ensures NonIncreasing(SortDesc(s, key), key)
  {
    if |s| > 0 {
      SortDescNonIncreasing(s[1..], key);
      InsertNonIncreasing(s[0], SortDesc(s[1..], key), key);
    }
  }

  lemma WithKeyCons<T>(x: T, s: seq<T>, key: T -> int, k: int)
    ensures WithKey([x] + s, key, k) == (if key(x) == k then [x] else []) + WithKey(s, key, k)
  {
    assert ([x] + s)[1..] == s;
  }

  lemma {:induction false} WithKeyAppend<T>(a: seq<T>, b: seq<T>, key: T -> int, k: int)
    ensures WithKey(a + b, key, k) == WithKey(a, key, k) + WithKey(b, key, k)
    decreases |a|
  {
    if |a| > 0 {
      var h := if key(a[0]) == k then [a[0]] else [];
      assert a + b == [a[0]] + (a[1..] + b);
      assert a == [a[0]] + a[1..];
      WithKeyCons(a[0], a[1..] + b, key, k);
      WithKeyCons(a[0], a[1..], key, k);
      WithKeyAppend(a[1..], b, key, k);
      assert h + (WithKey(a[1..], key, k) + WithKey(b, key, k))
          == (h + WithKey(a[1..], key, k)) + WithKey(b, key, k);
    } else {
      assert a + b == b;
    }
  }

  lemma {:induction false} InsertWithKey<T>(x: T, s: seq<T>, key: T -> int, k: int)
    ensures WithKey(InsertDesc(x, s, key), key, k)
         == (if key(x) == k then [x] else []) + WithKey(s, key, k)
    decreases |s|, 1
  {
    if |s| == 0 || key(s[0]) <= key(x) {
      WithKeyCons(x, s, key, k);
    } else {
      InsertWithKeyPast(x, s, key, k);
    }
  }

  lemma {:induction false} InsertWithKeyPast<T>(x: T, s: seq<T>, key: T -> int, k: int)
    requires |s| > 0 && key(s[0]) > key(x)
    ensures WithKey(InsertDesc(x, s, key), key, k)
         == (if key(x) == k then [x] else []) + WithKey(s, key, k)
    decreases |s|, 0
  {
    var rest := InsertDesc(x, s[1..], key);
    var hs := if key(s[0]) == k then [s[0]] else [];
    var hx := if key(x) == k then [x] else [];
    var w := WithKey(s[1..], key, k);
    assert InsertDesc(x, s, key) == [s[0]] + rest;
    WithKeyCons(s[0], rest, key, k);
    InsertWithKey(x, s[1..], key, k);
    assert WithKey(s, key, k) == hs + w;
    SwapHeads(hs, hx, w);
  }

  lemma SwapHeads<T>(a: seq<T>, b: seq<T>, w: seq<T>)
    requires a == [] || b == []
    ensures a + (b + w) == b + (a + w)
  {
    if a == [] {
      assert a + (b + w) == b + w == b + (a + w);
    } else {
      assert a + (b + w) == a + w == b + (a + w);
    }
  }

  /** Stability: for every key, the sort keeps the input order of the elements with that key. */
  lemma {:induction false} SortDescStable<T>(s: seq<T>, key: T -> int)
    ensures SameOrderPerKey(SortDesc(s, key), s, key)
  {
    if |s| > 0 {
      SortDescStable(s[1..], key);
      forall k ensures WithKey(SortDesc(s, key), key, k) == WithKey(s, key, k) {
        InsertWithKey(s[0], SortDesc(s[1..], key), key, k);
      }
    }
  }

  lemma NonEmptyPerKey<T>(t: seq<T>, s: seq<T>, key: T -> int)
    requires SameOrderPerKey(t, s, key) && |s| > 0
    ensures |t| > 0
  {
    var k := key(s[0]);
    assert s == [s[0]] + s[1..];
    WithKeyCons(s[0], s[1..], key, k);
    assert WithKey(t, key, k) != [];
  }

  lemma HeadHasLargestKey<T>(t: seq<T>, key: T -> int, y: T)
    requires NonIncreasing(t, key) && y in t
    ensures key(y) <= key(t[0])
  {
    var j :| 0 <= j < |t| && t[j] == y;
    if j > 0 {
      assert key(t[0]) >= key(t[j]);
    }
  }

  /**
   * Two non-increasing sequences that agree on the order of every key's
   * elements are equal.
   */
  lemma {:induction false} NonIncreasingUnique<T>(t1: seq<T>, t2: seq<T>, key: T -> int)
    requires NonIncreasing(t1, key) && NonIncreasing(t2, key)
    requires SameOrderPerKey(t1, t2, key)
    ensures t1 == t2
    decreases |t1|
  {
    if |t2| > 0 {
      NonEmptyPerKey(t1, t2, key);
    }
    if |t1| > 0 {
      assert SameOrderPerKey(t2, t1, key);
      NonEmptyPerKey(t2, t1, key);
    }
    if |t1| > 0 && |t2| > 0 {
      var k1, k2 := key(t1[0]), key(t2[0]);
      assert WithKey(t1, key, k1)[0] == t1[0];
      assert WithKey(t2, key, k2)[0] == t2[0];
      WithKeyMembers(t1, key, k2);
      WithKeyMembers(t2, key, k1);
      HeadHasLargestKey(t2, key, WithKey(t2, key, k1)[0]);
      HeadHasLargestKey(t1, key, WithKey(t1, key, k2)[0]);
      assert k1 == k2;
      assert t1[0] == t2[0];
      assert t1 == [t1[0]] + t1[1..];
      assert t2 == [t2[0]] + t2[1..];
      forall k ensures WithKey(t1[1..], key, k) == WithKey(t2[1..], key, k) {
        assert WithKey(t1, key, k) == WithKey(t2, key, k);
        WithKeyCons(t1[0], t1[1..], key, k);
        WithKeyCons(t2[0], t2[1..], key, k);
        var h := if key(t1[0]) == k then [t1[0]] else [];
        assert h + WithKey(t1[1..], key, k) == h + WithKey(t2[1..], key, k);
        assert WithKey(t1[1..], key, k) == (h + WithKey(t1[1..], key, k))[|h|..];
        assert WithKey(t2[1..], key, k) == (h + WithKey(t2[1..], key, k))[|h|..];
      }
      NonIncreasingTail(t1, key);
      NonIncreasingTail(t2, key);
      NonIncreasingUnique(t1[1..], t2[1..], key);
    }
  }

  lemma NonIncreasingTail<T>(t: seq<T>, key: T -> int)
    requires NonIncreasing(t, key) && |t| > 0
    ensures NonIncreasing(t[1..], key)
  {
    forall i, j | 0 <= i < j < |t| - 1 ensures key(t[1..][i]) >= key(t[1..][j]) {
      assert t[1..][i] == t[i + 1] && t[1..][j] == t[j + 1];
    }
  }

  /**
   * What `sorted(s, key=key, reverse=True)` returns is characterised without
   * reference to any algorithm: `t` is the sort of `s` exactly when `t` is in
   * non-increasing key order and keeps, for every key, the input order.
   */
  lemma SortDescCharacterized<T>(s: seq<T>, t: seq<T>, key: T -> int)
    ensures t == SortDesc(s, key) <==> NonIncreasing(t, key) && SameOrderPerKey(t, s, key)
  {
    SortDescNonIncreasing(s, key);
    SortDescStable(s, key);
    if NonIncreasing(t, key) && SameOrderPerKey(t, s, key) {
      NonIncreasingUnique(t, SortDesc(s, key), key);
    }
  }

  /** Sorting an already sorted sequence changes nothing. */
  lemma SortDescIdempotent<T>(s: seq<T>, key: T -> int)
    ensures SortDesc(SortDesc(s, key), key) == SortDesc(s, key)
  {
    var t := SortDesc(s, key);
    SortDescNonIncreasing(s, key);
    SortDescCharacterized(t, t, key);
  }
}
