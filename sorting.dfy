/**
 * Python's `list.sort(key=...)` and `sorted(...)`: a stable sort by a key
 * compared with the key type's `<`. The model sorts by insertion; the lemmas
 * below pin the result down completely (a permutation, ordered by key, and
 * each group of equal keys in input order), so any stable sort gives it.
 */
module Sorting {
  import opened Lists

  /** `lt` behaves like Python's `<` on the key type: a strict total order. */
  ghost predicate StrictTotalOrder<K(!new)>(lt: (K, K) -> bool) {
    && (forall a :: !lt(a, a))
    && (forall a, b, c :: lt(a, b) && lt(b, c) ==> lt(a, c))
    && (forall a, b :: a == b || lt(a, b) || lt(b, a))
  }

  /** No element's key is smaller than the key of an element before it. */
  predicate SortedBy<T, K>(xs: seq<T>, key: T -> K, lt: (K, K) -> bool) {
    forall i, j :: 0 <= i < j < |xs| ==> !lt(key(xs[j]), key(xs[i]))
  }

  /** The elements of `xs` whose key is `k`, in their order in `xs`. */
  function WithKey<T, K(==)>(xs: seq<T>, key: T -> K, k: K): (r: seq<T>)
    ensures |r| <= |xs|
    ensures forall i :: 0 <= i < |r| ==> key(r[i]) == k
  {
    if xs == [] then []
    else (if key(xs[0]) == k then [xs[0]] else []) + WithKey(xs[1..], key, k)
  }

  /** Places `x` after every element whose key is not greater than its own. */
  function Insert<T, K>(x: T, ys: seq<T>, key: T -> K, lt: (K, K) -> bool): (r: seq<T>)
    ensures multiset(r) == multiset(ys) + multiset{x}
    ensures |r| == |ys| + 1
  {
    if ys == [] then [x]
    else if lt(key(x), key(ys[0])) then [x] + ys
    else
      assert ys == [ys[0]] + ys[1..];
      [ys[0]] + Insert(x, ys[1..], key, lt)
  }

  /** `sorted(xs, key=key)` */
  function SortBy<T, K>(xs: seq<T>, key: T -> K, lt: (K, K) -> bool): (r: seq<T>)
    ensures multiset(r) == multiset(xs)
    ensures |r| == |xs|
  {
    if xs == [] then []
    else
      assert xs == xs[..|xs| - 1] + [xs[|xs| - 1]];
      Insert(xs[|xs| - 1], SortBy(xs[..|xs| - 1], key, lt), key, lt)
  }

  lemma {:induction false} WithKeyAppend<T, K>(xs: seq<T>, ys: seq<T>, key: T -> K, k: K)
    ensures WithKey(xs + ys, key, k) == WithKey(xs, key, k) + WithKey(ys, key, k)
  {
    if xs == [] {
      assert xs + ys == ys;
    } else {
      assert (xs + ys)[0] == xs[0] && (xs + ys)[1..] == xs[1..] + ys;
      WithKeyAppend(xs[1..], ys, key, k);
    }
  }

  lemma {:induction false} WithKeyNone<T, K>(xs: seq<T>, key: T -> K, k: K)
    requires forall i :: 0 <= i < |xs| ==> key(xs[i]) != k
    ensures WithKey(xs, key, k) == []
  {
    if xs != [] {
      WithKeyNone(xs[1..], key, k);
    }
  }

  lemma {:induction false} InsertSorted<T, K(!new)>(x: T, ys: seq<T>, key: T -> K, lt: (K, K) -> bool)
    requires StrictTotalOrder(lt) && SortedBy(ys, key, lt)
    ensures SortedBy(Insert(x, ys, key, lt), key, lt)
  {
    if ys != [] && !lt(key(x), key(ys[0])) {
      var tail := ys[1..];
      InsertSorted(x, tail, key, lt);
      var rest := Insert(x, tail, key, lt);
      forall z | z in rest
        ensures !lt(key(z), key(ys[0]))
      {
        assert z in multiset(rest);
        if z != x {
          assert z in tail;
        }
      }
      var r := [ys[0]] + rest;
      forall i, j | 0 <= i < j < |r|
        ensures !lt(key(r[j]), key(r[i]))
      {
        if i == 0 {
          assert r[j] in rest;
        }
      }
    }
  }

  /** A key below the first key of a sorted sequence is below all of its keys. */
  lemma BelowSortedHead<T, K(!new)>(a: K, ys: seq<T>, key: T -> K, lt: (K, K) -> bool, i: nat)
    requires StrictTotalOrder(lt) && SortedBy(ys, key, lt)
    requires 0 < |ys| && lt(a, key(ys[0])) && i < |ys|
    ensures lt(a, key(ys[i])) && key(ys[i]) != a
  {
    if i > 0 {
      assert !lt(key(ys[i]), key(ys[0]));
      assert key(ys[i]) == key(ys[0]) || lt(key(ys[0]), key(ys[i]));
    }
  }

  /** Inserting in front of a sorted sequence whose keys are all greater than `x`'s. */
  lemma InsertFrontWithKey<T, K(!new)>(x: T, ys: seq<T>, key: T -> K, lt: (K, K) -> bool, k: K)
    requires StrictTotalOrder(lt) && SortedBy(ys, key, lt)
    requires ys != [] && lt(key(x), key(ys[0]))
    ensures WithKey([x] + ys, key, k) == WithKey(ys, key, k) + WithKey([x], key, k)
  {
    WithKeyAppend([x], ys, key, k);
    if key(x) == k {
      forall i | 0 <= i < |ys|
        ensures key(ys[i]) != k
      {
        BelowSortedHead(key(x), ys, key, lt, i);
      }
      WithKeyNone(ys, key, k);
    }
  }

  lemma {:induction false} InsertWithKey<T, K(!new)>(x: T, ys: seq<T>, key: T -> K, lt: (K, K) -> bool, k: K)
    requires StrictTotalOrder(lt) && SortedBy(ys, key, lt)
    ensures WithKey(Insert(x, ys, key, lt), key, k) == WithKey(ys, key, k) + WithKey([x], key, k)
  {
    if ys == [] {
    } else if lt(key(x), key(ys[0])) {
      InsertFrontWithKey(x, ys, key, lt, k);
    } else {
      var head, tail := ys[0], ys[1..];
      assert SortedBy(tail, key, lt) by {
        forall i, j | 0 <= i < j < |tail|
          ensures !lt(key(tail[j]), key(tail[i]))
        {
          assert tail[i] == ys[i + 1] && tail[j] == ys[j + 1];
        }
      }
      InsertWithKey(x, tail, key, lt, k);
      var a, b, c := WithKey([head], key, k), WithKey(tail, key, k), WithKey([x], key, k);
      WithKeyAppend([head], Insert(x, tail, key, lt), key, k);
      WithKeyAppend([head], tail, key, k);
      assert [head] + tail == ys;
      AppendAssoc(a, b, c);
    }
  }

  /** The sorted result is ordered by key. */
  lemma {:induction false} SortBySorted<T, K(!new)>(xs: seq<T>, key: T -> K, lt: (K, K) -> bool)
    requires StrictTotalOrder(lt)
    ensures SortedBy(SortBy(xs, key, lt), key, lt)
  {
    if xs != [] {
      SortBySorted(xs[..|xs| - 1], key, lt);
      InsertSorted(xs[|xs| - 1], SortBy(xs[..|xs| - 1], key, lt), key, lt);
    }
  }

  /** Stability: the elements sharing any one key keep their input order. */
  lemma {:induction false} SortByStable<T, K(!new)>(xs: seq<T>, key: T -> K, lt: (K, K) -> bool, k: K)
    requires StrictTotalOrder(lt)
    ensures WithKey(SortBy(xs, key, lt), key, k) == WithKey(xs, key, k)
  {
    if xs != [] {
      var init, last := xs[..|xs| - 1], xs[|xs| - 1];
      SortByStable(init, key, lt, k);
      SortBySorted(init, key, lt);
      InsertWithKey(last, SortBy(init, key, lt), key, lt, k);
      WithKeyAppend(init, [last], key, k);
      assert init + [last] == xs;
    }
  }

  /** The number of elements satisfying `p`. */
  function CountIf<T>(xs: seq<T>, p: T -> bool): (n: nat)
    ensures n <= |xs|
  {
    if xs == [] then 0 else (if p(xs[0]) then 1 else 0) + CountIf(xs[1..], p)
  }

  lemma {:induction false} CountIfAppend<T>(xs: seq<T>, ys: seq<T>, p: T -> bool)
    ensures CountIf(xs + ys, p) == CountIf(xs, p) + CountIf(ys, p)
  {
    if xs == [] {
      assert xs + ys == ys;
    } else {
      assert (xs + ys)[0] == xs[0] && (xs + ys)[1..] == xs[1..] + ys;
      CountIfAppend(xs[1..], ys, p);
    }
  }

  lemma {:induction false} CountIfInsert<T, K>(x: T, ys: seq<T>, key: T -> K, lt: (K, K) -> bool, p: T -> bool)
    ensures CountIf(Insert(x, ys, key, lt), p) == CountIf(ys, p) + CountIf([x], p)
  {
    if ys != [] && !lt(key(x), key(ys[0])) {
      CountIfInsert(x, ys[1..], key, lt, p);
    }
  }

  /** Sorting does not change how many elements satisfy any predicate. */
  lemma {:induction false} SortByCount<T, K>(xs: seq<T>, key: T -> K, lt: (K, K) -> bool, p: T -> bool)
    ensures CountIf(SortBy(xs, key, lt), p) == CountIf(xs, p)
  {
    if xs != [] {
      var init, last := xs[..|xs| - 1], xs[|xs| - 1];
      assert init + [last] == xs;
      var sorted := SortBy(init, key, lt);
      assert SortBy(xs, key, lt) == Insert(last, sorted, key, lt);
      SortByCount(init, key, lt, p);
      CountIfInsert(last, sorted, key, lt, p);
      CountIfAppend(init, [last], p);
    }
  }

  /** No two elements of `xs` share a key. */
  predicate DistinctKeys<T, K(==)>(xs: seq<T>, key: T -> K) {
    forall i, j :: 0 <= i < j < |xs| ==> key(xs[i]) != key(xs[j])
  }

  lemma OccursTwice<T>(r: seq<T>, i: nat, j: nat)
    requires i < j < |r| && r[i] == r[j]
    ensures multiset(r)[r[i]] >= 2
  {
    assert r == r[..j] + [r[j]] + r[j + 1..];
    assert r[..j][i] == r[i];
    assert r[i] in multiset(r[..j]);
  }

  /** In a sequence whose keys are distinct, every element occurs at most once. */
  lemma {:induction false} DistinctKeysOccurOnce<T, K>(xs: seq<T>, key: T -> K, x: T)
    requires DistinctKeys(xs, key)
    ensures multiset(xs)[x] <= 1
  {
    if xs != [] {
      var rest := xs[1..];
      assert xs == [xs[0]] + rest;
      assert DistinctKeys(rest, key) by {
        forall i, j | 0 <= i < j < |rest|
          ensures key(rest[i]) != key(rest[j])
        {
          assert rest[i] == xs[i + 1] && rest[j] == xs[j + 1];
        }
      }
      DistinctKeysOccurOnce(rest, key, x);
      if x == xs[0] {
        forall k | 0 <= k < |rest|
          ensures rest[k] != x
        {
          assert rest[k] == xs[k + 1];
        }
        assert x !in multiset(rest);
      }
    }
  }

  /** Reordering keeps keys distinct. */
  lemma PermutationKeepsDistinctKeys<T, K>(xs: seq<T>, r: seq<T>, key: T -> K)
    requires multiset(r) == multiset(xs) && DistinctKeys(xs, key)
    ensures DistinctKeys(r, key)
  {
    forall i, j | 0 <= i < j < |r|
      ensures key(r[i]) != key(r[j])
    {
      if key(r[i]) == key(r[j]) {
        assert r[i] in multiset(xs) && r[j] in multiset(xs);
        var a :| 0 <= a < |xs| && xs[a] == r[i];
        var b :| 0 <= b < |xs| && xs[b] == r[j];
        assert a == b;
        OccursTwice(r, i, j);
        DistinctKeysOccurOnce(xs, key, r[i]);
        assert false;
      }
    }
  }

  /** Two lists with distinct keys, no key shared between them, join into one with distinct keys. */
  lemma DistinctKeysAppend<T, K>(xs: seq<T>, ys: seq<T>, key: T -> K)
    requires DistinctKeys(xs, key) && DistinctKeys(ys, key)
    requires forall i, j :: 0 <= i < |xs| && 0 <= j < |ys| ==> key(xs[i]) != key(ys[j])
    ensures DistinctKeys(xs + ys, key)
  {
    forall i, j | 0 <= i < j < |xs + ys|
      ensures key((xs + ys)[i]) != key((xs + ys)[j])
    {
      if j < |xs| {
        assert (xs + ys)[i] == xs[i] && (xs + ys)[j] == xs[j];
      } else if i >= |xs| {
        assert (xs + ys)[i] == ys[i - |xs|] && (xs + ys)[j] == ys[j - |xs|];
      } else {
        assert (xs + ys)[i] == xs[i] && (xs + ys)[j] == ys[j - |xs|];
      }
    }
  }

  /** A sorted sequence with distinct keys is strictly increasing. */
  lemma SortedDistinctIncreasing<T, K(!new)>(xs: seq<T>, key: T -> K, lt: (K, K) -> bool)
    requires StrictTotalOrder(lt) && SortedBy(xs, key, lt) && DistinctKeys(xs, key)
    ensures forall i, j :: 0 <= i < j < |xs| ==> lt(key(xs[i]), key(xs[j]))
  {
  }
}
