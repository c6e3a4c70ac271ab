/**
 * The "seen set" idiom the scraper uses three times: walk a list, keep an
 * element when its key is neither blocked nor already seen, and add the key
 * to the seen set. `FirstFresh` states the outcome declaratively: the
 * elements kept are exactly those at the first position of their key, among
 * the keys that are not blocked, in list order.
 */
module FirstSeen {
  import opened Lists

  /** The set of keys of the elements of `xs`. */
  ghost function KeysOf<T, K>(xs: seq<T>, key: T -> K): set<K> {
    set x | x in xs :: key(x)
  }

  /** Whether `xs[i]` is kept: its key is not blocked and no earlier element has it. */
  predicate IsFirstFresh<T, K(==)>(blocked: set<K>, xs: seq<T>, key: T -> K, i: nat)
    requires i < |xs|
  {
    key(xs[i]) !in blocked && forall j :: 0 <= j < i ==> key(xs[j]) != key(xs[i])
  }

  /** The elements of `xs` at the positions where `IsFirstFresh` holds, in order. */
  function FirstFresh<T, K(==)>(blocked: set<K>, xs: seq<T>, key: T -> K): (r: seq<T>)
    ensures |r| <= |xs|
  {
    if xs == [] then []
    else
      FirstFresh(blocked, xs[..|xs| - 1], key)
      + (if IsFirstFresh(blocked, xs, key, |xs| - 1) then [xs[|xs| - 1]] else [])
  }

  lemma KeysOfAppend<T, K>(xs: seq<T>, ys: seq<T>, key: T -> K)
    ensures KeysOf(xs + ys, key) == KeysOf(xs, key) + KeysOf(ys, key)
  {
    assert forall x :: x in xs + ys <==> x in xs || x in ys;
  }

  /** The keys kept are the keys of the list, less the blocked ones. */
  lemma {:induction false} FirstFreshKeys<T, K>(blocked: set<K>, xs: seq<T>, key: T -> K)
    ensures KeysOf(FirstFresh(blocked, xs, key), key) == KeysOf(xs, key) - blocked
  {
    if xs != [] {
      var init, last := xs[..|xs| - 1], xs[|xs| - 1];
      assert xs == init + [last];
      FirstFreshKeys(blocked, init, key);
      KeysOfAppend(init, [last], key);
      assert KeysOf([last], key) == {key(last)};
      var kept := FirstFresh(blocked, init, key);
      if IsFirstFresh(blocked, xs, key, |xs| - 1) {
        assert FirstFresh(blocked, xs, key) == kept + [last];
        KeysOfAppend(kept, [last], key);
      } else {
        assert FirstFresh(blocked, xs, key) == kept + [];
        assert kept + [] == kept;
        if key(last) !in blocked {
          var j :| 0 <= j < |xs| - 1 && key(xs[j]) == key(last);
          assert init[j] == xs[j] && init[j] in init;
          assert key(last) in KeysOf(init, key);
        }
      }
    }
  }

  /** The loop's test: the next element is kept exactly when its key is neither
      blocked nor the key of an element kept so far. */
  lemma FirstFreshStep<T, K>(blocked: set<K>, xs: seq<T>, x: T, key: T -> K)
    ensures IsFirstFresh(blocked, xs + [x], key, |xs|)
        <==> key(x) !in blocked + KeysOf(FirstFresh(blocked, xs, key), key)
    ensures FirstFresh(blocked, xs + [x], key)
         == FirstFresh(blocked, xs, key) + (if IsFirstFresh(blocked, xs + [x], key, |xs|) then [x] else [])
  {
    FirstFreshKeys(blocked, xs, key);
    assert (xs + [x])[..|xs|] == xs;
    if key(x) in KeysOf(xs, key) {
      var y :| y in xs && key(y) == key(x);
      var j :| 0 <= j < |xs| && xs[j] == y;
      assert (xs + [x])[j] == y;
    }
  }

  /** No two elements kept share a key, and no kept key is blocked. */
  lemma {:induction false} FirstFreshDistinct<T, K>(blocked: set<K>, xs: seq<T>, key: T -> K)
    ensures forall i :: 0 <= i < |FirstFresh(blocked, xs, key)| ==> key(FirstFresh(blocked, xs, key)[i]) !in blocked
    ensures forall i, j :: 0 <= i < j < |FirstFresh(blocked, xs, key)|
              ==> key(FirstFresh(blocked, xs, key)[i]) != key(FirstFresh(blocked, xs, key)[j])
  {
    if xs != [] {
      var init, last := xs[..|xs| - 1], xs[|xs| - 1];
      assert xs == init + [last];
      FirstFreshDistinct(blocked, init, key);
      FirstFreshStep(blocked, init, last, key);
      var kept := FirstFresh(blocked, init, key);
      var r := FirstFresh(blocked, xs, key);
      if IsFirstFresh(blocked, xs, key, |xs| - 1) {
        assert r == kept + [last];
        forall i | 0 <= i < |kept|
          ensures key(r[i]) != key(last)
        {
          assert kept[i] in kept;
        }
      }
    }
  }

  /** Walking `xs` then `ys` with one seen set is walking `ys` with the keys of
      `xs` blocked as well. */
  lemma {:induction false} FirstFreshAppend<T, K>(blocked: set<K>, xs: seq<T>, ys: seq<T>, key: T -> K)
    ensures FirstFresh(blocked, xs + ys, key)
         == FirstFresh(blocked, xs, key) + FirstFresh(blocked + KeysOf(xs, key), ys, key)
  {
    if ys == [] {
      assert xs + ys == xs;
    } else {
      var init, last := ys[..|ys| - 1], ys[|ys| - 1];
      var blocked' := blocked + KeysOf(xs, key);
      assert ys == init + [last];
      assert xs + ys == (xs + init) + [last];
      FirstFreshAppend(blocked, xs, init, key);
      FirstFreshStep(blocked, xs + init, last, key);
      FirstFreshStep(blocked', init, last, key);
      FirstFreshKeys(blocked, xs + init, key);
      FirstFreshKeys(blocked', init, key);
      KeysOfAppend(xs, init, key);
      var before, kept := FirstFresh(blocked, xs, key), FirstFresh(blocked', init, key);
      assert key(last) in blocked + KeysOf(FirstFresh(blocked, xs + init, key), key)
         <==> key(last) in blocked' + KeysOf(kept, key);
      var tail := if IsFirstFresh(blocked', ys, key, |init|) then [last] else [];
      AppendAssoc(before, kept, tail);
    }
  }

  /** Every element kept is an element of the list. */
  lemma {:induction false} FirstFreshSubset<T, K>(blocked: set<K>, xs: seq<T>, key: T -> K)
    ensures forall x :: x in FirstFresh(blocked, xs, key) ==> x in xs
  {
    if xs != [] {
      var init := xs[..|xs| - 1];
      FirstFreshSubset(blocked, init, key);
      assert forall x :: x in init ==> x in xs;
    }
  }
}
