/** Python's list idioms the scraper uses: `any(...)` and comprehensions that filter. */
module Lists {
  import opened Wrappers

  /** `any(p(x) for x in xs)` */
  predicate Any<T>(xs: seq<T>, p: T -> bool) {
    xs != [] && (p(xs[0]) || Any(xs[1..], p))
  }

  /** `any` holds exactly when some element satisfies the test. */
  lemma {:induction false} AnyIff<T>(xs: seq<T>, p: T -> bool)
    ensures Any(xs, p) <==> exists i :: 0 <= i < |xs| && p(xs[i])
  {
    if xs != [] {
      AnyIff(xs[1..], p);
      if exists i :: 1 <= i < |xs| && p(xs[i]) {
        var i :| 1 <= i < |xs| && p(xs[i]);
        assert xs[1..][i - 1] == xs[i];
      }
    }
  }

  /** The position of the first of the first `limit` elements that passes `p`:
      `for i, x in enumerate(xs[:limit]): if p(x): return i`. */
  method FirstMatch<T>(xs: seq<T>, p: T -> bool, limit: nat) returns (r: Option<nat>)
    ensures r.Some? ==> r.value < limit && r.value < |xs| && p(xs[r.value])
    ensures r.Some? ==> forall j :: 0 <= j < r.value ==> !p(xs[j])
    ensures r.None? <==> forall j :: 0 <= j < |xs| && j < limit ==> !p(xs[j])
  {
    var k := 0;
    while k < |xs| && k < limit
      invariant k <= |xs| && k <= limit
      invariant forall j :: 0 <= j < k ==> !p(xs[j])
    {
      if p(xs[k]) {
        return Some(k);
      }
      k := k + 1;
    }
    return None;
  }

  /** The present values `f` gives for the elements of `xs`, in order. */
  function FilterMap<A, B>(xs: seq<A>, f: A -> Option<B>): (r: seq<B>)
    ensures |r| <= |xs|
  {
    if xs == [] then []
    else FilterMap(xs[..|xs| - 1], f) + (match f(xs[|xs| - 1]) case Some(y) => [y] case None => [])
  }

  lemma FilterMapSnoc<A, B>(xs: seq<A>, x: A, f: A -> Option<B>)
    ensures f(x).None? ==> FilterMap(xs + [x], f) == FilterMap(xs, f)
    ensures f(x).Some? ==> FilterMap(xs + [x], f) == FilterMap(xs, f) + [f(x).value]
  {
    assert (xs + [x])[..|xs|] == xs;
  }

  lemma FilterMapPrefix<A, B>(xs: seq<A>, i: nat, f: A -> Option<B>)
    requires i < |xs|
    ensures f(xs[i]).None? ==> FilterMap(xs[..i + 1], f) == FilterMap(xs[..i], f)
    ensures f(xs[i]).Some? ==> FilterMap(xs[..i + 1], f) == FilterMap(xs[..i], f) + [f(xs[i]).value]
  {
    assert xs[..i + 1] == xs[..i] + [xs[i]];
    FilterMapSnoc(xs[..i], xs[i], f);
  }

  /** Every value kept comes from some element. */
  lemma {:induction false} FilterMapFrom<A, B>(xs: seq<A>, f: A -> Option<B>, y: B)
    requires y in FilterMap(xs, f)
    ensures exists x :: x in xs && f(x) == Some(y)
  {
    var init, last := xs[..|xs| - 1], xs[|xs| - 1];
    assert last in xs;
    if y in FilterMap(init, f) {
      FilterMapFrom(init, f, y);
      var x :| x in init && f(x) == Some(y);
      assert x in xs;
    }
  }

  /** When every element after the first satisfies `p`, and `f` keeps each of those
      with a value that satisfies `q`, every result after the first satisfies `q`. */
  lemma {:induction false} FilterMapAfterFirst<A, B>(xs: seq<A>, f: A -> Option<B>, p: A -> bool, q: B -> bool)
    requires forall k :: 1 <= k < |xs| ==> p(xs[k])
    requires forall x :: p(x) ==> f(x).Some? && q(f(x).value)
    ensures forall i :: 1 <= i < |FilterMap(xs, f)| ==> q(FilterMap(xs, f)[i])
  {
    if |xs| > 1 {
      var init, last := xs[..|xs| - 1], xs[|xs| - 1];
      assert forall k :: 1 <= k < |init| ==> init[k] == xs[k];
      FilterMapAfterFirst(init, f, p, q);
      assert p(last);
    }
  }

  /** The lists of `xss` joined in order. */
  function Flatten<T>(xss: seq<seq<T>>): seq<T> {
    if xss == [] then [] else Flatten(xss[..|xss| - 1]) + xss[|xss| - 1]
  }

  lemma FlattenPrefix<T>(xss: seq<seq<T>>, k: nat)
    requires k < |xss|
    ensures Flatten(xss[..k + 1]) == Flatten(xss[..k]) + xss[k]
  {
    assert xss[..k + 1][..k] == xss[..k];
  }

  lemma InPrefix<T>(xs: seq<T>, k: nat, x: T)
    requires 0 < k <= |xs|
    ensures x in xs[..k] <==> x in xs[..k - 1] || x == xs[k - 1]
  {
    assert xs[..k] == xs[..k - 1] + [xs[k - 1]];
  }

  lemma UnionAssoc<T>(a: set<T>, b: set<T>, c: set<T>)
    ensures a + (b + c) == (a + b) + c
  {
  }

  lemma AppendAssoc<T>(a: seq<T>, b: seq<T>, c: seq<T>)
    ensures (a + b) + c == a + (b + c)
  {
  }

  lemma {:induction false} FlattenCons<T>(x: seq<T>, xss: seq<seq<T>>)
    ensures Flatten([x] + xss) == x + Flatten(xss)
  {
    if xss == [] {
      assert ([x] + xss)[..0] == [];
    } else {
      var n := |xss| - 1;
      assert ([x] + xss)[..n + 1] == [x] + xss[..n];
      FlattenCons(x, xss[..n]);
      AppendAssoc(x, Flatten(xss[..n]), xss[n]);
    }
  }

  lemma {:induction false} FilterMapCons<A, B>(x: A, xs: seq<A>, f: A -> Option<B>)
    ensures FilterMap([x] + xs, f) == (match f(x) case Some(y) => [y] case None => []) + FilterMap(xs, f)
  {
    var head: seq<B> := match f(x) case Some(y) => [y] case None => [];
    if xs == [] {
      assert ([x] + xs)[..0] == [];
    } else {
      var n := |xs| - 1;
      assert ([x] + xs)[..n + 1] == [x] + xs[..n];
      FilterMapCons(x, xs[..n], f);
      var last: seq<B> := match f(xs[n]) case Some(y) => [y] case None => [];
      AppendAssoc(head, FilterMap(xs[..n], f), last);
    }
  }
}
