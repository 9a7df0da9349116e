/**
 The one underscore.js helper whose semantics the roster depends on in a way
 that is not obvious from its name: `_.without(list, x)` keeps the elements
 that are not identical (`===`) to `x`.  For the objects stored in the roster,
 identity is reference identity, so the helper is modelled over a sequence of
 references.
 */
module Underscore {

  /** `_.without(xs, x)`: every element not identical to `x`, in order. */
  function Without<R(==)>(xs: seq<R>, x: R): (ys: seq<R>)
    ensures |ys| <= |xs|
    ensures forall i :: 0 <= i < |ys| ==> ys[i] != x
    ensures multiset(ys) == multiset(xs)[x := 0]
  {
    if |xs| == 0 then []
    else if xs[0] == x then
      assert xs == [xs[0]] + xs[1..];
      Without(xs[1..], x)
    else
      assert xs == [xs[0]] + xs[1..];
      [xs[0]] + Without(xs[1..], x)
  }

  /** Filtering splits over concatenation, so the kept elements stay in their original order. */
  lemma {:induction false} WithoutAppend<R>(xs: seq<R>, ys: seq<R>, x: R)
    ensures Without(xs + ys, x) == Without(xs, x) + Without(ys, x)
  {
    if |xs| > 0 {
      assert (xs + ys)[1..] == xs[1..] + ys;
      WithoutAppend(xs[1..], ys, x);
    } else {
      assert xs + ys == ys;
    }
  }

  /** No reference occurs twice. */
  predicate Distinct<R(==)>(xs: seq<R>) {
    forall i, j :: 0 <= i < j < |xs| ==> xs[i] != xs[j]
  }

  /**
   On a list of distinct references, removing the reference found at position
   `k` removes exactly that position: the rest keep their relative order.
   */
  lemma {:induction false} WithoutDistinct<R>(xs: seq<R>, k: nat)
    requires Distinct(xs)
    requires k < |xs|
    ensures Without(xs, xs[k]) == xs[..k] + xs[k + 1..]
  {
    if k == 0 {
      WithoutAbsent(xs[1..], xs[0]);
    } else {
      assert Distinct(xs[1..]);
      WithoutDistinct(xs[1..], k - 1);
      assert xs[1..][k - 1] == xs[k];
      assert xs[1..][..k - 1] + xs[1..][k..] == xs[1..k] + xs[k + 1..];
      assert xs[..k] == [xs[0]] + xs[1..k];
    }
  }

  /** Removing a reference that is not in the list returns the list itself. */
  lemma {:induction false} WithoutAbsent<R>(xs: seq<R>, x: R)
    requires x !in xs
    ensures Without(xs, x) == xs
  {
    if |xs| > 0 {
      var tail := xs[1..];
      assert x !in tail by {
        forall i | 0 <= i < |tail| ensures tail[i] != x {
          assert tail[i] == xs[i + 1];
        }
      }
      WithoutAbsent(tail, x);
      assert xs == [xs[0]] + tail;
    }
  }
}
