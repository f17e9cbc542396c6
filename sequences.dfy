/**
 * Generic facts about sequences shared by several modules: absence of duplicates, and the
 * de-duplication that keeps first appearances in order.
 */
module Sequences {
  predicate NoDuplicates<T(==)>(xs: seq<T>) {
    forall k, l :: 0 <= k < l < |xs| ==> xs[k] != xs[l]
  }

  /** Each element once, in the order it is first met (the keys of a dict or `Counter` built from `xs`). */
  function Unique<T(==, !new)>(xs: seq<T>): (u: seq<T>)
    ensures forall x :: x in u <==> x in xs
    ensures NoDuplicates(u)
  {
    if xs == [] then []
    else
      var init := xs[..|xs| - 1];
      var last := xs[|xs| - 1];
      assert xs == init + [last];
      var u := Unique(init);
      if last in u then u else u + [last]
  }

  lemma UniqueSnoc<T(!new)>(xs: seq<T>, x: T)
    ensures Unique(xs + [x]) == if x in Unique(xs) then Unique(xs) else Unique(xs) + [x]
  {
    assert (xs + [x])[..|xs|] == xs;
  }

  /** Position of the first occurrence of `x`. */
  function First<T(==)>(xs: seq<T>, x: T): (i: nat)
    requires x in xs
    ensures i < |xs| && xs[i] == x && forall j :: 0 <= j < i ==> xs[j] != x
  {
    if xs[0] == x then 0 else 1 + First(xs[1..], x)
  }

  lemma {:induction false} FirstAppend<T>(xs: seq<T>, ys: seq<T>, x: T)
    requires x in xs + ys
    ensures x in xs ==> First(xs + ys, x) == First(xs, x)
    ensures x !in xs ==> First(xs + ys, x) == |xs| + First(ys, x)
  {
    var i := First(xs + ys, x);
    if x in xs {
      var k := First(xs, x);
      assert (xs + ys)[k] == x;
    } else {
      assert x in ys;
      var k := First(ys, x);
      assert (xs + ys)[|xs| + k] == x;
      assert forall j :: 0 <= j < k ==> (xs + ys)[|xs| + j] == ys[j];
    }
  }

  /** The distinct elements come in the order of their first appearance. */
  lemma {:induction false} UniqueOrdered<T(!new)>(xs: seq<T>)
    ensures forall k, l :: 0 <= k < l < |Unique(xs)| ==> First(xs, Unique(xs)[k]) < First(xs, Unique(xs)[l])
  {
    if xs != [] {
      var init := xs[..|xs| - 1];
      var last := xs[|xs| - 1];
      assert xs == init + [last];
      UniqueOrdered(init);
      var u := Unique(init);
      forall k, l | 0 <= k < l < |Unique(xs)| ensures First(xs, Unique(xs)[k]) < First(xs, Unique(xs)[l]) {
        assert Unique(xs)[k] == u[k];
        FirstAppend(init, [last], u[k]);
        if l < |u| {
          assert Unique(xs)[l] == u[l];
          FirstAppend(init, [last], u[l]);
        } else {
          FirstAppend(init, [last], last);
        }
      }
    }
  }
}
