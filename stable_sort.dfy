/**
 * Sorting by a numeric key as Python's `list.sort(key=...)` does: stable, ascending.
 */
module StableSort {

  /** The keys never decrease along the sequence. */
  predicate SortedBy<T>(xs: seq<T>, key: T -> real) {
    forall i, j :: 0 <= i < j < |xs| ==> key(xs[i]) <= key(xs[j])
  }

  /** Puts `x` into `ys` after the leading elements whose key is at most its own. */
  function Insert<T>(x: T, ys: seq<T>, key: T -> real): (r: seq<T>)
    ensures multiset(r) == multiset(ys) + multiset{x}
  {
    if ys == [] then [x]
    else if key(x) < key(ys[0]) then [x] + ys
    else
      assert ys == [ys[0]] + ys[1..];
      [ys[0]] + Insert(x, ys[1..], key)
  }

  /** A lower bound of `x` and of every element of `ys` bounds every element after the insertion. */
  lemma {:induction false} InsertBounded<T>(x: T, ys: seq<T>, key: T -> real, b: real)
    requires b <= key(x)
    requires forall k :: 0 <= k < |ys| ==> b <= key(ys[k])
    ensures forall k :: 0 <= k < |Insert(x, ys, key)| ==> b <= key(Insert(x, ys, key)[k])
  {
    if ys != [] && key(ys[0]) <= key(x) {
      InsertBounded(x, ys[1..], key, b);
    }
  }

  /** Inserting into a sorted sequence keeps it sorted. */
  lemma {:induction false} InsertSorted<T>(x: T, ys: seq<T>, key: T -> real)
    requires SortedBy(ys, key)
    ensures SortedBy(Insert(x, ys, key), key)
  {
    if ys != [] && key(ys[0]) <= key(x) {
      var rest := Insert(x, ys[1..], key);
      InsertSorted(x, ys[1..], key);
      InsertBounded(x, ys[1..], key, key(ys[0]));
      assert Insert(x, ys, key) == [ys[0]] + rest;
    }
  }

  /** Insertion sort: each element in turn is inserted after the equal keys before it. */
  function SortBy<T>(xs: seq<T>, key: T -> real): (r: seq<T>)
    ensures multiset(r) == multiset(xs)
    ensures SortedBy(r, key)
  {
    if xs == [] then []
    else
      var init := SortBy(xs[..|xs| - 1], key);
      assert xs == xs[..|xs| - 1] + [xs[|xs| - 1]];
      InsertSorted(xs[|xs| - 1], init, key);
      Insert(xs[|xs| - 1], init, key)
  }

  /** An element whose key is at least every key of a sorted sequence goes at its end. */
  lemma {:induction false} InsertLast<T>(x: T, ys: seq<T>, key: T -> real)
    requires forall k :: 0 <= k < |ys| ==> key(ys[k]) <= key(x)
    ensures Insert(x, ys, key) == ys + [x]
  {
    if ys != [] {
      InsertLast(x, ys[1..], key);
    }
  }

  /** Sorting what is already sorted changes nothing. */
  lemma {:induction false} SortBySorted<T>(xs: seq<T>, key: T -> real)
    requires SortedBy(xs, key)
    ensures SortBy(xs, key) == xs
  {
    if xs != [] {
      var init := xs[..|xs| - 1];
      SortBySorted(init, key);
      InsertLast(xs[|xs| - 1], init, key);
    }
  }

  /** The elements whose key is `k`, in their order in `xs`. */
  function WithKey<T>(xs: seq<T>, key: T -> real, k: real): (r: seq<T>)
  {
    if xs == [] then []
    else (if key(xs[0]) == k then [xs[0]] else []) + WithKey(xs[1..], key, k)
  }

  lemma {:induction false} WithKeyAppend<T>(a: seq<T>, b: seq<T>, key: T -> real, k: real)
    ensures WithKey(a + b, key, k) == WithKey(a, key, k) + WithKey(b, key, k)
  {
    if a != [] {
      var head := if key(a[0]) == k then [a[0]] else [];
      assert (a + b)[0] == a[0] && (a + b)[1..] == a[1..] + b;
      WithKeyAppend(a[1..], b, key, k);
      calc {
        WithKey(a + b, key, k);
        head + WithKey(a[1..] + b, key, k);
        head + (WithKey(a[1..], key, k) + WithKey(b, key, k));
        (head + WithKey(a[1..], key, k)) + WithKey(b, key, k);
      }
    } else {
      assert a + b == b;
    }
  }

  /** No element of a sequence whose keys all exceed `k` has key `k`. */
  lemma {:induction false} WithKeyAbove<T>(ys: seq<T>, key: T -> real, k: real)
    requires forall i :: 0 <= i < |ys| ==> k < key(ys[i])
    ensures WithKey(ys, key, k) == []
  {
    if ys != [] {
      WithKeyAbove(ys[1..], key, k);
    }
  }

  /** Inserting into a sorted sequence puts `x` after every element with the same key. */
  lemma {:induction false} InsertWithKey<T>(x: T, ys: seq<T>, key: T -> real, k: real)
    requires SortedBy(ys, key)
    ensures WithKey(Insert(x, ys, key), key, k) == WithKey(ys, key, k) + (if key(x) == k then [x] else [])
  {
    if ys == [] {
      WithKeyOne(x, key, k);
    } else if key(x) < key(ys[0]) {
      assert forall i :: 0 <= i < |ys| ==> key(ys[0]) <= key(ys[i]);
      InsertFront(x, ys, key, k);
    } else {
      assert SortedBy(ys[1..], key);
      InsertWithKey(x, ys[1..], key, k);
      InsertBehind(x, ys, key, k);
    }
  }

  lemma WithKeyOne<T>(x: T, key: T -> real, k: real)
    ensures WithKey([x], key, k) == if key(x) == k then [x] else []
  {
    assert [x][1..] == [];
  }

  /** `x` goes first when its key is below every key of `ys`. */
  lemma InsertFront<T>(x: T, ys: seq<T>, key: T -> real, k: real)
    requires ys != [] && key(x) < key(ys[0])
    requires forall i :: 0 <= i < |ys| ==> key(ys[0]) <= key(ys[i])
    ensures WithKey(Insert(x, ys, key), key, k) == WithKey(ys, key, k) + (if key(x) == k then [x] else [])
  {
    var r := [x] + ys;
    assert Insert(x, ys, key) == r;
    assert r[0] == x && r[1..] == ys;
    if key(x) == k {
      WithKeyAbove(ys, key, k);
    }
  }

  /** `x` goes after the first element of `ys` when its key is not below that element's. */
  lemma InsertBehind<T>(x: T, ys: seq<T>, key: T -> real, k: real)
    requires ys != [] && key(ys[0]) <= key(x)
    requires WithKey(Insert(x, ys[1..], key), key, k) == WithKey(ys[1..], key, k) + (if key(x) == k then [x] else [])
    ensures WithKey(Insert(x, ys, key), key, k) == WithKey(ys, key, k) + (if key(x) == k then [x] else [])
  {
    InsertUnfold(x, ys, key);
    ConsWithKey(ys, Insert(x, ys[1..], key), if key(x) == k then [x] else [], key, k);
  }

  /** Putting the first element of `ys` before a sequence that holds the rest's keyed elements and then `tail`. */
  lemma ConsWithKey<T>(ys: seq<T>, rest: seq<T>, tail: seq<T>, key: T -> real, k: real)
    requires ys != [] && WithKey(rest, key, k) == WithKey(ys[1..], key, k) + tail
    ensures WithKey([ys[0]] + rest, key, k) == WithKey(ys, key, k) + tail
  {
    var r := [ys[0]] + rest;
    var head := if key(ys[0]) == k then [ys[0]] else [];
    assert r[0] == ys[0] && r[1..] == rest;
    WithKeyCons(r, key, k);
    WithKeyCons(ys, key, k);
    calc {
      WithKey(r, key, k);
      head + WithKey(rest, key, k);
      head + (WithKey(ys[1..], key, k) + tail);
      (head + WithKey(ys[1..], key, k)) + tail;
      WithKey(ys, key, k) + tail;
    }
  }

  lemma InsertUnfold<T>(x: T, ys: seq<T>, key: T -> real)
    requires ys != [] && key(ys[0]) <= key(x)
    ensures Insert(x, ys, key) == [ys[0]] + Insert(x, ys[1..], key)
  {
  }

  lemma WithKeyCons<T>(xs: seq<T>, key: T -> real, k: real)
    requires xs != []
    ensures WithKey(xs, key, k) == (if key(xs[0]) == k then [xs[0]] else []) + WithKey(xs[1..], key, k)
  {
  }

  /** Stability: the elements with any one key keep their input order. */
  lemma {:induction false} SortByStable<T>(xs: seq<T>, key: T -> real, k: real)
    ensures WithKey(SortBy(xs, key), key, k) == WithKey(xs, key, k)
  {
    if xs != [] {
      var init := xs[..|xs| - 1];
      SortByStable(init, key, k);
      SortByUnfold(xs, key);
      StableStep(xs, SortBy(init, key), key, k);
    }
  }

  /**
   * Inserting the last element of `xs` into a sorted sequence that keeps the order of each key
   * of the elements before it keeps that of `xs`.
   */
  lemma StableStep<T>(xs: seq<T>, s: seq<T>, key: T -> real, k: real)
    requires xs != [] && SortedBy(s, key) && WithKey(s, key, k) == WithKey(xs[..|xs| - 1], key, k)
    ensures WithKey(Insert(xs[|xs| - 1], s, key), key, k) == WithKey(xs, key, k)
  {
    var init, last := xs[..|xs| - 1], xs[|xs| - 1];
    assert xs == init + [last];
    InsertWithKey(last, s, key, k);
    WithKeyAppend(init, [last], key, k);
    WithKeyOne(last, key, k);
  }

  lemma SortByUnfold<T>(xs: seq<T>, key: T -> real)
    requires xs != []
    ensures SortBy(xs, key) == Insert(xs[|xs| - 1], SortBy(xs[..|xs| - 1], key), key)
  {
  }
}
