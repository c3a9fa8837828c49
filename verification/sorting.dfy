/**
 * `Array.prototype.sort((a, b) => b.score - a.score)`: a stable sort into non-increasing
 * order of an integer key. The extractor sorts its fragments and its candidates this way and
 * then reads the front of the result, so what matters is which element comes first and that
 * ties keep the order in which the elements were pushed.
 */
module Sorting {

  predicate SortedDesc<T>(xs: seq<T>, key: T -> int) {
    forall i, j :: 0 <= i < j < |xs| ==> key(xs[i]) >= key(xs[j])
  }

  /** `x` placed after every element whose key is at least its own. */
  function InsertDesc<T>(x: T, xs: seq<T>, key: T -> int): (r: seq<T>)
    ensures |r| == |xs| + 1
    ensures multiset(r) == multiset(xs) + multiset{x}
  {
    if |xs| == 0 then [x]
    else if key(xs[0]) >= key(x) then
      assert xs == [xs[0]] + xs[1..];
      [xs[0]] + InsertDesc(x, xs[1..], key)
    else [x] + xs
  }

  /** The stable sort, as insertion of each element, in order, behind its equals. */
  function SortDesc<T>(xs: seq<T>, key: T -> int): (r: seq<T>)
    ensures |r| == |xs|
    ensures multiset(r) == multiset(xs)
    ensures SortedDesc(r, key)
    decreases |xs|
  {
    if |xs| == 0 then []
    else
      assert xs == xs[..|xs| - 1] + [xs[|xs| - 1]];
      var s := SortDesc(xs[..|xs| - 1], key);
      InsertKeepsSorted(xs[|xs| - 1], s, key);
      InsertDesc(xs[|xs| - 1], s, key)
  }

  lemma {:induction false} InsertKeepsSorted<T>(x: T, xs: seq<T>, key: T -> int)
    requires SortedDesc(xs, key)
    ensures SortedDesc(InsertDesc(x, xs, key), key)
  {
    if |xs| > 0 && key(xs[0]) >= key(x) {
      var rest := InsertDesc(x, xs[1..], key);
      InsertKeepsSorted(x, xs[1..], key);
      assert forall y :: y in multiset(rest) ==> y == x || y in multiset(xs[1..]);
      forall j | 0 <= j < |rest|
        ensures key(xs[0]) >= key(rest[j])
      {
        assert rest[j] in multiset(rest);
        if rest[j] != x {
          assert rest[j] in xs[1..];
        }
      }
    }
  }

  /** The elements of `xs` whose key is `k`, in order. */
  function WithKey<T>(xs: seq<T>, key: T -> int, k: int): (r: seq<T>)
    ensures |r| <= |xs|
  {
    if |xs| == 0 then [] else (if key(xs[0]) == k then [xs[0]] else []) + WithKey(xs[1..], key, k)
  }

  /** The index of the earliest element of largest key. */
  function FirstMaxIndex<T>(xs: seq<T>, key: T -> int): (i: nat)
    requires |xs| > 0
    ensures i < |xs|
    ensures forall j :: 0 <= j < |xs| ==> key(xs[j]) <= key(xs[i])
    ensures forall j :: 0 <= j < i ==> key(xs[j]) < key(xs[i])
    decreases |xs|
  {
    if |xs| == 1 then 0
    else
      var init := xs[..|xs| - 1];
      var i := FirstMaxIndex(init, key);
      assert forall j :: 0 <= j < |xs| - 1 ==> xs[j] == init[j];
      if key(xs[|xs| - 1]) > key(init[i]) then |xs| - 1 else i
  }

  /** One more element: it becomes the first maximum only when it beats the old one strictly. */
  lemma FirstMaxIndexExtend<T>(xs: seq<T>, i: nat, key: T -> int)
    requires 0 < i < |xs|
    ensures FirstMaxIndex(xs[..i + 1], key)
      == if key(xs[i]) > key(xs[FirstMaxIndex(xs[..i], key)]) then i else FirstMaxIndex(xs[..i], key)
  {
    assert xs[..i + 1][..i] == xs[..i];
  }

  // ---------------------------------------------------------------------------
  // Properties
  // ---------------------------------------------------------------------------

  lemma {:induction false} WithKeyAppend<T>(a: seq<T>, b: seq<T>, key: T -> int, k: int)
    ensures WithKey(a + b, key, k) == WithKey(a, key, k) + WithKey(b, key, k)
  {
    if |a| == 0 {
      assert a + b == b;
    } else {
      var head := if key(a[0]) == k then [a[0]] else [];
      assert (a + b)[0] == a[0];
      assert (a + b)[1..] == a[1..] + b;
      assert WithKey(a + b, key, k) == head + WithKey(a[1..] + b, key, k);
      WithKeyAppend(a[1..], b, key, k);
      assert WithKey(a, key, k) == head + WithKey(a[1..], key, k);
    }
  }

  lemma {:induction false} WithKeyAbsent<T>(xs: seq<T>, key: T -> int, k: int)
    requires forall i :: 0 <= i < |xs| ==> key(xs[i]) < k
    ensures WithKey(xs, key, k) == []
  {
    if |xs| > 0 {
      WithKeyAbsent(xs[1..], key, k);
    }
  }

  /** Inserting `x` into a sorted list puts it behind every element with its key. */
  lemma {:induction false} WithKeyInsert<T>(x: T, xs: seq<T>, key: T -> int, k: int)
    requires SortedDesc(xs, key)
    ensures WithKey(InsertDesc(x, xs, key), key, k) == WithKey(xs, key, k) + WithKey([x], key, k)
    decreases |xs|
  {
    if |xs| == 0 {
    } else if key(xs[0]) >= key(x) {
      SortedTail(xs, key);
      WithKeyInsert(x, xs[1..], key, k);
      WithKeyInsertBehind(x, xs, key, k);
    } else {
      WithKeyInsertFront(x, xs, key, k);
    }
  }

  lemma SortedTail<T>(xs: seq<T>, key: T -> int)
    requires SortedDesc(xs, key) && |xs| > 0
    ensures SortedDesc(xs[1..], key)
  {
    var rest := xs[1..];
    forall i, j | 0 <= i < j < |rest| ensures key(rest[i]) >= key(rest[j]) {
      assert rest[i] == xs[i + 1] && rest[j] == xs[j + 1];
    }
  }

  /** `x` going behind the head: the head's group comes first, then the rest with `x` in it. */
  lemma WithKeyInsertBehind<T>(x: T, xs: seq<T>, key: T -> int, k: int)
    requires |xs| > 0 && key(xs[0]) >= key(x)
    requires WithKey(InsertDesc(x, xs[1..], key), key, k) == WithKey(xs[1..], key, k) + WithKey([x], key, k)
    ensures WithKey(InsertDesc(x, xs, key), key, k) == WithKey(xs, key, k) + WithKey([x], key, k)
  {
    var hd := if key(xs[0]) == k then [xs[0]] else [];
    var r := InsertDesc(x, xs[1..], key);
    calc {
      WithKey(InsertDesc(x, xs, key), key, k);
      WithKey([xs[0]] + r, key, k);
      { WithKeyCons(xs[0], r, key, k); }
      hd + WithKey(r, key, k);
      hd + (WithKey(xs[1..], key, k) + WithKey([x], key, k));
      { var a, b := WithKey(xs[1..], key, k), WithKey([x], key, k);
        assert hd + (a + b) == (hd + a) + b; }
      (hd + WithKey(xs[1..], key, k)) + WithKey([x], key, k);
      WithKey(xs, key, k) + WithKey([x], key, k);
    }
  }

  lemma WithKeyCons<T>(h: T, r: seq<T>, key: T -> int, k: int)
    ensures WithKey([h] + r, key, k) == (if key(h) == k then [h] else []) + WithKey(r, key, k)
  {
    assert ([h] + r)[1..] == r;
  }

  /** `x` going in front: every element with its key would have been in front of it. */
  lemma WithKeyInsertFront<T>(x: T, xs: seq<T>, key: T -> int, k: int)
    requires SortedDesc(xs, key) && |xs| > 0 && key(xs[0]) < key(x)
    ensures WithKey(InsertDesc(x, xs, key), key, k) == WithKey(xs, key, k) + WithKey([x], key, k)
  {
    assert InsertDesc(x, xs, key) == [x] + xs;
    WithKeyAppend([x], xs, key, k);
    if key(x) == k {
      assert forall i :: 0 <= i < |xs| ==> key(xs[i]) <= key(xs[0]);
      WithKeyAbsent(xs, key, k);
    }
  }

  /** Stability: for each key, the elements with that key keep their original order. */
  lemma {:induction false} SortIsStable<T>(xs: seq<T>, key: T -> int, k: int)
    ensures WithKey(SortDesc(xs, key), key, k) == WithKey(xs, key, k)
    decreases |xs|
  {
    if |xs| > 0 {
      var init, last := xs[..|xs| - 1], xs[|xs| - 1];
      var s := SortDesc(init, key);
      calc {
        WithKey(SortDesc(xs, key), key, k);
        WithKey(InsertDesc(last, s, key), key, k);
        { WithKeyInsert(last, s, key, k); }
        WithKey(s, key, k) + WithKey([last], key, k);
        { SortIsStable(init, key, k); }
        WithKey(init, key, k) + WithKey([last], key, k);
        { WithKeyAppend(init, [last], key, k); assert init + [last] == xs; }
        WithKey(xs, key, k);
      }
    }
  }

  /** The front of the sorted list is the earliest element of largest key. */
  lemma {:induction false} SortHead<T>(xs: seq<T>, key: T -> int)
    requires |xs| > 0
    ensures SortDesc(xs, key)[0] == xs[FirstMaxIndex(xs, key)]
    decreases |xs|
  {
    if |xs| > 1 {
      var init, last := xs[..|xs| - 1], xs[|xs| - 1];
      SortHead(init, key);
      var s := SortDesc(init, key);
      assert forall j :: 0 <= j < |xs| - 1 ==> xs[j] == init[j];
      assert SortDesc(xs, key) == InsertDesc(last, s, key);
    }
  }
}
