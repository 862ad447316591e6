/** The contracts of std::make_heap, std::push_heap and std::pop_heap, and
    binary-heap algorithms that meet them. */
module Heap {

  /** `gt` is a strict weak order on the elements that satisfy `live`. */
  ghost predicate StrictWeak<E(!new)>(gt: (E, E) -> bool, live: E -> bool) {
    && (forall x, y {:trigger gt(x, y)} :: live(x) && live(y) && gt(x, y) ==> !gt(y, x))
    && (forall x, y, z {:trigger gt(x, y), gt(y, z)} ::
          live(x) && live(y) && live(z) && !gt(x, y) && !gt(y, z) ==> !gt(x, z))
  }

  predicate AllLive<E>(live: E -> bool, a: seq<E>) {
    forall i :: 0 <= i < |a| ==> live(a[i])
  }

  /** No parent is greater than its child. */
  predicate IsHeap<E>(gt: (E, E) -> bool, a: seq<E>) {
    forall i {:trigger a[i]} :: 0 < i < |a| ==> !gt(a[(i - 1) / 2], a[i])
  }

  /** What make_heap and push_heap leave behind. */
  ghost predicate HeapOf<E>(gt: (E, E) -> bool, before: seq<E>, after: seq<E>) {
    multiset(after) == multiset(before) && IsHeap(gt, after)
  }

  /** The front is now at the back, and what precedes it is a heap. */
  ghost predicate HeapPopped<E>(gt: (E, E) -> bool, before: seq<E>, after: seq<E>)
    requires before != []
  {
    && multiset(after) == multiset(before) && |after| == |before|
    && after[|after| - 1] == before[0] && IsHeap(gt, after[..|after| - 1])
  }

  /** Nothing in a heap is less than its front. */
  lemma {:induction false} FrontIsLeast<E(!new)>(gt: (E, E) -> bool, live: E -> bool, a: seq<E>, i: nat)
    requires StrictWeak(gt, live) && AllLive(live, a) && IsHeap(gt, a) && i < |a|
    ensures !gt(a[0], a[i])
  {
    if i > 0 {
      FrontIsLeast(gt, live, a, (i - 1) / 2);
      assert !gt(a[(i - 1) / 2], a[i]);
    }
  }

  function Swap<E>(a: seq<E>, i: nat, j: nat): (r: seq<E>)
    requires i < |a| && j < |a|
    ensures |r| == |a|
  {
    a[i := a[j]][j := a[i]]
  }

  lemma SwapKeepsElements<E>(a: seq<E>, i: nat, j: nat)
    requires i < |a| && j < |a|
    ensures multiset(Swap(a, i, j)) == multiset(a)
  {
  }

  /** The heap order, except between `k` and its parent. */
  predicate HeapAbove<E>(gt: (E, E) -> bool, a: seq<E>, k: nat) {
    && (forall i {:trigger a[i]} :: 0 < i < |a| && i != k ==> !gt(a[(i - 1) / 2], a[i]))
    && (forall c :: 0 < k < c < |a| && (c - 1) / 2 == k ==> !gt(a[(k - 1) / 2], a[c]))
  }

  method PushHeap<E(!new)>(gt: (E, E) -> bool, ghost live: E -> bool, a: seq<E>) returns (r: seq<E>)
    requires a != [] && StrictWeak(gt, live) && AllLive(live, a) && IsHeap(gt, a[..|a| - 1])
    ensures HeapOf(gt, a, r)
  {
    r := a;
    var k := |a| - 1;
    NewAtTheEnd(gt, a);
    while k > 0 && gt(r[(k - 1) / 2], r[k])
      invariant 0 <= k < |r| == |a| && multiset(r) == multiset(a)
      invariant AllLive(live, r) && HeapAbove(gt, r, k)
    {
      SwapUp(gt, live, r, k);
      SwapKeepsElements(r, (k - 1) / 2, k);
      r := Swap(r, (k - 1) / 2, k);
      k := (k - 1) / 2;
    }
    StopPushing(gt, r, k);
  }

  lemma NewAtTheEnd<E>(gt: (E, E) -> bool, a: seq<E>)
    requires a != [] && IsHeap(gt, a[..|a| - 1])
    ensures HeapAbove(gt, a, |a| - 1)
  {
    assert forall i :: 0 <= i < |a| - 1 ==> a[i] == a[..|a| - 1][i];
  }

  lemma StopPushing<E>(gt: (E, E) -> bool, a: seq<E>, k: nat)
    requires k < |a| && HeapAbove(gt, a, k) && (k > 0 ==> !gt(a[(k - 1) / 2], a[k]))
    ensures IsHeap(gt, a)
  {
  }

  lemma SwapUp<E(!new)>(gt: (E, E) -> bool, live: E -> bool, a: seq<E>, k: nat)
    requires StrictWeak(gt, live) && AllLive(live, a) && 0 < k < |a| && HeapAbove(gt, a, k)
    requires gt(a[(k - 1) / 2], a[k])
    ensures AllLive(live, Swap(a, (k - 1) / 2, k)) && HeapAbove(gt, Swap(a, (k - 1) / 2, k), (k - 1) / 2)
  {
    var p := (k - 1) / 2;
    var b := Swap(a, p, k);
    forall i {:trigger b[i]} | 0 < i < |a| && i != p ensures !gt(b[(i - 1) / 2], b[i]) {
      var q := (i - 1) / 2;
      if q == p {
        assert b[q] == a[k] && (i != k ==> b[i] == a[i] && !gt(a[p], a[i]));
      } else if q == k {
        assert b[q] == a[p] && b[i] == a[i];
      } else {
        assert b[q] == a[q] && b[i] == a[i];
      }
    }
    forall c | 0 < p < c < |a| && (c - 1) / 2 == p ensures !gt(b[(p - 1) / 2], b[c]) {
      assert !gt(a[(p - 1) / 2], a[p]);
      assert b[(p - 1) / 2] == a[(p - 1) / 2] && (c != k ==> !gt(a[p], a[c]));
    }
  }

  /** The heap order from `lo` on, except between `k` and its children. */
  predicate HeapBelow<E>(gt: (E, E) -> bool, a: seq<E>, lo: nat, k: nat) {
    && (forall i {:trigger a[i]} :: 0 < i < |a| && lo <= (i - 1) / 2 && (i - 1) / 2 != k ==> !gt(a[(i - 1) / 2], a[i]))
    && (forall c :: 0 < k < c < |a| && (c - 1) / 2 == k && lo <= (k - 1) / 2 ==> !gt(a[(k - 1) / 2], a[c]))
  }

  method SiftDown<E(!new)>(gt: (E, E) -> bool, ghost live: E -> bool, a: seq<E>, lo: nat) returns (r: seq<E>)
    requires lo < |a| && StrictWeak(gt, live) && AllLive(live, a) && HeapBelow(gt, a, lo, lo)
    ensures |r| == |a| && multiset(r) == multiset(a) && AllLive(live, r) && HeapBelow(gt, r, lo, |r|)
  {
    r := a;
    var k := lo;
    while 2 * k + 1 < |r|
      invariant lo <= k < |r| == |a| && multiset(r) == multiset(a)
      invariant AllLive(live, r) && HeapBelow(gt, r, lo, k)
    {
      var c := 2 * k + 1;
      if c + 1 < |r| && gt(r[c], r[c + 1]) {
        c := c + 1;
      }
      LesserChild(gt, live, r, k, c);
      if !gt(r[k], r[c]) {
        StopSifting(gt, live, r, lo, k, c);
        return;
      }
      SwapDown(gt, live, r, lo, k, c);
      SwapKeepsElements(r, k, c);
      r := Swap(r, k, c);
      k := c;
    }
    StopAtLeaf(gt, r, lo, k);
  }

  lemma StopAtLeaf<E>(gt: (E, E) -> bool, a: seq<E>, lo: nat, k: nat)
    requires HeapBelow(gt, a, lo, k) && 2 * k + 1 >= |a|
    ensures HeapBelow(gt, a, lo, |a|)
  {
  }

  /** `c` is a child of `k` that no child of `k` is less than. */
  predicate LeastChild<E>(gt: (E, E) -> bool, a: seq<E>, k: nat, c: nat) {
    k < c < |a| && (c - 1) / 2 == k && forall d :: k < d < |a| && (d - 1) / 2 == k && d != c ==> !gt(a[c], a[d])
  }

  lemma LesserChild<E(!new)>(gt: (E, E) -> bool, live: E -> bool, a: seq<E>, k: nat, c: nat)
    requires StrictWeak(gt, live) && AllLive(live, a) && 2 * k + 1 < |a|
    requires c == if 2 * k + 2 < |a| && gt(a[2 * k + 1], a[2 * k + 2]) then 2 * k + 2 else 2 * k + 1
    ensures LeastChild(gt, a, k, c)
  {
  }

  lemma StopSifting<E(!new)>(gt: (E, E) -> bool, live: E -> bool, a: seq<E>, lo: nat, k: nat, c: nat)
    requires StrictWeak(gt, live) && AllLive(live, a) && lo <= k < |a| && HeapBelow(gt, a, lo, k)
    requires LeastChild(gt, a, k, c) && !gt(a[k], a[c])
    ensures HeapBelow(gt, a, lo, |a|)
  {
  }

  lemma SwapDown<E(!new)>(gt: (E, E) -> bool, live: E -> bool, a: seq<E>, lo: nat, k: nat, c: nat)
    requires StrictWeak(gt, live) && AllLive(live, a) && lo <= k < |a| && HeapBelow(gt, a, lo, k)
    requires LeastChild(gt, a, k, c) && gt(a[k], a[c])
    ensures AllLive(live, Swap(a, k, c)) && HeapBelow(gt, Swap(a, k, c), lo, c)
  {
  }

  method PopHeap<E(!new)>(gt: (E, E) -> bool, ghost live: E -> bool, a: seq<E>) returns (r: seq<E>)
    requires a != [] && StrictWeak(gt, live) && AllLive(live, a) && IsHeap(gt, a)
    ensures HeapPopped(gt, a, r)
  {
    var n := |a| - 1;
    if n == 0 {
      return a;
    }
    var swapped := Swap(a, 0, n);
    SwapKeepsElements(a, 0, n);
    var front := SiftDown(gt, live, swapped[..n], 0);
    r := front + [a[0]];
    assert swapped == swapped[..n] + [a[0]];
    assert r[..n] == front;
  }

  method MakeHeap<E(!new)>(gt: (E, E) -> bool, ghost live: E -> bool, a: seq<E>) returns (r: seq<E>)
    requires StrictWeak(gt, live) && AllLive(live, a)
    ensures HeapOf(gt, a, r)
  {
    r := a;
    var lo := |a| / 2;
    while lo > 0
      invariant 0 <= lo <= |r| / 2 && |r| == |a| && multiset(r) == multiset(a)
      invariant AllLive(live, r) && HeapBelow(gt, r, lo, |r|)
    {
      lo := lo - 1;
      r := SiftDown(gt, live, r, lo);
    }
  }
}
