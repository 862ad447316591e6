/** The iterator that merges several ranges into one, over a heap of ranges. */
module MergeSorted {
  import opened Heap

  /** A pair of iterators into the source `src`: `rest` is what lies between
      them, the end of that source. */
  datatype Range<T> = Range(src: nat, rest: seq<T>)

  predicate NonEmpty<T>(r: Range<T>) {
    |r.rest| > 0
  }

  /** Empty ranges are greater than all others; else by first element. */
  predicate RangeGreaterThan<T>(less: (T, T) -> bool, r1: Range<T>, r2: Range<T>) {
    if |r1.rest| == 0 then true
    else if |r2.rest| == 0 then false
    else less(r2.rest[0], r1.rest[0])
  }

  function Greater<T>(less: (T, T) -> bool): (Range<T>, Range<T>) -> bool {
    (a: Range<T>, b: Range<T>) => RangeGreaterThan(less, a, b)
  }

  ghost function Stored<T>(): Range<T> -> bool {
    (r: Range<T>) => NonEmpty(r)
  }

  /** `Compare` is a strict weak order. */
  ghost predicate Orders<T(!new)>(less: (T, T) -> bool) {
    StrictWeak(less, (x: T) => true)
  }

  lemma RangesAreOrdered<T(!new)>(less: (T, T) -> bool)
    requires Orders(less)
    ensures StrictWeak(Greater(less), Stored<T>())
  {
  }

  class MergeSortedIterator<T(!new)> {
    const less: (T, T) -> bool
    var ranges: seq<Range<T>>

    /** No empty range is ever stored, and the heap order holds. */
    ghost predicate Valid()
      reads this
    {
      Orders(less) && AllLive(Stored<T>(), ranges) && IsHeap(Greater(less), ranges)
    }

    /** The ranges held, in any order. */
    ghost function Held(): multiset<Range<T>>
      reads this
    {
      multiset(ranges)
    }

    constructor (less: (T, T) -> bool, sources: seq<seq<T>>)
      requires Orders(less)
      ensures Valid() && this.less == less && Held() == multiset(NonEmptyRanges(sources, |sources|))
    {
      this.less := less;
      new;
      ranges := [];
      for i := 0 to |sources|
        invariant ranges == NonEmptyRanges(sources, i)
        invariant forall j :: 0 <= j < |ranges| ==> NonEmpty(ranges[j])
      {
        if sources[i] != [] {
          ranges := ranges + [Range(i, sources[i])];
        }
      }
      RangesAreOrdered(less);
      var before := ranges;
      ranges := MakeHeap(Greater(less), Stored<T>(), ranges);
      SameElementsSameLife(Stored<T>(), before, ranges);
    }

    predicate AtEnd()
      reads this
    {
      |ranges| == 0
    }

    function Dereference(): T
      reads this
      requires |ranges| > 0 && NonEmpty(ranges[0])
    {
      ranges[0].rest[0]
    }

    method Increment()
      requires Valid() && !AtEnd()
      modifies this
      ensures Valid() && Held() == Advance(old(Held()), old(ranges[0]))
    {
      RangesAreOrdered(less);
      var popped := PopHeap(Greater(less), Stored<T>(), ranges);
      AfterPop(less, ranges, popped);
      var n := |popped| - 1;
      var others := popped[..n];
      var back := Range(popped[n].src, popped[n].rest[1..]);
      if |back.rest| == 0 {
        ranges := others;
      } else {
        var pushed := others + [back];
        BeforePush(less, others, back);
        ranges := PushHeap(Greater(less), Stored<T>(), pushed);
        SameElementsSameLife(Stored<T>(), pushed, ranges);
      }
    }
  }

  /** What pop_heap leaves: the front at the back, a heap of the others. */
  lemma AfterPop<T(!new)>(less: (T, T) -> bool, before: seq<Range<T>>, popped: seq<Range<T>>)
    requires before != [] && AllLive(Stored<T>(), before) && HeapPopped(Greater(less), before, popped)
    ensures var others := popped[..|popped| - 1];
            && popped[|popped| - 1] == before[0] && NonEmpty(before[0])
            && AllLive(Stored<T>(), others) && IsHeap(Greater(less), others)
            && multiset(others) == multiset(before) - multiset{before[0]}
  {
    SameElementsSameLife(Stored<T>(), before, popped);
    WithoutLast(popped);
  }

  lemma BeforePush<T(!new)>(less: (T, T) -> bool, others: seq<Range<T>>, back: Range<T>)
    requires AllLive(Stored<T>(), others) && IsHeap(Greater(less), others) && NonEmpty(back)
    ensures var pushed := others + [back];
            && pushed[..|pushed| - 1] == others && AllLive(Stored<T>(), pushed)
            && multiset(pushed) == multiset(others) + multiset{back}
  {
  }

  lemma WithoutLast<E>(a: seq<E>)
    requires |a| > 0
    ensures multiset(a[..|a| - 1]) == multiset(a) - multiset{a[|a| - 1]}
  {
    assert a == a[..|a| - 1] + [a[|a| - 1]];
  }

  lemma SameElementsSameLife<E>(live: E -> bool, a: seq<E>, b: seq<E>)
    requires multiset(a) == multiset(b) && AllLive(live, a)
    ensures AllLive(live, b)
  {
    forall i | 0 <= i < |b| ensures live(b[i]) {
      assert b[i] in multiset(b);
      assert b[i] in a;
    }
  }

  function NonEmptyRanges<T>(sources: seq<seq<T>>, n: nat): seq<Range<T>>
    requires n <= |sources|
  {
    if n == 0 then []
    else if |sources[n - 1]| == 0 then NonEmptyRanges(sources, n - 1)
    else NonEmptyRanges(sources, n - 1) + [Range(n - 1, sources[n - 1])]
  }

  /** The held ranges once `r` has moved to its next element. */
  ghost function Advance<T>(held: multiset<Range<T>>, r: Range<T>): multiset<Range<T>>
    requires NonEmpty(r)
  {
    if |r.rest| == 1 then held - multiset{r} else held - multiset{r} + multiset{Range(r.src, r.rest[1..])}
  }

  // --------------------------------------------------------- full iteration

  /** The elements of `out` that came from source `s`, in order. */
  function Picked<T>(out: seq<T>, from: seq<nat>, s: nat): (p: seq<T>)
    requires |out| == |from|
  {
    if out == [] then []
    else
      var n := |out| - 1;
      Picked(out[..n], from[..n], s) + (if from[n] == s then [out[n]] else [])
  }

  /** `out` interleaves the sources: `from` names a source for each element,
      and the elements from one source are that source, in its order. */
  ghost predicate Interleaves<T>(sources: seq<seq<T>>, out: seq<T>, from: seq<nat>) {
    && |out| == |from|
    && (forall i :: 0 <= i < |from| ==> from[i] < |sources|)
    && forall s :: 0 <= s < |sources| ==> Picked(out, from, s) == sources[s]
  }

  predicate Sorted<T>(less: (T, T) -> bool, s: seq<T>) {
    forall i, j :: 0 <= i < j < |s| ==> !less(s[j], s[i])
  }

  predicate AllSorted<T>(less: (T, T) -> bool, sources: seq<seq<T>>) {
    forall s :: 0 <= s < |sources| ==> Sorted(less, sources[s])
  }

  /** What the range still has to give is what is missing from its source. */
  predicate Owes<T(==)>(sources: seq<seq<T>>, out: seq<T>, from: seq<nat>, r: Range<T>)
    requires |out| == |from|
  {
    NonEmpty(r) && r.src < |sources| && Picked(out, from, r.src) + r.rest == sources[r.src]
  }

  ghost predicate OnePerSource<T(!new)>(held: multiset<Range<T>>) {
    && (forall r {:trigger held[r]} :: held[r] <= 1)
    && (forall q, r {:trigger held[q], held[r]} :: q in held && r in held && q.src == r.src ==> q == r)
  }

  ghost predicate Paid<T(!new)>(sources: seq<seq<T>>, held: multiset<Range<T>>, out: seq<T>, from: seq<nat>, s: nat)
    requires |out| == |from| && s < |sources|
  {
    Picked(out, from, s) == sources[s] || exists r :: r in held && r.src == s
  }

  /** Every held range owes the rest of its source, and nothing is missing
      from a source that no held range belongs to. */
  ghost predicate Pending<T(!new)>(sources: seq<seq<T>>, held: multiset<Range<T>>, out: seq<T>, from: seq<nat>) {
    && |out| == |from|
    && (forall i :: 0 <= i < |from| ==> from[i] < |sources|)
    && OnePerSource(held)
    && (forall r {:trigger held[r]} :: r in held ==> Owes(sources, out, from, r))
    && (forall s {:trigger sources[s]} :: 0 <= s < |sources| ==> Paid(sources, held, out, from, s))
  }

  /** Nothing held is less than what has been emitted. */
  ghost predicate Later<T(!new)>(less: (T, T) -> bool, held: multiset<Range<T>>, out: seq<T>) {
    && Sorted(less, out)
    && forall r, i {:trigger held[r], out[i]} ::
         r in held && NonEmpty(r) && 0 <= i < |out| ==> !less(r.rest[0], out[i])
  }

  lemma PickedOfAppended<T>(out: seq<T>, from: seq<nat>, x: T, f: nat, s: nat)
    requires |out| == |from|
    ensures Picked(out + [x], from + [f], s) == Picked(out, from, s) + (if f == s then [x] else [])
  {
    assert (out + [x])[..|out|] == out && (from + [f])[..|out|] == from;
  }

  lemma RangesStored<T(!new)>(sources: seq<seq<T>>, n: nat)
    requires n <= |sources|
    ensures var held := multiset(NonEmptyRanges(sources, n));
            && (forall r {:trigger held[r]} :: r in held ==>
                  NonEmpty(r) && held[r] == 1 && r.src < n && r.rest == sources[r.src])
            && (forall s {:trigger sources[s]} :: 0 <= s < n && sources[s] != [] ==> Range(s, sources[s]) in held)
  {
  }

  lemma NothingEmitted<T(!new)>(sources: seq<seq<T>>, out: seq<T>, from: seq<nat>)
    requires out == [] && from == []
    ensures Pending(sources, multiset(NonEmptyRanges(sources, |sources|)), out, from)
  {
    RangesStored(sources, |sources|);
    var held := multiset(NonEmptyRanges(sources, |sources|));
    forall s | 0 <= s < |sources| ensures Paid(sources, held, out, from, s) {
      assert sources[s] != [] ==> Range(s, sources[s]) in held;
    }
    forall r | r in held ensures Owes(sources, out, from, r) {
      assert [] + r.rest == r.rest;
    }
  }

  lemma AdvanceIsOnePerSource<T(!new)>(held: multiset<Range<T>>, r: Range<T>)
    requires OnePerSource(held) && r in held && NonEmpty(r)
    ensures OnePerSource(Advance(held, r))
    ensures forall q {:trigger Advance(held, r)[q]} :: q in Advance(held, r) ==>
              (q.src == r.src && |r.rest| > 1 && q == Range(r.src, r.rest[1..])) || (q in held && q.src != r.src)
    ensures forall q {:trigger held[q]} :: q in held && q.src != r.src ==> q in Advance(held, r)
  {
    var next := Range(r.src, r.rest[1..]);
    assert next.src == r.src && next != r;
    assert next !in held;
  }

  lemma OtherStillOwes<T(!new)>(sources: seq<seq<T>>, out: seq<T>, from: seq<nat>, r: Range<T>, q: Range<T>)
    requires |out| == |from| && NonEmpty(r) && Owes(sources, out, from, q) && q.src != r.src
    ensures Owes(sources, out + [r.rest[0]], from + [r.src], q)
  {
    PickedOfAppended(out, from, r.rest[0], r.src, q.src);
  }

  lemma NextOwes<T(!new)>(sources: seq<seq<T>>, out: seq<T>, from: seq<nat>, r: Range<T>)
    requires |out| == |from| && Owes(sources, out, from, r)
    ensures Picked(out + [r.rest[0]], from + [r.src], r.src) + r.rest[1..] == sources[r.src]
  {
    PickedOfAppended(out, from, r.rest[0], r.src, r.src);
    MoveHead(Picked(out, from, r.src), r.rest);
  }

  lemma MoveHead<T>(p: seq<T>, t: seq<T>)
    requires |t| > 0
    ensures p + [t[0]] + t[1..] == p + t
  {
  }

  lemma StillPaid<T(!new)>(sources: seq<seq<T>>, held: multiset<Range<T>>, out: seq<T>, from: seq<nat>,
                           r: Range<T>, s: nat)
    requires Pending(sources, held, out, from) && r in held && s < |sources|
    ensures Paid(sources, Advance(held, r), out + [r.rest[0]], from + [r.src], s)
  {
    AdvanceIsOnePerSource(held, r);
    PickedOfAppended(out, from, r.rest[0], r.src, s);
    if s != r.src {
      assert Paid(sources, held, out, from, s);
      if Picked(out, from, s) != sources[s] {
        var q :| q in held && q.src == s;
        assert q in Advance(held, r);
      }
    } else {
      NextOwes(sources, out, from, r);
      if |r.rest| > 1 {
        assert Range(r.src, r.rest[1..]) in Advance(held, r);
      } else {
        assert Picked(out + [r.rest[0]], from + [r.src], s) + [] == sources[s];
      }
    }
  }

  /** Emitting the first element of a held range. */
  lemma EmitKeepsPending<T(!new)>(sources: seq<seq<T>>, held: multiset<Range<T>>, out: seq<T>, from: seq<nat>,
                                  r: Range<T>)
    requires Pending(sources, held, out, from) && r in held
    ensures Pending(sources, Advance(held, r), out + [r.rest[0]], from + [r.src])
  {
    var held' := Advance(held, r);
    AdvanceIsOnePerSource(held, r);
    forall q | q in held' ensures Owes(sources, out + [r.rest[0]], from + [r.src], q) {
      if q.src == r.src {
        NextOwes(sources, out, from, r);
      } else {
        OtherStillOwes(sources, out, from, r, q);
      }
    }
    forall s | 0 <= s < |sources| ensures Paid(sources, held', out + [r.rest[0]], from + [r.src], s) {
      StillPaid(sources, held, out, from, r, s);
    }
  }

  lemma NextIsNotLess<T(!new)>(less: (T, T) -> bool, sources: seq<seq<T>>, out: seq<T>, from: seq<nat>, r: Range<T>)
    requires AllSorted(less, sources) && |out| == |from| && Owes(sources, out, from, r) && |r.rest| > 1
    ensures !less(r.rest[1], r.rest[0])
  {
    var p := |sources[r.src]| - |r.rest|;
    assert sources[r.src][p] == r.rest[0] && sources[r.src][p + 1] == r.rest[1];
  }

  lemma EmitKeepsLater<T(!new)>(less: (T, T) -> bool, sources: seq<seq<T>>, held: multiset<Range<T>>,
                                out: seq<T>, from: seq<nat>, r: Range<T>)
    requires Orders(less) && AllSorted(less, sources) && Pending(sources, held, out, from) && Later(less, held, out)
    requires r in held && forall q {:trigger held[q]} :: q in held ==> !less(q.rest[0], r.rest[0])
    ensures Later(less, Advance(held, r), out + [r.rest[0]])
  {
    var held', out', x := Advance(held, r), out + [r.rest[0]], r.rest[0];
    forall q | q in held' && NonEmpty(q) ensures !less(q.rest[0], x) {
      if q !in held {
        assert Owes(sources, out, from, r);
        NextIsNotLess(less, sources, out, from, r);
      }
    }
    forall q, i | q in held' && NonEmpty(q) && 0 <= i < |out'| ensures !less(q.rest[0], out'[i]) {
      assert !less(q.rest[0], x);
      if i < |out| {
        assert !less(x, out[i]);
      }
    }
  }

  function TotalLength<T>(sources: seq<seq<T>>, n: nat): nat
    requires n <= |sources|
  {
    if n == 0 then 0 else TotalLength(sources, n - 1) + |sources[n - 1]|
  }

  function TotalPicked<T>(out: seq<T>, from: seq<nat>, n: nat): nat
    requires |out| == |from|
  {
    if n == 0 then 0 else TotalPicked(out, from, n - 1) + |Picked(out, from, n - 1)|
  }

  lemma {:induction false} TotalPickedOfAppended<T>(out: seq<T>, from: seq<nat>, x: T, f: nat, n: nat)
    requires |out| == |from|
    ensures TotalPicked(out + [x], from + [f], n) == TotalPicked(out, from, n) + if f < n then 1 else 0
  {
    if n > 0 {
      TotalPickedOfAppended(out, from, x, f, n - 1);
      PickedOfAppended(out, from, x, f, n - 1);
    }
  }

  lemma EachAtMost<T(!new)>(sources: seq<seq<T>>, held: multiset<Range<T>>, out: seq<T>, from: seq<nat>)
    requires Pending(sources, held, out, from)
    ensures forall s :: 0 <= s < |sources| ==> |Picked(out, from, s)| <= |sources[s]|
  {
    forall s | 0 <= s < |sources| ensures |Picked(out, from, s)| <= |sources[s]| {
      assert Paid(sources, held, out, from, s);
      if Picked(out, from, s) != sources[s] {
        var r :| r in held && r.src == s;
        assert held[r] > 0 && Owes(sources, out, from, r);
      }
    }
  }

  lemma {:induction false} PickedAtMost<T(!new)>(sources: seq<seq<T>>, out: seq<T>, from: seq<nat>, n: nat)
    requires |out| == |from| && n <= |sources|
    requires forall s :: 0 <= s < |sources| ==> |Picked(out, from, s)| <= |sources[s]|
    ensures TotalPicked(out, from, n) <= TotalLength(sources, n)
  {
    if n > 0 {
      PickedAtMost(sources, out, from, n - 1);
    }
  }

  /** `for (x : merged)`: the whole iteration ends, emits an interleaving of
      the sources, and emits it in order if the sources are in order. */
  method Iterate<T(!new)>(less: (T, T) -> bool, sources: seq<seq<T>>) returns (out: seq<T>)
    requires Orders(less)
    ensures exists from :: Interleaves(sources, out, from)
    ensures AllSorted(less, sources) ==> Sorted(less, out)
  {
    var it := new MergeSortedIterator(less, sources);
    out := [];
    ghost var from: seq<nat> := [];
    NothingEmitted(sources, out, from);
    assert TotalPicked(out, from, |sources|) == 0 by { NothingPicked(out, from, |sources|); }
    while !it.AtEnd()
      invariant it.Valid() && it.less == less && fresh(it)
      invariant Pending(sources, it.Held(), out, from)
      invariant AllSorted(less, sources) ==> Later(less, it.Held(), out)
      invariant |out| == TotalPicked(out, from, |sources|) <= TotalLength(sources, |sources|)
      decreases TotalLength(sources, |sources|) - |out|
    {
      ghost var r := it.ranges[0];
      EmissionIsSound(less, sources, it.ranges, out, from);
      out := out + [it.Dereference()];
      from := from + [r.src];
      it.Increment();
    }
    NothingIsLeft(sources, it.Held(), out, from);
  }

  lemma NothingIsLeft<T(!new)>(sources: seq<seq<T>>, held: multiset<Range<T>>, out: seq<T>, from: seq<nat>)
    requires Pending(sources, held, out, from) && held == multiset{}
    ensures Interleaves(sources, out, from)
  {
    forall s | 0 <= s < |sources| ensures Picked(out, from, s) == sources[s] {
      assert Paid(sources, held, out, from, s);
    }
  }

  /** Emitting the front of the heap keeps everything the iteration relies on. */
  lemma EmissionIsSound<T(!new)>(less: (T, T) -> bool, sources: seq<seq<T>>, ranges: seq<Range<T>>,
                                 out: seq<T>, from: seq<nat>)
    requires Orders(less) && ranges != [] && AllLive(Stored<T>(), ranges) && IsHeap(Greater(less), ranges)
    requires Pending(sources, multiset(ranges), out, from) && |out| == TotalPicked(out, from, |sources|)
    requires AllSorted(less, sources) ==> Later(less, multiset(ranges), out)
    ensures NonEmpty(ranges[0])
    ensures var r := ranges[0];
            var held', out', from' := Advance(multiset(ranges), r), out + [r.rest[0]], from + [r.src];
            && Pending(sources, held', out', from')
            && |out'| == TotalPicked(out', from', |sources|) <= TotalLength(sources, |sources|)
            && (AllSorted(less, sources) ==> Later(less, held', out'))
  {
    var held, r := multiset(ranges), ranges[0];
    assert r in held;
    EmitKeepsPending(sources, held, out, from, r);
    TotalPickedOfAppended(out, from, r.rest[0], r.src, |sources|);
    EachAtMost(sources, Advance(held, r), out + [r.rest[0]], from + [r.src]);
    PickedAtMost(sources, out + [r.rest[0]], from + [r.src], |sources|);
    if AllSorted(less, sources) {
      FirstIsLeast(less, ranges);
      EmitKeepsLater(less, sources, held, out, from, r);
    }
  }

  lemma {:induction false} NothingPicked<T>(out: seq<T>, from: seq<nat>, n: nat)
    requires out == [] && from == []
    ensures TotalPicked(out, from, n) == 0
  {
    if n > 0 {
      NothingPicked(out, from, n - 1);
    }
  }

  lemma FirstIsLeast<T(!new)>(less: (T, T) -> bool, ranges: seq<Range<T>>)
    requires Orders(less) && ranges != [] && AllLive(Stored<T>(), ranges) && IsHeap(Greater(less), ranges)
    ensures forall q {:trigger multiset(ranges)[q]} :: q in multiset(ranges) ==>
              !less(q.rest[0], ranges[0].rest[0])
  {
    RangesAreOrdered(less);
    forall q | q in multiset(ranges) ensures NonEmpty(q) && !less(q.rest[0], ranges[0].rest[0]) {
      assert q in ranges;
      var i :| 0 <= i < |ranges| && ranges[i] == q;
      FrontIsLeast(Greater(less), Stored<T>(), ranges, i);
    }
  }
}
