/** Sequences that list a set, each element once: what an ordered index yields,
    and what merging the yields of several indexes comes to. */
module Listings {
  import opened MergeSorted
  import opened Sequences

  ghost predicate Lists<T(!new)>(s: seq<T>, members: set<T>) {
    Distinct(s) && forall x :: x in s <==> x in members
  }

  lemma {:induction false} LeastExists<T(!new)>(less: (T, T) -> bool, members: set<T>)
    requires Orders(less) && members != {}
    ensures exists x :: x in members && forall y <- members :: !less(y, x)
  {
    var x :| x in members;
    if members == {x} {
      assert !less(x, x);
    } else {
      LeastExists(less, members - {x});
      var z :| z in members - {x} && forall y <- members - {x} :: !less(y, z);
      var least := if less(x, z) then x else z;
      forall y <- members ensures !less(y, least) {
        assert y == x || y in members - {x};
        assert !less(z, x) || !less(x, z);
      }
    }
  }

  /** The elements of an ordered index, from first to last. */
  method InOrder<T(==, !new)>(less: (T, T) -> bool, members: set<T>) returns (out: seq<T>)
    requires Orders(less)
    ensures Lists(out, members) && Sorted(less, out)
  {
    out := [];
    var rest := members;
    while rest != {}
      invariant rest <= members && Lists(out, members - rest) && Sorted(less, out)
      invariant forall i, y :: 0 <= i < |out| && y in rest ==> !less(y, out[i])
    {
      LeastExists(less, rest);
      var x :| x in rest && forall y <- rest :: !less(y, x);
      AppendOne(out, members - rest, x);
      out := out + [x];
      assert members - (rest - {x}) == members - rest + {x};
      rest := rest - {x};
    }
    assert members - rest == members;
  }

  lemma AppendOne<T(!new)>(s: seq<T>, members: set<T>, x: T)
    requires Lists(s, members) && x !in members
    ensures Lists(s + [x], members + {x})
  {
    assert forall i :: 0 <= i < |s| ==> s[i] in s;
  }

  /** The ranges collected so far are sorted and list disjoint parts of `total`. */
  ghost predicate Gathers<T(!new)>(less: (T, T) -> bool, ranges: seq<seq<T>>, total: set<T>) {
    && AllSorted(less, ranges)
    && (forall k :: 0 <= k < |ranges| ==> Distinct(ranges[k]))
    && (forall k, l, x {:trigger x in ranges[k], x in ranges[l]} ::
          0 <= k < l < |ranges| && x in ranges[k] ==> x !in ranges[l])
    && (forall k, x :: 0 <= k < |ranges| && x in ranges[k] ==> x in total)
    && forall x <- total :: exists k :: 0 <= k < |ranges| && x in ranges[k]
  }

  lemma GatherOne<T(!new)>(less: (T, T) -> bool, ranges: seq<seq<T>>, total: set<T>, r: seq<T>, members: set<T>)
    requires Gathers(less, ranges, total) && Lists(r, members) && Sorted(less, r) && members !! total
    ensures Gathers(less, ranges + [r], total + members)
  {
    var after := ranges + [r];
    forall k | 0 <= k < |after| ensures Sorted(less, after[k]) && Distinct(after[k]) {
      assert k < |ranges| ==> after[k] == ranges[k];
    }
    forall x <- total + members ensures exists k :: 0 <= k < |after| && x in after[k] {
      if x in total {
        var k :| 0 <= k < |ranges| && x in ranges[k];
        assert after[k] == ranges[k];
      } else {
        assert after[|ranges|] == r;
      }
    }
  }

  /** What is picked from one source has an element for each place that source
      was picked at, in order. */
  lemma {:induction false} PickedAt<T>(out: seq<T>, from: seq<nat>, s: nat, i: nat) returns (k: nat)
    requires |out| == |from| && i < |out| && from[i] == s
    ensures k < |Picked(out, from, s)| && Picked(out, from, s)[k] == out[i]
    ensures k == |Picked(out[..i], from[..i], s)|
  {
    var n := |out| - 1;
    if i == n {
      k := |Picked(out[..n], from[..n], s)|;
    } else {
      k := PickedAt(out[..n], from[..n], s, i);
      assert out[..n][..i] == out[..i] && from[..n][..i] == from[..i];
    }
  }

  lemma {:induction false} PickedGrows<T>(out: seq<T>, from: seq<nat>, s: nat, i: nat, j: nat)
    requires |out| == |from| && i < j <= |out| && from[i] == s
    ensures |Picked(out[..i], from[..i], s)| < |Picked(out[..j], from[..j], s)|
  {
    var n := j - 1;
    assert out[..j][..n] == out[..n] && from[..j][..n] == from[..n];
    if i < n {
      PickedGrows(out, from, s, i, n);
    }
  }

  lemma {:induction false} PickedFrom<T>(out: seq<T>, from: seq<nat>, s: nat, x: T) returns (i: nat)
    requires |out| == |from| && x in Picked(out, from, s)
    ensures i < |out| && from[i] == s && out[i] == x
  {
    var n := |out| - 1;
    if x in Picked(out[..n], from[..n], s) {
      i := PickedFrom(out[..n], from[..n], s, x);
    } else {
      i := n;
    }
  }

  /** Merging ranges that list disjoint parts lists the whole. */
  lemma MergedLists<T(!new)>(less: (T, T) -> bool, ranges: seq<seq<T>>, total: set<T>, out: seq<T>, from: seq<nat>)
    requires Gathers(less, ranges, total) && Interleaves(ranges, out, from)
    ensures Lists(out, total)
  {
    forall i, j | 0 <= i < j < |out| ensures out[i] != out[j] {
      var a := PickedAt(out, from, from[i], i);
      var b := PickedAt(out, from, from[j], j);
      assert out[i] in ranges[from[i]] && out[j] in ranges[from[j]];
      if from[i] == from[j] {
        PickedGrows(out, from, from[i], i, j);
        assert ranges[from[i]][a] != ranges[from[i]][b];
      }
    }
    forall x ensures x in out <==> x in total {
      if x in out {
        var i :| 0 <= i < |out| && out[i] == x;
        var a := PickedAt(out, from, from[i], i);
        assert x in ranges[from[i]];
      }
      if x in total {
        var k :| 0 <= k < |ranges| && x in ranges[k];
        var i := PickedFrom(out, from, k, x);
      }
    }
  }

  /** A merged iteration over ranges that list disjoint parts of a set. */
  method MergeAll<T(!new)>(less: (T, T) -> bool, ranges: seq<seq<T>>, ghost total: set<T>) returns (out: seq<T>)
    requires Orders(less) && Gathers(less, ranges, total)
    ensures Lists(out, total) && Sorted(less, out)
  {
    out := Iterate(less, ranges);
    ghost var from :| Interleaves(ranges, out, from);
    MergedLists(less, ranges, total, out, from);
  }
}
