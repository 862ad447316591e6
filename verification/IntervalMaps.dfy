/** `boost::icl::interval_map` with sets as values, point by point: what it holds
    at a key, how adding and subtracting a half-open range change that, and what
    it means for such a map to follow a collection of ranges. Keys are 64-bit. */
module IntervalMaps {
  import opened Words

  type Word = x: nat | x < WORD

  type IntervalMap<X> = map<nat, set<X>>

  /** The keys from `lo` up to, but not including, `hi`. */
  datatype Range = Range(lo: nat, hi: nat) {
    predicate Has(k: nat) {
      lo <= k < hi
    }
  }

  /** What `right_open(start, start + length)` covers: the end wraps around. */
  function RightOpen(start: Word, length: Word): (r: Range)
    ensures start + length < WORD ==> r == Range(start, start + length)
    ensures start + length >= WORD ==> r.hi < r.lo == start
  {
    Range(start, (start + length) % WORD)
  }

  function At<X>(m: IntervalMap<X>, k: nat): set<X> {
    if k in m then m[k] else {}
  }

  function Span(r: Range): set<nat> {
    set k: nat {:trigger r.Has(k)} | r.lo <= k < r.hi && r.Has(k)
  }

  function Add<X>(m: IntervalMap<X>, r: Range, x: X): IntervalMap<X> {
    map k | k in m.Keys + Span(r) :: if r.Has(k) then At(m, k) + {x} else m[k]
  }

  /** Keys left with nothing are dropped. */
  function Subtract<X>(m: IntervalMap<X>, r: Range, x: X): IntervalMap<X> {
    map k | k in m && !(r.Has(k) && m[k] <= {x}) :: if r.Has(k) then m[k] - {x} else m[k]
  }

  /** The map holds, at each key, exactly the members whose range has that key,
      and nothing else. */
  ghost predicate Follows<X(!new)>(m: IntervalMap<X>, ranges: map<X, Range>) {
    && (forall k, x :: x in At(m, k) <==> x in ranges && ranges[x].Has(k))
    && forall k <- m :: m[k] != {}
  }

  lemma AddFollows<X(!new)>(m: IntervalMap<X>, ranges: map<X, Range>, x: X, r: Range)
    requires Follows(m, ranges) && x !in ranges
    ensures Follows(Add(m, r, x), ranges[x := r])
  {
    var n := Add(m, r, x);
    forall k, y ensures y in At(n, k) <==> y in At(m, k) || (y == x && r.Has(k)) {
    }
  }

  lemma SubtractFollows<X(!new)>(m: IntervalMap<X>, ranges: map<X, Range>, x: X)
    requires Follows(m, ranges) && x in ranges
    ensures Follows(Subtract(m, ranges[x], x), ranges - {x})
  {
    var n := Subtract(m, ranges[x], x);
    forall k, y ensures y in At(n, k) <==> y in At(m, k) && y != x {
      assert x in At(m, k) <==> ranges[x].Has(k);
    }
  }

  /** Only one map holds exactly these ranges. */
  lemma FollowsIsUnique<X(!new)>(m: IntervalMap<X>, n: IntervalMap<X>, ranges: map<X, Range>)
    requires Follows(m, ranges) && Follows(n, ranges)
    ensures m == n
  {
    forall k: nat, x ensures x in At(m, k) <==> x in At(n, k) {
      assert x in At(m, k) <==> x in ranges && ranges[x].Has(k);
      assert x in At(n, k) <==> x in ranges && ranges[x].Has(k);
    }
    forall k: nat ensures At(m, k) == At(n, k) {
    }
    forall k: nat ensures k in m <==> k in n {
      assert At(m, k) == At(n, k);
    }
    forall k <- m ensures m[k] == n[k] {
      assert At(m, k) == At(n, k);
    }
  }
}
