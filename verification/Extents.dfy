/** Where a byte interval lies, and the address range a section spans. */
module Extents {
  import opened Options
  import opened Words
  import opened IntervalMaps

  datatype Place = Place(address: Option<Word>, size: Word) {
    /** The addresses covered, when the address is known. */
    function Covered(): Option<Range> {
      if address.Some? then Some(RightOpen(address.value, size)) else None
    }

    function Start(): int {
      if address.Some? then address.value else 0
    }

    function End(): int {
      Start() + size
    }

    /** The address is known, and the end is below 2 to the 64. */
    predicate Ends() {
      address.Some? && End() < WORD
    }

    /** Position in address order: unknown addresses come first. */
    function Key(): int {
      if address.Some? then address.value else -1
    }

    /** Where the addresses covered end, which for an interval whose addresses
        wrap around, as for an empty one, is where they start. */
    function Reach(): int {
      if address.Some? && address.value < RightOpen(address.value, size).hi
      then RightOpen(address.value, size).hi else Key()
    }
  }

  /** The ranges of those members whose address is known. */
  function CoveredBy<X>(members: set<X>, place: map<X, Place>): map<X, Range>
    requires members <= place.Keys
  {
    map x | x in members && place[x].address.Some? :: place[x].Covered().value
  }

  /** A section has an extent if it has intervals and the address of each is
      known; the extent runs from the lowest start to the highest end. */
  ghost predicate IsExtent<X(!new)>(e: Option<Range>, members: set<X>, place: map<X, Place>)
    requires members <= place.Keys
  {
    match e
    case None => members == {} || exists x <- members :: place[x].address.None?
    case Some(r) =>
      && (forall x <- members :: place[x].address.Some? && r.lo <= place[x].address.value && place[x].Reach() <= r.hi)
      && (exists x <- members :: place[x].address == Some(r.lo))
      && exists x <- members :: place[x].Reach() == r.hi
  }

  lemma ExtentIsUnique<X(!new)>(e: Option<Range>, e': Option<Range>, members: set<X>, place: map<X, Place>)
    requires members <= place.Keys && IsExtent(e, members, place) && IsExtent(e', members, place)
    ensures e == e'
  {
  }

  lemma ExtentStays<X(!new)>(e: Option<Range>, members: set<X>, place: map<X, Place>, place': map<X, Place>)
    requires members <= place.Keys && members <= place'.Keys && IsExtent(e, members, place)
    requires forall x <- members :: place[x] == place'[x]
    ensures IsExtent(e, members, place')
  {
  }

  /** As long as no interval wraps around, ends are starts plus sizes. */
  lemma ReachWithoutWrap(p: Place)
    ensures p.Ends() ==> p.Reach() == p.End()
  {
  }

  lemma {:induction false} GreatestExists<X>(xs: set<X>, key: X -> int)
    requires xs != {}
    ensures exists x :: x in xs && forall y <- xs :: key(y) <= key(x)
  {
    var x :| x in xs;
    if xs != {x} {
      GreatestExists(xs - {x}, key);
      var g :| g in xs - {x} && forall y <- xs - {x} :: key(y) <= key(g);
      var best := if key(g) < key(x) then x else g;
      assert forall y <- xs :: y == x || y in xs - {x};
      assert best in xs && forall y <- xs :: key(y) <= key(best);
    }
  }

  /** The upper end of an extent is the start of the last interval in address
      order, or the end of the last segment of the address map if that is higher,
      even though the map has no trace of empty intervals. */
  lemma UpperEnd<X(!new)>(members: set<X>, place: map<X, Place>, m: IntervalMap<X>, first: X, last: X, upper: nat)
    requires members <= place.Keys && first in members && last in members
    requires place[first].address.Some? && Follows(m, CoveredBy(members, place))
    requires forall x <- members :: place[first].Key() <= place[x].Key() <= place[last].Key()
    requires forall k <- m :: k < upper
    requires place[last].Key() <= upper && (upper == place[last].Key() || upper - 1 in m)
    ensures IsExtent(Some(Range(place[first].address.value, upper)), members, place)
  {
    var ranges := CoveredBy(members, place);
    forall x <- members ensures place[x].address.Some? && place[x].Reach() <= upper {
      var p := place[x];
      assert place[first].Key() <= p.Key();
      if p.Reach() != p.Key() {
        assert ranges[x].Has(p.Reach() - 1);
        assert x in At(m, p.Reach() - 1);
      }
    }
    if upper != place[last].Key() {
      var x :| x in m[upper - 1];
      assert x in At(m, upper - 1);
      assert x in ranges && ranges[x].Has(upper - 1);
      assert place[x].Reach() == upper;
    } else {
      assert place[last].Reach() == upper;
    }
  }

  lemma EndsExist<X>(members: set<X>, place: map<X, Place>)
    requires members != {} && members <= place.Keys
    ensures exists x :: x in members && forall y <- members :: place[x].Key() <= place[y].Key()
    ensures exists x :: x in members && forall y <- members :: place[y].Key() <= place[x].Key()
  {
    var key := x => if x in place then place[x].Key() else 0;
    GreatestExists(members, key);
    var last :| last in members && forall y <- members :: key(y) <= key(last);
    assert forall y <- members :: place[y].Key() <= place[last].Key();
    var back := x => -key(x);
    GreatestExists(members, back);
    var first :| first in members && forall y <- members :: back(y) <= back(first);
    assert forall y <- members :: place[first].Key() <= place[y].Key();
  }

  /** The last key of a map, if it has any. */
  method LastKey<X>(m: IntervalMap<X>) returns (last: Option<nat>)
    ensures last.None? ==> m == map[]
    ensures last.Some? ==> last.value in m && forall k <- m :: k <= last.value
  {
    if m == map[] {
      return None;
    }
    GreatestExists(m.Keys, (k: nat) => k as int);
    var top :| top in m && forall k <- m :: k <= top;
    return Some(top);
  }

  /** The extent of some intervals, from the first and the last of them in address
      order and the end of the last segment of their address map. */
  method ExtentOf<X(==, !new)>(members: set<X>, place: map<X, Place>, addrs: IntervalMap<X>)
    returns (e: Option<Range>)
    requires members <= place.Keys && Follows(addrs, CoveredBy(members, place))
    ensures IsExtent(e, members, place)
  {
    if members == {} {
      return None;
    }
    EndsExist(members, place);
    var first :| first in members && forall x <- members :: place[first].Key() <= place[x].Key();
    if place[first].address.None? {
      return None;
    }
    var last :| last in members && forall x <- members :: place[x].Key() <= place[last].Key();
    assert place[first].Key() <= place[last].Key();
    var upper: nat := place[last].address.value;
    var top := LastKey(addrs);
    if top.Some? && upper < top.value + 1 {
      upper := top.value + 1;
    }
    UpperEnd(members, place, addrs, first, last, upper);
    return Some(Range(place[first].address.value, upper));
  }
}
