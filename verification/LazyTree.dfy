/** The lazily updated interval tree of the Python API, together with the
    client operations that keep its event log. */
module LazyTree {
  import opened Options

  type Node = nat

  datatype Interval = Interval(begin: int, end: int, data: Node)
  datatype Event = Added(interval: Interval) | Discarded(interval: Interval)

  /** Where a node lies at present, if that is known. */
  datatype Extent = Unknown | Span(begin: int, end: int)

  function MadeFrom(extents: map<Node, Extent>, v: Node): Option<Interval> {
    if v !in extents || extents[v].Unknown? then None else Some(Interval(extents[v].begin, extents[v].end, v))
  }

  /** Offset and size of all nodes, whoever has them at present. */
  class Attributes {
    var extents: map<Node, Extent>

    constructor ()
      ensures extents == map[]
    {
      extents := map[];
    }
  }

  /** The values of an owner. */
  class Collection {
    const attributes: Attributes
    var data: set<Node>

    constructor (attributes: Attributes)
      ensures this.attributes == attributes && data == {}
    {
      this.attributes := attributes;
      data := {};
    }

    function MakeInterval(v: Node): Option<Interval>
      reads attributes
    {
      MadeFrom(attributes.extents, v)
    }

    /** The intervals of all present values. */
    function Intervals(): set<Interval>
      reads this, attributes
    {
      IntervalsOf(data, attributes.extents)
    }
  }

  function IntervalsOf(data: set<Node>, extents: map<Node, Extent>): set<Interval> {
    set v | v in data && v in extents && extents[v].Span? :: Interval(extents[v].begin, extents[v].end, v)
  }

  /** How many of the values have an interval. */
  function Known(values: set<Node>, extents: map<Node, Extent>): nat {
    |IntervalsOf(values, extents)|
  }

  /** Different values have different intervals. */
  lemma OneMoreInterval(values: set<Node>, extents: map<Node, Extent>, v: Node)
    requires v !in values
    ensures match MadeFrom(extents, v)
            case None => IntervalsOf(values + {v}, extents) == IntervalsOf(values, extents)
            case Some(i) => IntervalsOf(values + {v}, extents) == IntervalsOf(values, extents) + {i}
    ensures Known(values + {v}, extents) == Known(values, extents) + if MadeFrom(extents, v).Some? then 1 else 0
  {
    var before, after := IntervalsOf(values, extents), IntervalsOf(values + {v}, extents);
    match MadeFrom(extents, v)
    case None => assert after == before;
    case Some(i) => assert after == before + {i} && i !in before;
  }

  /** One value has been dealt with. */
  lemma OneLess(all: set<Node>, todo: set<Node>, v: Node)
    requires todo <= all && v in todo
    ensures all - (todo - {v}) == all - todo + {v} && v !in all - todo
  {
  }

  function Apply(index: set<Interval>, e: Event): set<Interval> {
    match e case Added(i) => index + {i} case Discarded(i) => index - {i}
  }

  /** The index once all events have been applied in order. */
  function Replay(index: set<Interval>, events: seq<Event>): set<Interval> {
    if events == [] then index
    else Apply(Replay(index, events[..|events| - 1]), events[|events| - 1])
  }

  lemma ReplayOneMore(index: set<Interval>, events: seq<Event>, e: Event)
    ensures Replay(index, events + [e]) == Apply(Replay(index, events), e)
  {
    assert (events + [e])[..|events|] == events;
  }

  class LazyIntervalTree {
    const values: Collection
    var index: Option<set<Interval>>
    var events: seq<Event>

    ghost var work: nat        // elementary updates of the tree so far
    ghost var logged: nat      // events logged so far
    ghost var firstSize: nat   // size of the collection at the first `Get`

    /** Applying the pending events to the index gives the present intervals. */
    ghost predicate Current()
      reads this, values, values.attributes
    {
      index.Some? ==> Replay(index.value, events) == values.Intervals()
    }

    /** Every update so far, and every one still pending, has been paid for. */
    ghost predicate Amortized()
      reads this
    {
      if index.None? then work == 0 && |events| <= logged
      else work + |events| <= firstSize + logged
    }

    constructor (values: Collection)
      ensures this.values == values && index == None && events == [] && work == 0 && logged == 0
    {
      this.values := values;
      index, events, work, logged, firstSize := None, [], 0, 0, 0;
    }

    method Add(v: Node)
      requires Amortized()
      modifies this
      ensures index == old(index) && firstSize == old(firstSize) && Amortized()
      ensures events == old(events) + match values.MakeInterval(v) case None => [] case Some(i) => [Added(i)]
      ensures logged == old(logged) + |events| - |old(events)| && work == old(work)
    {
      var interval := values.MakeInterval(v);
      if interval.Some? {
        events := events + [Added(interval.value)];
        logged := logged + 1;
      }
    }

    method Discard(v: Node)
      requires Amortized()
      modifies this
      ensures index == old(index) && firstSize == old(firstSize) && Amortized()
      ensures events == old(events) + match values.MakeInterval(v) case None => [] case Some(i) => [Discarded(i)]
      ensures logged == old(logged) + |events| - |old(events)| && work == old(work)
    {
      var interval := values.MakeInterval(v);
      if interval.Some? {
        events := events + [Discarded(interval.value)];
        logged := logged + 1;
      }
    }

    /** A new tree from all values, one update for each interval. */
    method Build() returns (tree: set<Interval>, ghost updates: nat)
      ensures tree == values.Intervals() && updates == |tree| <= |values.data|
    {
      tree, updates := {}, 0;
      var todo := values.data;
      while todo != {}
        invariant todo <= values.data && updates + |todo| <= |values.data| && updates == |tree|
        invariant tree == IntervalsOf(values.data - todo, values.attributes.extents)
        decreases todo
      {
        var v :| v in todo;
        var interval := values.MakeInterval(v);
        OneLess(values.data, todo, v);
        OneMoreInterval(values.data - todo, values.attributes.extents, v);
        if interval.Some? {
          tree := tree + {interval.value};
          updates := updates + 1;
        }
        todo := todo - {v};
      }
    }

    /** Always returns the intervals of the present values; all updates made so
        far are at most the first size plus the number of logged events. */
    method Get() returns (tree: set<Interval>)
      requires Current() && Amortized()
      modifies this
      ensures Current() && Amortized() && index.Some? && tree == index.value == values.Intervals()
      ensures work <= firstSize + logged && logged == old(logged) && events == []
      ensures firstSize == if old(index).None? then |values.data| else old(firstSize)
      ensures work == old(work) + if old(index).None? || |values.data| <= |old(events)| then |tree| else |old(events)|
    {
      ghost var updates := 0;
      if index.None? {
        firstSize := |values.data|;
        tree, updates := Build();
      } else if |values.data| <= |events| {
        tree, updates := Build();
      } else {
        tree := index.value;
        for i := 0 to |events|
          invariant unchanged(this)
          invariant tree == Replay(index.value, events[..i]) && updates == i
        {
          assert events[..i + 1] == events[..i] + [events[i]];
          ReplayOneMore(index.value, events[..i], events[i]);
          match events[i] {
            case Added(interval) => tree := tree + {interval};
            case Discarded(interval) => tree := tree - {interval};
          }
          updates := updates + 1;
        }
        assert events[..|events|] == events;
      }
      index := Some(tree);
      work := work + updates;
      events := [];
    }
  }

  /** The owner of the collection. It logs each change with the interval in
      force at that moment. */
  class Owner {
    const blocks: Collection
    const tree: LazyIntervalTree

    ghost predicate Valid()
      reads this, blocks, blocks.attributes, tree
    {
      tree.values == blocks && tree.Current() && tree.Amortized()
    }

    /** Another owner. */
    predicate Apart(o: Owner)
      reads this
    {
      o.blocks != blocks && o.tree != tree
    }

    constructor (attributes: Attributes)
      ensures Valid() && fresh(blocks) && fresh(tree) && blocks.attributes == attributes
      ensures blocks.data == {} && tree.index == None && tree.logged == 0 && tree.work == 0
    {
      var c := new Collection(attributes);
      blocks := c;
      tree := new LazyIntervalTree(c);
    }

    /** Adding values: each is taken out of its former owner, if it has one, all
        are logged, and then the collection grows. */
    method Update(items: set<Node>, former: map<Node, Owner>)
      requires Valid() && forall v <- former :: former[v].Valid() && Apart(former[v])
      requires forall o <- former.Values, p <- former.Values | o != p :: o.Apart(p)
      modifies blocks, tree, set o <- former.Values :: o.blocks, set o <- former.Values :: o.tree
      ensures Valid() && blocks.data == old(blocks.data) + items
      ensures tree.logged
           == old(tree.logged) + Known(items - old(blocks.data), blocks.attributes.extents)
      ensures tree.work == old(tree.work) && tree.index == old(tree.index) && tree.firstSize == old(tree.firstSize)
      ensures forall o <- former.Values ::
                o.Valid() && o.blocks.data == old(o.blocks.data) - From(o, items - old(blocks.data), former)
    {
      var newItems := items - blocks.data;
      TakeOut(newItems, former);
      Enter(newItems);
      blocks.data := blocks.data + newItems;
    }

    method TakeOut(items: set<Node>, former: map<Node, Owner>)
      requires forall v <- former :: former[v].Valid() && Apart(former[v])
      requires forall o <- former.Values, p <- former.Values | o != p :: o.Apart(p)
      modifies set o <- former.Values :: o.blocks, set o <- former.Values :: o.tree
      ensures forall o <- former.Values ::
                o.Valid() && o.blocks.data == old(o.blocks.data) - From(o, items, former)
    {
      var todo := items;
      while todo != {}
        invariant todo <= items
        invariant forall o <- former.Values ::
                    o.Valid() && o.blocks.data == old(o.blocks.data) - From(o, items - todo, former)
        decreases todo
      {
        var v :| v in todo;
        GiveUp(v, former);
        forall o { FromOneMore(o, items - todo, v, former); }
        assert items - (todo - {v}) == items - todo + {v};
        todo := todo - {v};
      }
    }

    method GiveUp(v: Node, former: map<Node, Owner>)
      requires forall v <- former :: former[v].Valid() && Apart(former[v])
      requires forall o <- former.Values, p <- former.Values | o != p :: o.Apart(p)
      modifies set o <- former.Values :: o.blocks, set o <- former.Values :: o.tree
      ensures forall o <- former.Values ::
                && o.Valid()
                && o.blocks.data == old(o.blocks.data) - if v in former && former[v] == o then {v} else {}
    {
      if v in former {
        var f := former[v];
        f.Discard(v);
        forall o <- former.Values
          ensures o.Valid() && o.blocks.data == old(o.blocks.data) - if former[v] == o then {v} else {}
        {
          if o != f {
            assert o.Apart(f);
          }
        }
      } else {
        forall o <- former.Values ensures o.Valid() && o.blocks.data == old(o.blocks.data) {
          var w :| w in former && former[w] == o;
        }
      }
    }

    /** What replaying the log will give. */
    ghost predicate WillHold(data: set<Node>)
      reads this, blocks, blocks.attributes, tree
    {
      tree.index.Some? ==> Replay(tree.index.value, tree.events) == IntervalsOf(data, blocks.attributes.extents)
    }

    method Enter(newItems: set<Node>)
      requires Valid() && newItems !! blocks.data
      modifies tree
      ensures tree.Amortized() && WillHold(blocks.data + newItems)
      ensures tree.index == old(tree.index) && tree.work == old(tree.work) && tree.firstSize == old(tree.firstSize)
      ensures tree.logged == old(tree.logged) + Known(newItems, blocks.attributes.extents)
    {
      var todo := newItems;
      ghost var extents := blocks.attributes.extents;
      NothingYet(blocks.data, newItems, extents);
      while todo != {}
        invariant todo <= newItems && tree.Amortized() && WillHold(blocks.data + (newItems - todo))
        invariant tree.index == old(tree.index) && tree.work == old(tree.work) && tree.firstSize == old(tree.firstSize)
        invariant tree.logged == old(tree.logged) + Known(newItems - todo, extents)
        decreases todo
      {
        var v :| v in todo;
        OneLess(newItems, todo, v);
        OneMoreInterval(newItems - todo, extents, v);
        LogNew(v, blocks.data + (newItems - todo));
        assert blocks.data + (newItems - todo + {v}) == blocks.data + (newItems - todo) + {v};
        todo := todo - {v};
      }
      assert newItems - todo == newItems;
    }

    method LogNew(v: Node, ghost data: set<Node>)
      requires tree.values == blocks && tree.Amortized() && WillHold(data)
      modifies tree
      ensures tree.Amortized() && WillHold(data + {v})
      ensures tree.index == old(tree.index) && tree.work == old(tree.work) && tree.firstSize == old(tree.firstSize)
      ensures tree.logged == old(tree.logged) + if blocks.MakeInterval(v).Some? then 1 else 0
    {
      ghost var events := tree.events;
      tree.Add(v);
      LogAdded(tree.index, events, tree.events, data, blocks.attributes.extents, v);
    }

    method Discard(v: Node)
      requires Valid()
      modifies blocks, tree
      ensures Valid() && blocks.data == old(blocks.data) - {v}
      ensures tree.logged == old(tree.logged) + if v in old(blocks.data) && blocks.MakeInterval(v).Some? then 1 else 0
      ensures tree.work == old(tree.work) && tree.index == old(tree.index) && tree.firstSize == old(tree.firstSize)
    {
      if v !in blocks.data {
        return;
      }
      ghost var events := tree.events;
      tree.Discard(v);
      LogDiscarded(tree.index, events, tree.events, blocks.data, blocks.attributes.extents, v);
      blocks.data := blocks.data - {v};
    }

    /** Changing an attribute that an interval is made of: the old interval is
        discarded, then the new one is added. Owners that do not have the value do
        not notice. */
    method SetExtent(v: Node, e: Extent, ghost others: set<Owner>)
      requires Valid() && forall o <- others :: o.Valid() && Apart(o) && v !in o.blocks.data
      modifies blocks.attributes, tree
      ensures Valid() && blocks.attributes.extents == old(blocks.attributes.extents)[v := e]
      ensures tree.logged == old(tree.logged)
                             + (if v in blocks.data && old(blocks.MakeInterval(v)).Some? then 1 else 0)
                             + (if v in blocks.data && e.Span? then 1 else 0)
      ensures tree.work == old(tree.work) && tree.index == old(tree.index) && tree.firstSize == old(tree.firstSize)
      ensures forall o <- others :: o.Valid()
    {
      ghost var events, extents := tree.events, blocks.attributes.extents;
      if v in blocks.data {
        tree.Discard(v);
        LogDiscarded(tree.index, events, tree.events, blocks.data, extents, v);
        events := tree.events;
      }
      blocks.attributes.extents := blocks.attributes.extents[v := e];
      OthersStay(blocks.data - {v}, extents, v, e);
      forall o <- others {
        OthersStay(o.blocks.data, extents, v, e);
      }
      if v in blocks.data {
        tree.Add(v);
        LogAdded(tree.index, events, tree.events, blocks.data - {v}, blocks.attributes.extents, v);
        assert blocks.data - {v} + {v} == blocks.data;
      } else {
        assert blocks.data - {v} == blocks.data;
      }
    }
  }

  /** Those of the items that an owner has to give away. */
  ghost function From(o: Owner, items: set<Node>, former: map<Node, Owner>): set<Node> {
    set v | v in items && v in former && former[v] == o
  }

  lemma FromOneMore(o: Owner, items: set<Node>, v: Node, former: map<Node, Owner>)
    ensures From(o, items + {v}, former)
         == From(o, items, former) + if v in former && former[v] == o then {v} else {}
  {
  }

  lemma NothingYet(data: set<Node>, items: set<Node>, extents: map<Node, Extent>)
    ensures data + (items - items) == data && Known(items - items, extents) == 0
  {
    assert items - items == {} && IntervalsOf({}, extents) == {};
  }

  lemma OthersStay(data: set<Node>, extents: map<Node, Extent>, v: Node, e: Extent)
    requires v !in data
    ensures IntervalsOf(data, extents[v := e]) == IntervalsOf(data, extents)
  {
  }

  lemma LogAdded(index: Option<set<Interval>>, events: seq<Event>, events': seq<Event>,
                 data: set<Node>, extents: map<Node, Extent>, v: Node)
    requires index.Some? ==> Replay(index.value, events) == IntervalsOf(data, extents)
    requires events' == events + match MadeFrom(extents, v) case None => [] case Some(i) => [Added(i)]
    ensures index.Some? ==> Replay(index.value, events') == IntervalsOf(data + {v}, extents)
  {
    match MadeFrom(extents, v)
    case None =>
      assert events' == events;
      assert IntervalsOf(data + {v}, extents) == IntervalsOf(data, extents);
    case Some(i) =>
      if index.Some? {
        ReplayOneMore(index.value, events, Added(i));
        assert IntervalsOf(data + {v}, extents) == IntervalsOf(data, extents) + {i};
      }
  }

  /** No other value has this interval, so discarding it discards only `v`. */
  lemma LogDiscarded(index: Option<set<Interval>>, events: seq<Event>, events': seq<Event>,
                     data: set<Node>, extents: map<Node, Extent>, v: Node)
    requires index.Some? ==> Replay(index.value, events) == IntervalsOf(data, extents)
    requires events' == events + match MadeFrom(extents, v) case None => [] case Some(i) => [Discarded(i)]
    ensures index.Some? ==> Replay(index.value, events') == IntervalsOf(data - {v}, extents)
  {
    match MadeFrom(extents, v)
    case None =>
      assert events' == events;
      assert IntervalsOf(data - {v}, extents) == IntervalsOf(data, extents);
    case Some(i) =>
      if index.Some? {
        ReplayOneMore(index.value, events, Discarded(i));
        assert IntervalsOf(data - {v}, extents) == IntervalsOf(data, extents) - {i};
      }
  }
}
