/** Whole runs of an owner and its lazy tree: what is answered, and what all the
    updates of the tree cost together. */
module LazyTreeRuns {
  import opened Options
  import opened LazyTree

  datatype Call = Enter(items: set<Node>) | Leave(v: Node) | Change(v: Node, e: Extent) | Ask

  /** The values and their attributes, the number of events logged so far, and how
      many values there were when the tree was first asked for. */
  datatype Tally = Tally(data: set<Node>, extents: map<Node, Extent>, logged: nat, first: Option<nat>) {
    function Has(v: Node): nat {
      if v in data && MadeFrom(extents, v).Some? then 1 else 0
    }

    function After(c: Call): Tally {
      match c
      case Enter(items) => this.(data := data + items, logged := logged + Known(items - data, extents))
      case Leave(v) => this.(data := data - {v}, logged := logged + Has(v))
      case Change(v, e) =>
        this.(extents := extents[v := e], logged := logged + Has(v) + if v in data && e.Span? then 1 else 0)
      case Ask => this.(first := if first.None? then Some(|data|) else first)
    }

    function Answer(c: Call): Option<set<Interval>> {
      if c.Ask? then Some(IntervalsOf(data, extents)) else None
    }
  }

  function TallyOf(calls: seq<Call>): Tally {
    if calls == [] then Tally({}, map[], 0, None)
    else TallyOf(calls[..|calls| - 1]).After(calls[|calls| - 1])
  }

  /** The answers given by the first calls. */
  predicate Answered(calls: seq<Call>, answers: seq<Option<set<Interval>>>) {
    && |answers| <= |calls|
    && forall k :: 0 <= k < |answers| ==> answers[k] == TallyOf(calls[..k]).Answer(calls[k])
  }

  lemma OneMoreCall(calls: seq<Call>, answers: seq<Option<set<Interval>>>, answer: Option<set<Interval>>)
    requires |answers| < |calls| && Answered(calls, answers)
    requires answer == TallyOf(calls[..|answers|]).Answer(calls[|answers|])
    ensures Answered(calls, answers + [answer])
    ensures TallyOf(calls[..|answers| + 1]) == TallyOf(calls[..|answers|]).After(calls[|answers|])
  {
    assert calls[..|answers| + 1][..|answers|] == calls[..|answers|];
  }

  ghost function Tallied(owner: Owner): Tally
    reads owner, owner.blocks, owner.blocks.attributes, owner.tree
  {
    Tally(owner.blocks.data, owner.blocks.attributes.extents, owner.tree.logged,
          if owner.tree.index.None? then None else Some(owner.tree.firstSize))
  }

  /** One call, on an owner that no other owner gives values to. */
  method Perform(owner: Owner, c: Call) returns (answer: Option<set<Interval>>)
    requires owner.Valid()
    modifies owner.blocks, owner.blocks.attributes, owner.tree
    ensures owner.Valid() && Tallied(owner) == old(Tallied(owner)).After(c) && answer == old(Tallied(owner)).Answer(c)
  {
    answer := None;
    match c {
      case Enter(items) => owner.Update(items, map[]);
      case Leave(v) => owner.Discard(v);
      case Change(v, e) => owner.SetExtent(v, e, {});
      case Ask =>
        var tree := owner.tree.Get();
        answer := Some(tree);
    }
  }

  /** Whatever is called, in whatever order: each answer holds the intervals of the
      values present, and all updates the tree ever took are at most the number of
      values when it was first asked for plus the number of events logged. */
  method Run(calls: seq<Call>) returns (owner: Owner, answers: seq<Option<set<Interval>>>)
    ensures owner.Valid() && fresh(owner) && Tallied(owner) == TallyOf(calls)
    ensures |answers| == |calls|
    ensures forall k :: 0 <= k < |calls| ==> answers[k] == TallyOf(calls[..k]).Answer(calls[k])
    ensures match TallyOf(calls).first
            case None => owner.tree.work == 0
            case Some(size) => owner.tree.work <= size + TallyOf(calls).logged
    ensures owner.tree.work <= 2 * Announced(calls)
  {
    var attributes := new Attributes();
    owner := new Owner(attributes);
    answers := [];
    for k := 0 to |calls|
      invariant owner.Valid() && fresh(owner) && fresh(owner.blocks) && fresh(owner.tree)
      invariant owner.blocks.attributes == attributes
      invariant Tallied(owner) == TallyOf(calls[..k]) && |answers| == k && Answered(calls, answers)
    {
      var answer := Perform(owner, calls[k]);
      OneMoreCall(calls, answers, answer);
      answers := answers + [answer];
    }
    assert calls[..|calls|] == calls;
    CostIsLinear(calls);
  }

  /** The most events that calls can log, whatever they are called on. */
  function Announced(calls: seq<Call>): nat {
    if calls == [] then 0
    else
      Announced(calls[..|calls| - 1])
      + match calls[|calls| - 1]
        case Enter(items) => |items|
        case Leave(_) => 1
        case Change(_, _) => 2
        case Ask => 0
  }

  lemma {:induction false} KnownAtMost(values: set<Node>, extents: map<Node, Extent>)
    ensures Known(values, extents) <= |values|
  {
    if values == {} {
      assert IntervalsOf(values, extents) == {};
    } else {
      var v :| v in values;
      KnownAtMost(values - {v}, extents);
      OneMoreInterval(values - {v}, extents, v);
      assert values - {v} + {v} == values;
    }
  }

  lemma NoMoreThanEntered(t: Tally, items: set<Node>)
    ensures Known(items - t.data, t.extents) <= |items| && |t.data + items| <= |t.data| + |items|
  {
    KnownAtMost(items - t.data, t.extents);
    assert items == (items - t.data) + (items * t.data);
    assert t.data + items == t.data + (items - t.data);
  }

  /** So the cost is linear in what is called for, however large the collection
      grows and however often the tree is asked for. */
  lemma {:induction false} CostIsLinear(calls: seq<Call>)
    ensures TallyOf(calls).logged <= Announced(calls) && |TallyOf(calls).data| <= Announced(calls)
    ensures TallyOf(calls).first.Some? ==> TallyOf(calls).first.value <= Announced(calls)
  {
    if calls != [] {
      var before, c := TallyOf(calls[..|calls| - 1]), calls[|calls| - 1];
      CostIsLinear(calls[..|calls| - 1]);
      if c.Enter? {
        NoMoreThanEntered(before, c.items);
      }
    }
  }
}
