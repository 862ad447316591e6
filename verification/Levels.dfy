/** One level of the containment tree: children with a parent pointer, parents
    with a collection of children, and the parents' interval maps, which find
    children by the range they lie in. Blocks in byte intervals, byte intervals
    in sections and sections in modules are all kept this way. */
module Levels {
  import opened Options
  import opened Seals
  import opened IntervalMaps

  /** Every child in `parent` is among its parent's children, and no one else is. */
  ghost predicate Mirror<C(!new), P(!new)>(parent: map<C, P>, children: map<P, set<C>>) {
    && (forall c <- parent :: parent[c] in children && c in children[parent[c]])
    && forall p <- children, c <- children[p] :: c in parent && parent[c] == p
  }

  lemma AttachKeepsMirror<C(!new), P(!new)>(parent: map<C, P>, children: map<P, set<C>>, c: C, p: P)
    requires Mirror(parent, children) && c !in parent && p in children
    ensures Mirror(parent[c := p], children[p := children[p] + {c}])
  {
  }

  lemma DetachKeepsMirror<C(!new), P(!new)>(parent: map<C, P>, children: map<P, set<C>>, c: C, p: P)
    requires Mirror(parent, children) && p in children && c in children[p]
    ensures Mirror(parent - {c}, children[p := children[p] - {c}])
  {
    var after := children[p := children[p] - {c}];
    forall q <- after, d <- after[q] ensures d in parent - {c} && parent[d] == q {
      assert q in children && d in children[q];
      assert parent[c] == p;
    }
  }

  /** A child whose range is known enters, or leaves, its parent's map. */
  function Enter<C>(m: IntervalMap<C>, span: Option<Range>, c: C): IntervalMap<C> {
    if span.Some? then Add(m, span.value, c) else m
  }

  function Leave<C>(m: IntervalMap<C>, span: Option<Range>, c: C): IntervalMap<C> {
    if span.Some? then Subtract(m, span.value, c) else m
  }

  datatype Level<C(==), P(==)> = Level(parent: map<C, P>, span: map<C, Option<Range>>,
                                       children: map<P, set<C>>, index: map<P, IntervalMap<C>>) {
    function SpanOf(c: C): Option<Range> {
      if c in span then span[c] else None
    }

    function ChildrenOf(p: P): set<C> {
      if p in children then children[p] else {}
    }

    function IndexOf(p: P): IntervalMap<C> {
      if p in index then index[p] else map[]
    }

    predicate IsChild(c: C, p: P) {
      c in parent && parent[c] == p
    }

    function Attached(c: C, p: P): Level<C, P> {
      Level(parent[c := p], span, children[p := ChildrenOf(p) + {c}], index[p := Enter(IndexOf(p), SpanOf(c), c)])
    }

    function Detached(c: C, p: P): Level<C, P> {
      Level(parent - {c}, span, children[p := ChildrenOf(p) - {c}], index[p := Leave(IndexOf(p), SpanOf(c), c)])
    }

    /** A new parent, without children. */
    function Founded(p: P): Level<C, P> {
      Level(parent, span, children[p := {}], index[p := map[]])
    }

    /** A child's range changes; its parent, if any, takes note. */
    function Respanned(c: C, to: Option<Range>): Level<C, P> {
      if c in parent
      then var m := Leave(IndexOf(parent[c]), SpanOf(c), c);
           Level(parent, span[c := to], children, index[parent[c] := Enter(m, to, c)])
      else Level(parent, span[c := to], children, index)
    }
  }

  /** Those of the children that lie somewhere, and where. */
  function Located<C>(children: set<C>, span: map<C, Option<Range>>): map<C, Range> {
    map c | c in children && c in span && span[c].Some? :: span[c].value
  }

  ghost predicate IndexFits<C(!new), P>(l: Level<C, P>, p: P)
    requires p in l.children && p in l.index
  {
    Follows(l.index[p], Located(l.children[p], l.span))
  }

  /** Parents' collections are those of the children that point to them, and each
      parent's map holds, at each key, exactly the children whose range has it. */
  ghost predicate Fits<C(!new), P(!new)>(l: Level<C, P>) {
    forall k {:trigger Open(k)} :: k == l && Open(k) ==> InStep(k)
  }

  ghost predicate InStep<C(!new), P(!new)>(l: Level<C, P>) {
    && Mirror(l.parent, l.children)
    && l.parent.Keys <= l.span.Keys && l.index.Keys == l.children.Keys
    && forall p <- l.children :: IndexFits(l, p)
  }

  lemma ChildIs<C(!new), P(!new)>(l: Level<C, P>, c: C, p: P)
    requires Fits(l)
    ensures c in l.ChildrenOf(p) <==> l.IsChild(c, p)
  {
    assert Open(l);
  }

  lemma IndexTells<C(!new), P(!new)>(l: Level<C, P>, c: C, p: P, k: nat)
    requires Fits(l)
    ensures c in At(l.IndexOf(p), k)
       <==> l.IsChild(c, p) && l.SpanOf(c).Some? && l.SpanOf(c).value.Has(k)
  {
    assert Open(l);
    if p in l.children {
      assert IndexFits(l, p);
      var ranges := Located(l.children[p], l.span);
      assert c in At(l.index[p], k) <==> c in ranges && ranges[c].Has(k);
    }
  }

  lemma EnterFits<C(!new)>(m: IntervalMap<C>, children: set<C>, span: map<C, Option<Range>>, c: C)
    requires Follows(m, Located(children, span)) && c !in children && c in span
    ensures Follows(Enter(m, span[c], c), Located(children + {c}, span))
  {
    var before, after := Located(children, span), Located(children + {c}, span);
    if span[c].Some? {
      AddFollows(m, before, c, span[c].value);
      assert after == before[c := span[c].value];
    } else {
      assert after == before;
    }
  }

  lemma LeaveFits<C(!new)>(m: IntervalMap<C>, children: set<C>, span: map<C, Option<Range>>, c: C)
    requires Follows(m, Located(children, span)) && c in children && c in span
    ensures Follows(Leave(m, span[c], c), Located(children - {c}, span))
  {
    var before, after := Located(children, span), Located(children - {c}, span);
    if span[c].Some? {
      SubtractFollows(m, before, c);
      assert after == before - {c};
    } else {
      assert after == before;
    }
  }

  lemma AttachedFits<C(!new), P(!new)>(l: Level<C, P>, c: C, p: P)
    requires Fits(l) && c in l.span && c !in l.parent && p in l.children
    ensures Fits(l.Attached(c, p))
  {
    var after := l.Attached(c, p);
    assert Open(l);
    AttachKeepsMirror(l.parent, l.children, c, p);
    forall q <- after.children ensures IndexFits(after, q) {
      assert IndexFits(l, q);
      if q == p {
        EnterFits(l.index[p], l.children[p], l.span, c);
      }
    }
  }

  lemma DetachedFits<C(!new), P(!new)>(l: Level<C, P>, c: C, p: P)
    requires Fits(l) && c in l.ChildrenOf(p)
    ensures c in l.parent && l.parent[c] == p
    ensures Fits(l.Detached(c, p))
  {
    var after := l.Detached(c, p);
    assert Open(l);
    DetachKeepsMirror(l.parent, l.children, c, p);
    forall q <- after.children ensures IndexFits(after, q) {
      assert IndexFits(l, q);
      if q == p {
        LeaveFits(l.index[p], l.children[p], l.span, c);
      }
    }
  }

  lemma RespannedFits<C(!new), P(!new)>(l: Level<C, P>, c: C, to: Option<Range>)
    requires Fits(l)
    ensures Fits(l.Respanned(c, to))
  {
    assert Open(l);
    var after := l.Respanned(c, to);
    forall q <- after.children ensures IndexFits(after, q) {
      assert IndexFits(l, q);
      if c in l.parent && q == l.parent[c] {
        var others := l.children[q] - {c};
        LeaveFits(l.index[q], l.children[q], l.span, c);
        assert Located(others, after.span) == Located(others, l.span);
        EnterFits(Leave(l.index[q], l.span[c], c), others, after.span, c);
        assert others + {c} == l.children[q];
      } else {
        assert c !in l.children[q];
        assert Located(l.children[q], after.span) == Located(l.children[q], l.span);
      }
    }
  }

  /** A parent without children. */
  lemma FoundedFits<C(!new), P(!new)>(l: Level<C, P>, p: P)
    requires Fits(l) && p !in l.children
    ensures Fits(l.Founded(p))
  {
    assert Open(l);
    var after := l.Founded(p);
    forall q <- after.children ensures IndexFits(after, q) {
      assert q != p ==> IndexFits(l, q);
    }
  }

  /** Detaching a child that was just attached gives back everything, the index
      included: there is only one index that fits. */
  lemma DetachUndoesAttach<C(!new), P(!new)>(l: Level<C, P>, c: C, p: P)
    requires Fits(l) && c in l.span && c !in l.parent && p in l.children
    ensures l.Attached(c, p).Detached(c, p) == l
  {
    var there := l.Attached(c, p);
    AttachedFits(l, c, p);
    ChildIs(l, c, p);
    ChildIs(there, c, p);
    DetachedFits(there, c, p);
    var back := there.Detached(c, p);
    assert Open(l) && Open(back);
    assert back.parent == l.parent && back.children == l.children;
    assert IndexFits(l, p) && IndexFits(back, p);
    FollowsIsUnique(l.index[p], back.index[p], Located(l.children[p], l.span));
    assert back.index == l.index;
  }
}
