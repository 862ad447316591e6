/** Who contains whom: the parent pointers of every node, and which IR, if any,
    a node hangs under through them. */
module Hierarchy {
  import opened Options
  import opened Seals
  import opened ControlFlow

  type Interval = nat
  type Section = nat
  type Module = nat
  type Ir = nat

  datatype Parents = Parents(interval: map<Node, Interval>, section: map<Interval, Section>,
                             mod: map<Section, Module>, ir: map<Module, Ir>, proxyModule: map<Node, Module>) {
    function OfModule(m: Module): Option<Ir> {
      Find(ir, m)
    }

    function OfSection(s: Section): Option<Ir> {
      if s in mod then OfModule(mod[s]) else None
    }

    function OfInterval(i: Interval): Option<Ir> {
      if i in section then OfSection(section[i]) else None
    }

    /** The IR whose CFG has the node as a vertex. */
    function Home(n: Node): Option<Ir> {
      match n
      case CodeBlock(_) => if n in interval then OfInterval(interval[n]) else None
      case ProxyBlock(_) => if n in proxyModule then OfModule(proxyModule[n]) else None
      case DataBlock(_) => None
    }

    predicate CodeIn(n: Node, i: Interval) {
      n.CodeBlock? && n in interval && interval[n] == i
    }

    predicate CodeUnder(n: Node, s: Section) {
      n.CodeBlock? && n in interval && interval[n] in section && section[interval[n]] == s
    }

    predicate CodeBelow(n: Node, m: Module) {
      && n.CodeBlock? && n in interval && interval[n] in section
      && section[interval[n]] in mod && mod[section[interval[n]]] == m
    }

    predicate ProxyOf(n: Node, m: Module) {
      n.ProxyBlock? && n in proxyModule && proxyModule[n] == m
    }
  }

  /** What a block contributes to a CFG. */
  function Code(b: Node): set<Node> {
    if b.CodeBlock? then {b} else {}
  }

  /** For each IR, its CFG's vertices are the nodes under it. */
  ghost predicate Agree(ps: Parents, vertices: map<Ir, set<Node>>) {
    forall v {:trigger Open(v)} :: v == vertices && Open(v) ==> AreThoseBelow(ps, v)
  }

  ghost predicate AreThoseBelow(ps: Parents, vertices: map<Ir, set<Node>>) {
    forall r <- vertices, n :: n in vertices[r] <==> ps.Home(n) == Some(r)
  }

  /** What a CFG's vertices become when `nodes` leave or join the IR at `home`. */
  function Without(vertices: map<Ir, set<Node>>, home: Option<Ir>, nodes: set<Node>): map<Ir, set<Node>> {
    map r <- vertices :: if home == Some(r) then vertices[r] - nodes else vertices[r]
  }

  function With(vertices: map<Ir, set<Node>>, home: Option<Ir>, nodes: set<Node>): map<Ir, set<Node>> {
    map r <- vertices :: if home == Some(r) then vertices[r] + nodes else vertices[r]
  }

  lemma LeaveAgrees(ps: Parents, qs: Parents, vertices: map<Ir, set<Node>>, home: Option<Ir>, nodes: set<Node>)
    requires Agree(ps, vertices)
    requires forall n :: if n in nodes then ps.Home(n) == home && qs.Home(n) == None else qs.Home(n) == ps.Home(n)
    ensures Agree(qs, Without(vertices, home, nodes))
  {
    assert Open(vertices);
  }

  lemma JoinAgrees(ps: Parents, qs: Parents, vertices: map<Ir, set<Node>>, home: Option<Ir>, nodes: set<Node>)
    requires Agree(ps, vertices)
    requires forall n :: if n in nodes then ps.Home(n) == None && qs.Home(n) == home else qs.Home(n) == ps.Home(n)
    ensures Agree(qs, With(vertices, home, nodes))
  {
    assert Open(vertices);
  }

  /** One node leaves, or joins, an IR with all it contains, because one parent
      pointer is reset, or set: the vertices to take out, or put in, are those
      of the nodes below it. */
  lemma BlockLeaves(ps: Parents, vertices: map<Ir, set<Node>>, b: Node)
    requires Agree(ps, vertices) && b in ps.interval
    ensures Agree(ps.(interval := ps.interval - {b}), Without(vertices, ps.OfInterval(ps.interval[b]), Code(b)))
  {
    var qs := ps.(interval := ps.interval - {b});
    LeaveAgrees(ps, qs, vertices, ps.OfInterval(ps.interval[b]), Code(b));
  }

  lemma BlockJoins(ps: Parents, vertices: map<Ir, set<Node>>, b: Node, i: Interval)
    requires Agree(ps, vertices) && b !in ps.interval
    ensures Agree(ps.(interval := ps.interval[b := i]), With(vertices, ps.OfInterval(i), Code(b)))
  {
    var qs := ps.(interval := ps.interval[b := i]);
    JoinAgrees(ps, qs, vertices, ps.OfInterval(i), Code(b));
  }

  lemma IntervalLeaves(ps: Parents, vertices: map<Ir, set<Node>>, i: Interval, code: set<Node>)
    requires Agree(ps, vertices) && i in ps.section
    requires forall n :: n in code <==> ps.CodeIn(n, i)
    ensures Agree(ps.(section := ps.section - {i}), Without(vertices, ps.OfSection(ps.section[i]), code))
  {
    var qs := ps.(section := ps.section - {i});
    LeaveAgrees(ps, qs, vertices, ps.OfSection(ps.section[i]), code);
  }

  lemma IntervalJoins(ps: Parents, vertices: map<Ir, set<Node>>, i: Interval, s: Section, code: set<Node>)
    requires Agree(ps, vertices) && i !in ps.section
    requires forall n :: n in code <==> ps.CodeIn(n, i)
    ensures Agree(ps.(section := ps.section[i := s]), With(vertices, ps.OfSection(s), code))
  {
    var qs := ps.(section := ps.section[i := s]);
    JoinAgrees(ps, qs, vertices, ps.OfSection(s), code);
  }

  lemma SectionLeaves(ps: Parents, vertices: map<Ir, set<Node>>, s: Section, code: set<Node>)
    requires Agree(ps, vertices) && s in ps.mod
    requires forall n :: n in code <==> ps.CodeUnder(n, s)
    ensures Agree(ps.(mod := ps.mod - {s}), Without(vertices, ps.OfModule(ps.mod[s]), code))
  {
    var qs := ps.(mod := ps.mod - {s});
    LeaveAgrees(ps, qs, vertices, ps.OfModule(ps.mod[s]), code);
  }

  lemma SectionJoins(ps: Parents, vertices: map<Ir, set<Node>>, s: Section, m: Module, code: set<Node>)
    requires Agree(ps, vertices) && s !in ps.mod
    requires forall n :: n in code <==> ps.CodeUnder(n, s)
    ensures Agree(ps.(mod := ps.mod[s := m]), With(vertices, ps.OfModule(m), code))
  {
    var qs := ps.(mod := ps.mod[s := m]);
    JoinAgrees(ps, qs, vertices, ps.OfModule(m), code);
  }

  lemma ProxyLeaves(ps: Parents, vertices: map<Ir, set<Node>>, p: Node)
    requires Agree(ps, vertices) && p.ProxyBlock? && p in ps.proxyModule
    ensures Agree(ps.(proxyModule := ps.proxyModule - {p}), Without(vertices, ps.OfModule(ps.proxyModule[p]), {p}))
  {
    var qs := ps.(proxyModule := ps.proxyModule - {p});
    LeaveAgrees(ps, qs, vertices, ps.OfModule(ps.proxyModule[p]), {p});
  }

  lemma ProxyJoins(ps: Parents, vertices: map<Ir, set<Node>>, p: Node, m: Module)
    requires Agree(ps, vertices) && p.ProxyBlock? && p !in ps.proxyModule
    ensures Agree(ps.(proxyModule := ps.proxyModule[p := m]), With(vertices, ps.OfModule(m), {p}))
  {
    var qs := ps.(proxyModule := ps.proxyModule[p := m]);
    JoinAgrees(ps, qs, vertices, ps.OfModule(m), {p});
  }

  lemma ModuleLeaves(ps: Parents, vertices: map<Ir, set<Node>>, m: Module, proxies: set<Node>, code: set<Node>)
    requires Agree(ps, vertices) && m in ps.ir
    requires forall n :: n in proxies <==> ps.ProxyOf(n, m)
    requires forall n :: n in code <==> ps.CodeBelow(n, m)
    ensures Agree(ps.(ir := ps.ir - {m}), Without(vertices, Some(ps.ir[m]), proxies + code))
  {
    var home := Some(ps.ir[m]);
    LeaveAgrees(ps, ps.(ir := ps.ir - {m}), vertices, home, proxies + code);
  }

  lemma ModuleJoins(ps: Parents, vertices: map<Ir, set<Node>>, m: Module, r: Ir, proxies: set<Node>, code: set<Node>)
    requires Agree(ps, vertices) && m !in ps.ir
    requires forall n :: n in proxies <==> ps.ProxyOf(n, m)
    requires forall n :: n in code <==> ps.CodeBelow(n, m)
    ensures Agree(ps.(ir := ps.ir[m := r]), With(vertices, Some(r), proxies + code))
  {
    JoinAgrees(ps, ps.(ir := ps.ir[m := r]), vertices, Some(r), proxies + code);
  }
}
