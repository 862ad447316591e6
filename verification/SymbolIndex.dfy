/** A module's symbols in address order, and its repair when blocks have moved
    and with them, unannounced, the addresses of the symbols that refer to them. */
module SymbolIndex {
  import opened Options
  import opened Words
  import opened ControlFlow
  import opened IntervalMaps
  import opened Tables
  import opened Queries
  import opened Containment
  import opened Sequences

  type Symbol = nat

  datatype Payload = Nothing | Absolute(address: Word) | Referent(node: Node)
  datatype SymbolInfo = SymbolInfo(payload: Payload, atEnd: bool)

  function AddressOfSymbol(t: Tables, info: SymbolInfo): Option<Word> {
    match info.payload
    case Nothing => None
    case Absolute(a) => Some(a)
    case Referent(n) =>
      if !n.ProxyBlock? && AddressOf(t, n).Some?
      then Some((AddressOf(t, n).value + if info.atEnd && n in t.size then t.size[n] else 0) % WORD)
      else None
  }

  /** Symbols without an address come first. */
  function Position(t: Tables, info: map<Symbol, SymbolInfo>, s: Symbol): int {
    if s in info && AddressOfSymbol(t, info[s]).Some? then AddressOfSymbol(t, info[s]).value else -1
  }

  predicate Ascending(position: Symbol -> int, order: seq<Symbol>) {
    forall i, j {:trigger order[i], order[j]} :: 0 <= i < j < |order| ==> position(order[i]) <= position(order[j])
  }

  function PositionIn(t: Tables, info: map<Symbol, SymbolInfo>): Symbol -> int {
    (s: Symbol) => Position(t, info, s)
  }

  predicate InAddressOrder(t: Tables, info: map<Symbol, SymbolInfo>, order: seq<Symbol>) {
    Ascending(PositionIn(t, info), order)
  }

  /** What the address of a symbol is, in terms of the nodes. */
  lemma AddressOfSymbolIs(t: Tables, info: SymbolInfo)
    requires Sound(t, {})
    ensures match info.payload
            case Nothing => AddressOfSymbol(t, info) == None
            case Absolute(a) => AddressOfSymbol(t, info) == Some(a)
            case Referent(n) =>
              && (AddressOfSymbol(t, info).Some? <==>
                    && n in t.blocks.parent && t.blocks.parent[n] in t.place
                    && t.place[t.blocks.parent[n]].address.Some?)
              && (AddressOfSymbol(t, info).Some? ==>
                    && n in t.offset && n in t.size
                    && AddressOfSymbol(t, info).value
                       == (t.place[t.blocks.parent[n]].Start() + t.offset[n]
                           + if info.atEnd then t.size[n] else 0) % WORD)
  {
    if info.payload.Referent? {
      var n := info.payload.node;
      AddressIs(t, n);
      if AddressOf(t, n).Some? {
        WrapTwice(t.place[t.blocks.parent[n]].address.value + t.offset[n], t.size[n]);
      }
    }
  }

  lemma WrapTwice(x: nat, y: nat)
    ensures (x % WORD + y) % WORD == (x + y) % WORD
  {
  }

  /** Symbols without an address come first; the others by ascending address. */
  predicate ByAddress(t: Tables, info: map<Symbol, SymbolInfo>, order: seq<Symbol>) {
    forall i, j {:trigger order[i], order[j]} :: 0 <= i < j < |order| ==> MayPrecede(t, info, order[i], order[j])
  }

  predicate MayPrecede(t: Tables, info: map<Symbol, SymbolInfo>, r: Symbol, s: Symbol) {
    r in info && AddressOfSymbol(t, info[r]).Some? ==>
      && s in info && AddressOfSymbol(t, info[s]).Some?
      && AddressOfSymbol(t, info[r]).value <= AddressOfSymbol(t, info[s]).value
  }

  lemma InAddressOrderIs(t: Tables, info: map<Symbol, SymbolInfo>, order: seq<Symbol>)
    ensures InAddressOrder(t, info, order) <==> ByAddress(t, info, order)
  {
    forall r, s ensures PositionIn(t, info)(r) <= PositionIn(t, info)(s) <==> MayPrecede(t, info, r, s) {
    }
  }

  predicate RefersTo(info: map<Symbol, SymbolInfo>, s: Symbol, b: Node) {
    s in info && info[s].payload == Referent(b)
  }

  /** The symbols that refer to a block, or that do not, in their order. */
  function Those(info: map<Symbol, SymbolInfo>, order: seq<Symbol>, b: Node, referring: bool): seq<Symbol> {
    if order == [] then []
    else if RefersTo(info, order[0], b) == referring then [order[0]] + Those(info, order[1..], b, referring)
    else Those(info, order[1..], b, referring)
  }

  /** The symbols that refer to none of the blocks, in their order. */
  function Others(info: map<Symbol, SymbolInfo>, order: seq<Symbol>, blocks: seq<Node>): seq<Symbol> {
    if blocks == [] then order
    else Those(info, Others(info, order, blocks[..|blocks| - 1]), blocks[|blocks| - 1], false)
  }

  /** The symbols that refer to any of the blocks, block by block. */
  function Referring(info: map<Symbol, SymbolInfo>, order: seq<Symbol>, blocks: seq<Node>): seq<Symbol> {
    if blocks == [] then []
    else
      var n := |blocks| - 1;
      Referring(info, order, blocks[..n]) + Those(info, Others(info, order, blocks[..n]), blocks[n], true)
  }

  lemma {:induction false} ThoseAre(info: map<Symbol, SymbolInfo>, order: seq<Symbol>, b: Node, referring: bool,
                                    s: Symbol)
    ensures s in Those(info, order, b, referring) <==> s in order && RefersTo(info, s, b) == referring
  {
    if order != [] {
      ThoseAre(info, order[1..], b, referring, s);
      assert order == [order[0]] + order[1..];
    }
  }

  lemma {:induction false} ThoseAreAll(info: map<Symbol, SymbolInfo>, order: seq<Symbol>, b: Node)
    ensures multiset(Those(info, order, b, true)) + multiset(Those(info, order, b, false)) == multiset(order)
  {
    if order != [] {
      ThoseAreAll(info, order[1..], b);
      assert order == [order[0]] + order[1..];
    }
  }

  lemma {:induction false} ReferringAre(info: map<Symbol, SymbolInfo>, order: seq<Symbol>, blocks: seq<Node>, s: Symbol)
    ensures s in Referring(info, order, blocks)
       <==> s in order && s in info && info[s].payload.Referent? && info[s].payload.node in blocks
    ensures s in Others(info, order, blocks) <==> s in order && s !in Referring(info, order, blocks)
  {
    if blocks != [] {
      var n := |blocks| - 1;
      ReferringAre(info, order, blocks[..n], s);
      ThoseAre(info, Others(info, order, blocks[..n]), blocks[n], true, s);
      ThoseAre(info, Others(info, order, blocks[..n]), blocks[n], false, s);
      assert blocks == blocks[..n] + [blocks[n]];
    }
  }

  lemma {:induction false} NoSymbolIsLost(info: map<Symbol, SymbolInfo>, order: seq<Symbol>, blocks: seq<Node>)
    ensures multiset(Referring(info, order, blocks)) + multiset(Others(info, order, blocks)) == multiset(order)
  {
    if blocks != [] {
      var n := |blocks| - 1;
      NoSymbolIsLost(info, order, blocks[..n]);
      ThoseAreAll(info, Others(info, order, blocks[..n]), blocks[n]);
    }
  }

  predicate IsAmong(info: map<Symbol, SymbolInfo>, s: Symbol, blocks: seq<Node>) {
    s in info && info[s].payload.Referent? && info[s].payload.node in blocks
  }

  lemma SomeRefer(info: map<Symbol, SymbolInfo>, order: seq<Symbol>, blocks: seq<Node>)
    ensures Referring(info, order, blocks) != [] <==> exists s :: s in order && IsAmong(info, s, blocks)
  {
    var referring := Referring(info, order, blocks);
    if referring != [] {
      ReferringAre(info, order, blocks, referring[0]);
    }
    forall s | s in order && IsAmong(info, s, blocks) ensures s in referring {
      ReferringAre(info, order, blocks, s);
    }
  }

  /** Where an order is cut at a symbol, and how that symbol joins what is before it. */
  lemma CutAt(kept: seq<Symbol>, left: seq<Symbol>)
    requires left != []
    ensures var order, i := kept + left, |kept|;
            && order[i] == left[0] && order[..i] == kept && order[i + 1..] == left[1..]
            && order == kept + [left[0]] + left[1..]
  {
  }

  /** Takes the symbols that refer to a block out of an order, one by one. */
  method EraseReferring(info: map<Symbol, SymbolInfo>, before: seq<Symbol>, b: Node)
    returns (order: seq<Symbol>, erased: seq<Symbol>)
    ensures order == Those(info, before, b, false) && erased == Those(info, before, b, true)
  {
    var i := 0;
    order, erased := before, [];
    ghost var kept: seq<Symbol>, left := [], before;
    while i < |order|
      invariant order == kept + left && i == |kept|
      invariant Those(info, before, b, false) == kept + Those(info, left, b, false)
      invariant Those(info, before, b, true) == erased + Those(info, left, b, true)
      decreases |left|
    {
      var s := order[i];
      CutAt(kept, left);
      if RefersTo(info, s, b) {
        Regroup(erased, s, Those(info, left[1..], b, true));
        erased := erased + [s];
        order := order[..i] + order[i + 1..];
      } else {
        Regroup(kept, s, Those(info, left[1..], b, false));
        kept := kept + [s];
        i := i + 1;
      }
      left := left[1..];
    }
  }

  /** Inserts symbols, each at the upper bound of its position. */
  method InsertAll(position: Symbol -> int, before: seq<Symbol>, modified: seq<Symbol>) returns (order: seq<Symbol>)
    ensures multiset(order) == multiset(before) + multiset(modified)
    ensures Ascending(position, order) <==> Ascending(position, before)
  {
    order := before;
    for k := 0 to |modified|
      invariant multiset(order) == multiset(before) + multiset(modified[..k])
      invariant Ascending(position, order) <==> Ascending(position, before)
    {
      var p := UpperBound(position, order, position(modified[k]));
      InsertedInOrder(position, order, p, modified[k]);
      InsertedIs(order, p, modified[k]);
      order := order[..p] + [modified[k]] + order[p..];
      assert modified[..k + 1] == modified[..k] + [modified[k]];
    }
    assert modified[..|modified|] == modified;
  }

  /** The upper bound as a search tree finds it, whatever its shape is: between any
      two symbols compared it may look anywhere. In an order that is not ascending
      it ends at some place that is right among its neighbours. */
  method UpperBound(position: Symbol -> int, order: seq<Symbol>, x: int) returns (p: nat)
    ensures p <= |order|
    ensures p > 0 ==> position(order[p - 1]) <= x
    ensures p < |order| ==> x < position(order[p])
  {
    p := 0;
    var end := |order|;
    while p < end
      invariant 0 <= p <= end <= |order|
      invariant p > 0 ==> position(order[p - 1]) <= x
      invariant end < |order| ==> x < position(order[end])
    {
      var mid :| p <= mid < end;
      if x < position(order[mid]) {
        end := mid;
      } else {
        p := mid + 1;
      }
    }
  }

  lemma InsertedIs(order: seq<Symbol>, p: nat, s: Symbol)
    requires p <= |order|
    ensures multiset(order[..p] + [s] + order[p..]) == multiset(order) + multiset{s}
  {
    assert order == order[..p] + order[p..];
  }

  class SymbolTable {
    var info: map<Symbol, SymbolInfo>
    var byAddress: seq<Symbol>

    /** Erases the symbols that refer to the blocks, and inserts them again at
        where their addresses are now. Whatever the order was like, it is right
        afterwards just if the other symbols were in order among themselves. */
    method MoveBlocks(t: Tables, blocks: seq<Node>) returns (status: ChangeStatus)
      modifies `byAddress
      ensures multiset(byAddress) == multiset(old(byAddress))
      ensures ByAddress(t, info, byAddress) <==> ByAddress(t, info, Others(info, old(byAddress), blocks))
      ensures status == Accepted <==>
                exists s :: s in old(byAddress) && IsAmong(info, s, blocks)
    {
      ghost var before := byAddress;
      status := NoChange;
      var modified: seq<Symbol> := [];
      for k := 0 to |blocks|
        invariant byAddress == Others(info, before, blocks[..k])
        invariant modified == Referring(info, before, blocks[..k])
        invariant status == if modified == [] then NoChange else Accepted
      {
        assert blocks[..k + 1][..k] == blocks[..k];
        var order, erased := EraseReferring(info, byAddress, blocks[k]);
        byAddress := order;
        modified := modified + erased;
        if erased != [] {
          status := Accepted;
        }
      }
      assert blocks[..|blocks|] == blocks;
      NoSymbolIsLost(info, before, blocks);
      SomeRefer(info, before, blocks);
      byAddress := InsertAll(PositionIn(t, info), byAddress, modified);
      InAddressOrderIs(t, info, byAddress);
      InAddressOrderIs(t, info, Others(info, before, blocks));
    }
  }

  lemma InsertedInOrder(position: Symbol -> int, order: seq<Symbol>, p: nat, s: Symbol)
    requires p <= |order|
    requires p > 0 ==> position(order[p - 1]) <= position(s)
    requires p < |order| ==> position(s) < position(order[p])
    ensures Ascending(position, order[..p] + [s] + order[p..]) <==> Ascending(position, order)
  {
    var after := order[..p] + [s] + order[p..];
    if Ascending(position, order) {
      forall i, j | 0 <= i < j < |after| ensures position(after[i]) <= position(after[j]) {
        var x, y := if i < p then i else i - 1, if j < p then j else j - 1;
        assert i < p ==> position(order[i]) <= position(order[p - 1]);
        assert j > p ==> position(order[p]) <= position(order[j - 1]);
        assert i != p && j != p ==> position(order[x]) <= position(order[y]);
      }
    } else {
      var i, j :| 0 <= i < j < |order| && position(order[i]) > position(order[j]);
      var x, y := if i < p then i else i + 1, if j < p then j else j + 1;
      assert after[x] == order[i] && after[y] == order[j];
    }
  }
}
