/** The bytes of a byte interval: an initialized prefix that is stored, and a
    logical size up to which everything else reads as zero. */
module ByteVector {
  import opened LittleEndian
  import Words

  datatype Order = Little | Big

  function Zeros(n: nat): (z: seq<byte>)
    ensures |z| == n && forall i :: 0 <= i < n ==> z[i] == 0
  {
    seq(n, _ => 0)
  }

  /** `vector::resize`: cut, or pad with zeros. */
  function Resized(bs: seq<byte>, n: nat): (r: seq<byte>)
    ensures |r| == n
  {
    if n <= |bs| then bs[..n] else bs + Zeros(n - |bs|)
  }

  function Reverse(bs: seq<byte>): (r: seq<byte>)
    ensures |r| == |bs| && forall i :: 0 <= i < |bs| ==> r[i] == bs[|bs| - 1 - i]
  {
    seq(|bs|, i requires 0 <= i < |bs| => bs[|bs| - 1 - i])
  }

  /** Reverses the bytes of an element if the two orders differ. */
  function EndianFlip(bs: seq<byte>, from: Order, to: Order): (r: seq<byte>)
    ensures |r| == |bs|
  {
    if from == to then bs else Reverse(bs)
  }

  /** The unsigned number an element of the given byte order stands for. */
  function NumberIn(bs: seq<byte>, order: Order): nat {
    Value(if order == Little then bs else Reverse(bs))
  }

  /** The first byte is the lowest in little-endian order and the highest in
      big-endian order. */
  lemma FirstByteIs(b: byte, bs: seq<byte>)
    ensures NumberIn([b] + bs, Little) == b + 256 * NumberIn(bs, Little)
    ensures NumberIn(bs + [b], Big) == b + 256 * NumberIn(bs, Big)
    ensures NumberIn([], Little) == NumberIn([], Big) == 0
  {
    assert ([b] + bs)[1..] == bs;
    assert Reverse(bs + [b]) == [b] + Reverse(bs) && ([b] + Reverse(bs))[1..] == Reverse(bs);
  }

  /** A flip changes the representation, not the number. */
  lemma FlipKeepsNumber(bs: seq<byte>, from: Order, to: Order)
    ensures NumberIn(EndianFlip(bs, from, to), to) == NumberIn(bs, from)
    ensures EndianFlip(EndianFlip(bs, from, to), to, from) == bs
  {
    assert Reverse(Reverse(bs)) == bs;
  }

  /** The elements one after the other, each in the byte order of the vector. */
  function Stored(xs: seq<seq<byte>>, elements: Order, vector: Order): seq<byte>
  {
    if xs == [] then [] else EndianFlip(xs[0], elements, vector) + Stored(xs[1..], elements, vector)
  }

  predicate AllOfWidth(xs: seq<seq<byte>>, w: nat) {
    forall i :: 0 <= i < |xs| ==> |xs[i]| == w
  }

  lemma {:induction false} StoredLength(xs: seq<seq<byte>>, w: nat, elements: Order, vector: Order)
    requires AllOfWidth(xs, w)
    ensures |Stored(xs, elements, vector)| == |xs| * w
  {
    if xs != [] {
      StoredLength(xs[1..], w, elements, vector);
      assert |xs| * w == w + (|xs| - 1) * w;
    }
  }

  class ByteInterval {
    var size: nat
    var bytes: seq<byte>

    /** The initialized bytes never exceed the size, and sizes are words. */
    ghost predicate Valid()
      reads this
    {
      |bytes| <= size < Words.WORD
    }

    /** The memory the interval stands for. */
    ghost function Mem(): (m: seq<byte>)
      reads this
      requires Valid()
      ensures |m| == size
    {
      bytes + Zeros(size - |bytes|)
    }

    /** The sizes are taken as they are given. */
    constructor (size: nat, initSize: nat)
      requires size < Words.WORD
      ensures this.size == size && bytes == Zeros(initSize)
      ensures Valid() <==> initSize <= size
    {
      this.size := size;
      bytes := Zeros(initSize);
    }

    /** Gives up what lies behind the new size; what is new reads as zero. */
    method SetSize(s: nat)
      requires s < Words.WORD
      modifies this
      ensures Valid() && size == s && bytes == if s < |old(bytes)| then old(bytes)[..s] else old(bytes)
      ensures old(Valid()) ==> Mem() == Resized(old(Mem()), s)
      decreases if |bytes| > s then 2 else 0
    {
      size := s;
      if s < |bytes| {
        SetInitializedSize(s);
      }
    }

    method SetInitializedSize(s: nat)
      requires s < Words.WORD && size < Words.WORD
      modifies this
      ensures Valid() && bytes == Resized(old(bytes), s) && size == if s > old(size) then s else old(size)
      decreases 1
    {
      bytes := Resized(bytes, s);
      if s > size {
        SetSize(s);
      }
    }

    /** Reading an element: bytes that are not initialized are zeros. */
    method Read(i: nat, w: nat, input: Order, output: Order) returns (x: seq<byte>)
      requires Valid() && i + w <= size
      ensures x == EndianFlip(Mem()[i..i + w], input, output)
    {
      var s := |bytes|;
      if i >= s {
        assert Mem()[i..i + w] == Zeros(w) == Reverse(Zeros(w));
        return Zeros(w);
      }
      if w > s - i {
        var a := bytes[i..] + Zeros(w - (s - i));
        assert Mem()[i..i + w] == a;
        return EndianFlip(a, input, output);
      }
      assert Mem()[i..i + w] == bytes[i..i + w];
      return EndianFlip(bytes[i..i + w], input, output);
    }

    /** Writing an element initializes everything up to its end. */
    method Write(i: nat, x: seq<byte>, input: Order, output: Order)
      requires Valid() && i + |x| <= size
      modifies this
      ensures Valid() && size == old(size)
      ensures Mem() == old(Mem())[..i] + EndianFlip(x, output, input) + old(Mem())[i + |x|..]
      ensures |bytes| == if i + |x| > |old(bytes)| then i + |x| else |old(bytes)|
    {
      ghost var m := Mem();
      if i + |x| > |bytes| {
        bytes := Resized(bytes, i + |x|);
      }
      assert Mem() == m;
      bytes := bytes[..i] + EndianFlip(x, output, input) + bytes[i + |x|..];
    }

    /** Inserting elements of one width is a splice of the memory. */
    method InsertByteVec(pos: nat, xs: seq<seq<byte>>, w: nat, vector: Order, elements: Order)
      requires Valid() && pos <= size && AllOfWidth(xs, w)
      requires size + |xs| * w < Words.WORD
      modifies this
      ensures Valid() && size == old(size) + |xs| * w
      ensures Mem() == old(Mem())[..pos] + Stored(xs, elements, vector) + old(Mem())[pos..]
    {
      ghost var m := Mem();
      var n := |xs| * w;
      SetSize(size + n);
      if pos < |bytes| {
        bytes := bytes[..pos] + Zeros(n) + bytes[pos..];
      }
      assert Mem() == m[..pos] + Zeros(n) + m[pos..];
      StoredLength(xs, w, elements, vector);
      CopyElements(pos, xs, w, vector, elements, m[..pos], m[pos..]);
    }

    /** `std::copy` through the iterator: one write per element. */
    method CopyElements(pos: nat, xs: seq<seq<byte>>, w: nat, vector: Order, elements: Order,
                        ghost front: seq<byte>, ghost back: seq<byte>)
      requires Valid() && AllOfWidth(xs, w) && |front| == pos
      requires Mem() == front + Zeros(|Stored(xs, elements, vector)|) + back
      modifies this
      ensures Valid() && size == old(size)
      ensures Mem() == front + Stored(xs, elements, vector) + back
    {
      var p := pos;
      assert xs[0..] == xs;
      ghost var done := [];
      for k := 0 to |xs|
        invariant Valid() && size == old(size) && p == pos + |done|
        invariant Mem() == front + done + Zeros(|Stored(xs[k..], elements, vector)|) + back
        invariant done + Stored(xs[k..], elements, vector) == Stored(xs, elements, vector)
      {
        ghost var m := Mem();
        Write(p, xs[k], vector, elements);
        ghost var more := done + EndianFlip(xs[k], elements, vector);
        OneCopied(m, Mem(), front, done, more, xs, k, elements, vector, back);
        done := more;
        p := p + w;
      }
      assert done + [] == done && front + done + Zeros(0) == front + done;
    }

    /** Erasing is the removal of a slice of the memory. */
    method EraseBytes(begin: nat, end: nat)
      requires Valid() && begin <= end <= size
      modifies this
      ensures Valid() && size == old(size) - (end - begin)
      ensures Mem() == old(Mem())[..begin] + old(Mem())[end..]
    {
      ghost var m := Mem();
      if begin < |bytes| {
        if end < |bytes| {
          bytes := bytes[..begin] + bytes[end..];
        } else {
          bytes := bytes[..begin];
        }
      }
      SetSize(size - (end - begin));
    }
  }

  /** Overwriting the front of a run of zeros. */
  lemma OneWritten(m: seq<byte>, front: seq<byte>, x: seq<byte>, left: nat, back: seq<byte>)
    requires m == front + Zeros(|x| + left) + back
    ensures m[..|front|] + x + m[|front| + |x|..] == front + x + Zeros(left) + back
  {
    assert Zeros(|x| + left) == Zeros(|x|) + Zeros(left);
  }

  /** One element fills the front of the gap, and what is left is the gap for the others. */
  lemma OneCopied(m: seq<byte>, m': seq<byte>, front: seq<byte>, done: seq<byte>, more: seq<byte>,
                  xs: seq<seq<byte>>, k: nat, elements: Order, vector: Order, back: seq<byte>)
    requires k < |xs| && m == front + done + Zeros(|Stored(xs[k..], elements, vector)|) + back
    requires |m'| == |m| && more == done + EndianFlip(xs[k], elements, vector)
    requires |front| + |done| + |xs[k]| <= |m|
    requires m' == m[..|front| + |done|] + EndianFlip(xs[k], elements, vector) + m[|front| + |done| + |xs[k]|..]
    ensures m' == front + more + Zeros(|Stored(xs[k + 1..], elements, vector)|) + back
    ensures more + Stored(xs[k + 1..], elements, vector) == done + Stored(xs[k..], elements, vector)
  {
    var x, later := EndianFlip(xs[k], elements, vector), Stored(xs[k + 1..], elements, vector);
    assert Stored(xs[k..], elements, vector) == x + later by {
      assert xs[k..][1..] == xs[k + 1..];
    }
    OneWritten(m, front + done, x, |later|, back);
    assert done + (x + later) == done + x + later;
    assert front + done + x == front + (done + x);
  }

  /** Erasing what was inserted gives the memory back. */
  method EraseAfterInsert(bi: ByteInterval, pos: nat, xs: seq<seq<byte>>, w: nat, vector: Order, elements: Order)
    requires bi.Valid() && pos <= bi.size && AllOfWidth(xs, w) && bi.size + |xs| * w < Words.WORD
    modifies bi
    ensures bi.Valid() && bi.size == old(bi.size) && bi.Mem() == old(bi.Mem())
  {
    StoredLength(xs, w, elements, vector);
    bi.InsertByteVec(pos, xs, w, vector, elements);
    bi.EraseBytes(pos, pos + |xs| * w);
  }
}
