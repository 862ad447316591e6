/** Fixed-width little-endian images of natural numbers. */
module LittleEndian {
  type byte = b: nat | b < 256

  const U64: nat := 0x1_0000_0000_0000_0000

  function Pow256(w: nat): (p: nat)
    ensures p > 0
  {
    if w == 0 then 1 else 256 * Pow256(w - 1)
  }

  /** The low `w` bytes of `n`. */
  function Image(n: nat, w: nat): (bs: seq<byte>)
    ensures |bs| == w
  {
    if w == 0 then [] else [n % 256] + Image(n / 256, w - 1)
  }

  function Value(bs: seq<byte>): (n: nat)
    ensures n < Pow256(|bs|)
  {
    if bs == [] then 0 else bs[0] + 256 * Value(bs[1..])
  }

  lemma {:induction false} ValueOfImage(n: nat, w: nat)
    requires n < Pow256(w)
    ensures Value(Image(n, w)) == n
  {
    if w > 0 {
      assert Image(n, w)[1..] == Image(n / 256, w - 1);
      ValueOfImage(n / 256, w - 1);
    }
  }

  lemma DigitAndRest(b: byte, n: nat)
    ensures (b + 256 * n) % 256 == b && (b + 256 * n) / 256 == n
  {
  }

  lemma {:induction false} ImageOfValue(bs: seq<byte>)
    ensures Image(Value(bs), |bs|) == bs
  {
    if bs != [] {
      DigitAndRest(bs[0], Value(bs[1..]));
      ImageOfValue(bs[1..]);
    }
  }

  lemma EightBytesHold64Bits()
    ensures Pow256(8) == U64
  {
    assert Pow256(4) == 0x1_0000_0000;
  }
}
