/** Bytes as bit-vectors, and their bits in transmission order (least significant first). */
module Bytes {

  type Byte = bv8

  /** A byte as a number, where its bits do not matter (KISS framing, chunk headers, JSON text). */
  type Octet = n: nat | n < 256

  datatype Option<+T> = None | Some(value: T)

  /** The mask `1u << i` of an eight-bit byte. */
  function Mask(i: nat): Byte
    requires i < 8
  {
    if i == 0 then 0x01 else if i == 1 then 0x02 else if i == 2 then 0x04 else if i == 3 then 0x08
    else if i == 4 then 0x10 else if i == 5 then 0x20 else if i == 6 then 0x40 else 0x80
  }

  /** Bit i of a byte: `(b >> i) & 1u`. */
  predicate Bit(b: Byte, i: nat)
    requires i < 8
  {
    b & Mask(i) != 0
  }

  function ByteBits(b: Byte): (bits: seq<bool>)
    ensures |bits| == 8
    ensures forall i :: 0 <= i < 8 ==> bits[i] == Bit(b, i)
  {
    [Bit(b, 0), Bit(b, 1), Bit(b, 2), Bit(b, 3), Bit(b, 4), Bit(b, 5), Bit(b, 6), Bit(b, 7)]
  }

  /** The bits of a buffer in the order in which they go on the air. */
  function Bits(data: seq<Byte>): (bits: seq<bool>)
    ensures |bits| == 8 * |data|
  {
    if data == [] then [] else ByteBits(data[0]) + Bits(data[1..])
  }

  lemma {:induction false} BitsConcat(a: seq<Byte>, b: seq<Byte>)
    ensures Bits(a + b) == Bits(a) + Bits(b)
  {
    if a == [] {
      assert a + b == b;
    } else {
      assert (a + b)[1..] == a[1..] + b;
      BitsConcat(a[1..], b);
      assert ByteBits(a[0]) + (Bits(a[1..]) + Bits(b)) == (ByteBits(a[0]) + Bits(a[1..])) + Bits(b);
    }
  }

  lemma BitsOfOne(b: Byte)
    ensures Bits([b]) == ByteBits(b)
  {
    assert [b][1..] == [];
  }

  /** The low k bits of a byte. */
  function LowMask(k: nat): Byte
    requires k <= 8
  {
    if k == 0 then 0x00 else if k == 1 then 0x01 else if k == 2 then 0x03 else if k == 3 then 0x07
    else if k == 4 then 0x0F else if k == 5 then 0x1F else if k == 6 then 0x3F
    else if k == 7 then 0x7F else 0xFF
  }

  /** The low k bits of b, the rest clear. */
  function Low(b: Byte, k: nat): Byte
    requires k <= 8
  {
    b & LowMask(k)
  }

  /** `if (bit) buf |= (1u << k)`. */
  function WithBit(buf: Byte, k: nat, bit: bool): Byte
    requires k < 8
  {
    if bit then buf | Mask(k) else buf
  }

  /** Setting bit k as in b on top of the low k bits of b gives the low k + 1 bits of b. */
  lemma LowStep(b: Byte, k: nat)
    requires k < 8
    ensures WithBit(Low(b, k), k, Bit(b, k)) == Low(b, k + 1)
  {
    if k < 4 {
      if k == 0 {} else if k == 1 {} else if k == 2 {} else {}
    } else {
      if k == 4 {} else if k == 5 {} else if k == 6 {} else {}
    }
  }

  lemma LowEnds(b: Byte)
    ensures Low(b, 0) == 0 && Low(b, 8) == b
  {}
}
