/** The AX.25 frame check sequence: firmware/components/ax25/Ax25.cpp, `fcs`. */
module Crc {
  import opened Bytes

  function Xor(x: bv16, y: bv16): bv16 {
    x ^ y
  }

  /** One shift of the reflected CRC-16/CCITT register, polynomial 0x8408. */
  function Shift(crc: bv16): bv16 {
    if Odd(crc) then Xor(Half(crc), 0x8408) else Half(crc)
  }

  predicate Odd(x: bv16) {
    x & 1 != 0
  }

  function Half(x: bv16): bv16 {
    x >> 1
  }

  function BitWord(bit: bool): bv16 {
    if bit then 1 else 0
  }

  function Word(b: Byte): bv16 {
    b as bv16
  }

  /** The bit-serial register: the incoming bit is added to the low end, then one shift. */
  function FeedBit(crc: bv16, bit: bool): bv16 {
    Shift(Xor(crc, BitWord(bit)))
  }

  function FeedBits(crc: bv16, bits: seq<bool>): bv16
    decreases |bits|
  {
    if bits == [] then crc else FeedBits(FeedBit(crc, bits[0]), bits[1..])
  }

  function Shifts(crc: bv16, n: nat): bv16
    decreases n
  {
    if n == 0 then crc else Shifts(Shift(crc), n - 1)
  }

  /** The standard's check sequence: bit-serial division of the transmitted bits, preset and complemented. */
  function Fcs(data: seq<Byte>): bv16 {
    Xor(FeedBits(0xFFFF, Bits(data)), 0xFFFF)
  }

  lemma {:induction false} FeedBitsConcat(c: bv16, a: seq<bool>, b: seq<bool>)
    ensures FeedBits(c, a + b) == FeedBits(FeedBits(c, a), b)
    decreases |a|
  {
    if a == [] {
      assert a + b == b;
    } else {
      assert (a + b)[1..] == a[1..] + b;
      FeedBitsConcat(FeedBit(c, a[0]), a[1..], b);
    }
  }

  // ---- the byte-wise loop is the bit-serial register ----

  lemma OddXor(x: bv16, y: bv16)
    ensures Odd(Xor(x, y)) == (Odd(x) != Odd(y))
  {}

  lemma HalfXor(x: bv16, y: bv16)
    ensures Half(Xor(x, y)) == Xor(Half(x), Half(y))
  {}

  lemma XorRegroup(x: bv16, y: bv16, p: bv16)
    ensures Xor(Xor(x, y), p) == Xor(Xor(x, p), y)
    ensures Xor(Xor(x, y), p) == Xor(x, Xor(y, p))
    ensures Xor(Xor(x, p), Xor(y, p)) == Xor(x, y)
  {}

  /** The shift is linear. */
  lemma ShiftLinear(x: bv16, y: bv16)
    ensures Shift(Xor(x, y)) == Xor(Shift(x), Shift(y))
  {
    hide Xor, Half, Odd;
    OddXor(x, y);
    HalfXor(x, y);
    XorRegroup(Half(x), Half(y), 0x8408);
  }

  lemma ShiftEven(b: Byte)
    ensures Shift(Word(b & 0xFE)) == Word(ShiftRight(b, 1))
  {}

  lemma SplitLowBit(c: bv16, b: Byte)
    ensures Xor(c, Word(b)) == Xor(Xor(c, BitWord(Bit(b, 0))), Word(b & 0xFE))
  {}

  /** A byte added at once can be consumed one bit at a time, lowest bit first. */
  lemma ConsumeBit(c: bv16, b: Byte)
    ensures Shift(Xor(c, Word(b))) == Xor(FeedBit(c, Bit(b, 0)), Word(ShiftRight(b, 1)))
  {
    SplitLowBit(c, b);
    FeedBitIsShift(c, Bit(b, 0));
    hide *;
    ShiftLinear(Xor(c, BitWord(Bit(b, 0))), Word(b & 0xFE));
    ShiftEven(b);
  }

  lemma FeedBitIsShift(c: bv16, bit: bool)
    ensures FeedBit(c, bit) == Shift(Xor(c, BitWord(bit)))
  {}

  lemma {:induction false} ShiftsConsume(c: bv16, b: Byte, n: nat)
    requires n <= 8
    ensures Shifts(Xor(c, Word(b)), n) == Xor(FeedBits(c, ByteBits(b)[..n]), Word(ShiftRight(b, n)))
    decreases n
  {
    hide Shift, Xor, Word, FeedBit, BitWord, Bit, ShiftRight;
    ShiftRightSucc(b, n);
    if n > 0 {
      ConsumeBit(c, b);
      BitsOfHalf(b, n);
      ShiftsConsume(FeedBit(c, Bit(b, 0)), ShiftRight(b, 1), n - 1);
    }
  }

  lemma BitsOfHalf(b: Byte, n: nat)
    requires 1 <= n <= 8
    ensures ByteBits(ShiftRight(b, 1))[..n - 1] == ByteBits(b)[..n][1..]
  {
    forall i | 0 <= i < n - 1 ensures ByteBits(ShiftRight(b, 1))[i] == ByteBits(b)[i + 1] {
      BitOfHalf(b, i);
      hide Bit;
    }
  }

  function ShiftRight(b: Byte, n: nat): Byte
    requires n <= 8
  {
    if n == 0 then b else if n == 1 then b >> 1 else if n == 2 then b >> 2 else if n == 3 then b >> 3
    else if n == 4 then b >> 4 else if n == 5 then b >> 5 else if n == 6 then b >> 6
    else if n == 7 then b >> 7 else 0
  }

  lemma ShiftRightSucc(b: Byte, n: nat)
    requires n <= 8
    ensures ShiftRight(b, 0) == b
    ensures n > 0 ==> ShiftRight(ShiftRight(b, 1), n - 1) == ShiftRight(b, n)
  {}

  lemma BitOfHalf(b: Byte, i: nat)
    requires i < 7
    ensures Bit(ShiftRight(b, 1), i) == Bit(b, i + 1)
  {}

  /** One round of the byte-wise loop feeds the byte's eight bits, lowest first. */
  lemma ByteRound(c: bv16, b: Byte)
    ensures Shifts(Xor(c, Word(b)), 8) == FeedBits(c, ByteBits(b))
  {
    ShiftsConsume(c, b, 8);
    XorZero(FeedBits(c, ByteBits(b)));
    assert Word(ShiftRight(b, 8)) == 0;
    hide *;
    assert ByteBits(b)[..8] == ByteBits(b);
  }

  lemma XorZero(c: bv16)
    ensures Xor(c, 0) == c
  {}

  lemma {:induction false} ShiftsSnoc(c: bv16, n: nat)
    ensures Shifts(c, n + 1) == Shift(Shifts(c, n))
    decreases n
  {
    if n > 0 {
      ShiftsSnoc(Shift(c), n - 1);
    }
  }

  /** `fcs` as written: XOR in a byte, eight conditional shifts; equal to the bit-serial sequence. */
  method ComputeFcs(data: seq<Byte>) returns (fcs: bv16)
    ensures fcs == Fcs(data)
  {
    hide Shift, Xor, Word, FeedBit, ByteBits;
    var crc: bv16 := 0xFFFF;
    for i := 0 to |data|
      invariant crc == FeedBits(0xFFFF, Bits(data[..i]))
    {
      ghost var before := crc;
      crc := Xor(crc, Word(data[i]));
      ghost var start := crc;
      for j := 0 to 8
        invariant crc == Shifts(start, j)
      {
        ShiftsSnoc(start, j);
        crc := Shift(crc);
      }
      ByteRound(before, data[i]);
      assert data[..i + 1] == data[..i] + [data[i]];
      BitsConcat(data[..i], [data[i]]);
      BitsOfOne(data[i]);
      FeedBitsConcat(0xFFFF, Bits(data[..i]), ByteBits(data[i]));
    }
    assert data[..|data|] == data;
    return Xor(crc, 0xFFFF);
  }

  // ---- the received check: `fcs(payload) == stored`, for payload = all but the last two bytes ----

  function StoredFcs(frame: seq<Byte>): bv16
    requires |frame| >= 2
  {
    Word(frame[|frame| - 2]) | HighByte(frame[|frame| - 1])
  }

  function HighByte(b: Byte): bv16 {
    (b as bv16) << 8
  }

  predicate FcsValid(frame: seq<Byte>)
    requires |frame| >= 2
  {
    Fcs(frame[..|frame| - 2]) == StoredFcs(frame)
  }

  lemma FcsValidIs(frame: seq<Byte>)
    requires |frame| >= 2
    ensures FcsValid(frame) <==> Fcs(frame[..|frame| - 2]) == StoredFcs(frame)
  {}

  /** The two check bytes, low byte first. */
  function FcsBytes(data: seq<Byte>): seq<Byte> {
    [LowByteOf(Fcs(data)), HighByteOf(Fcs(data))]
  }

  function LowByteOf(w: bv16): Byte {
    (w & 0xFF) as Byte
  }

  function HighByteOf(w: bv16): Byte {
    ((w >> 8) & 0xFF) as Byte
  }

  lemma SplitWord(w: bv16)
    ensures Word(LowByteOf(w)) | HighByte(HighByteOf(w)) == w
  {}

  lemma AppendedFcsIsValid(data: seq<Byte>)
    ensures FcsValid(data + FcsBytes(data))
  {
    var frame := data + FcsBytes(data);
    SplitWord(Fcs(data));
    hide Word, HighByte, LowByteOf, HighByteOf, Fcs;
    assert frame[..|frame| - 2] == data;
  }

  const RESIDUE: bv16 := 0xF0B8

  function Register(data: seq<Byte>): bv16 {
    FeedBits(0xFFFF, Bits(data))
  }

  lemma {:induction false} ShiftsLinear(x: bv16, y: bv16, n: nat)
    ensures Shifts(Xor(x, y), n) == Xor(Shifts(x, n), Shifts(y, n))
    decreases n
  {
    hide Shift, Xor;
    if n > 0 {
      ShiftLinear(x, y);
      ShiftsLinear(Shift(x), Shift(y), n - 1);
    }
  }

  lemma {:induction false} ShiftsAdd(x: bv16, m: nat, n: nat)
    ensures Shifts(x, m + n) == Shifts(Shifts(x, m), n)
    decreases m
  {
    hide Shift;
    if m > 0 {
      ShiftsAdd(Shift(x), m - 1, n);
    }
  }

  /** A register goes to zero only from zero: the step is invertible. */
  lemma ShiftNonzero(x: bv16)
    ensures Shift(x) == 0 <==> x == 0
  {
    hide Shift;
    assert Shift(x) == if Odd(x) then Xor(Half(x), 0x8408) else Half(x) by { ShiftUnfold(x); }
    HalfTop(x);
    if Odd(x) {} else {}
  }

  lemma ShiftUnfold(x: bv16)
    ensures Shift(x) == if Odd(x) then Xor(Half(x), 0x8408) else Half(x)
  {}

  lemma HalfTop(x: bv16)
    ensures Xor(Half(x), 0x8408) != 0
    ensures !Odd(x) && Half(x) == 0 ==> x == 0
  {}

  lemma {:induction false} ShiftsNonzero(x: bv16, n: nat)
    ensures Shifts(x, n) == 0 <==> x == 0
    decreases n
  {
    hide Shift;
    if n > 0 {
      ShiftNonzero(x);
      ShiftsNonzero(Shift(x), n - 1);
    }
  }

  lemma XorIsZero(x: bv16, y: bv16)
    ensures Xor(x, y) == 0 <==> x == y
  {
    hide Xor;
    XorCancel(x, y);
    ZeroXor(y);
    XorCancel(0, y);
  }

  lemma XorCancel(x: bv16, y: bv16)
    ensures Xor(Xor(x, y), y) == x
  {}

  lemma ZeroXor(x: bv16)
    ensures Xor(0, x) == x
  {}

  lemma StoredIsXor(lo: Byte, hi: Byte)
    ensures Word(lo) | HighByte(hi) == Xor(Word(lo), HighByte(hi))
  {}

  lemma EvenShift(x: bv16)
    requires !Odd(x)
    ensures Shift(x) == Half(x)
  {}

  /** Eight shifts carry the high byte to the low end unchanged. */
  lemma HighByteComesDown(b: Byte)
    ensures Shifts(HighByte(b), 8) == Word(b)
  {
    HighByteHalves(b, 8);
  }

  function Places(b: Byte, n: nat): bv16
    requires n <= 8
  {
    if n == 0 then b as bv16 else if n == 1 then (b as bv16) << 1 else if n == 2 then (b as bv16) << 2
    else if n == 3 then (b as bv16) << 3 else if n == 4 then (b as bv16) << 4 else if n == 5 then (b as bv16) << 5
    else if n == 6 then (b as bv16) << 6 else if n == 7 then (b as bv16) << 7 else (b as bv16) << 8
  }

  lemma {:induction false} HighByteHalves(b: Byte, n: nat)
    requires n <= 8
    ensures Shifts(Places(b, n), n) == Word(b)
    decreases n
  {
    if n > 0 {
      PlacesHalf(b, n);
      assert Shift(Places(b, n)) == Places(b, n - 1) by { EvenShift(Places(b, n)); }
      HighByteHalves(b, n - 1);
    }
  }

  lemma PlacesHalf(b: Byte, n: nat)
    requires 1 <= n <= 8
    ensures !Odd(Places(b, n)) && Half(Places(b, n)) == Places(b, n - 1)
  {
    if n <= 4 {
      if n == 1 {} else if n == 2 {} else if n == 3 {} else {}
    } else {
      if n == 5 {} else if n == 6 {} else if n == 7 {} else {}
    }
  }

  /** Feeding two check bytes is adding them as one word and shifting sixteen times. */
  lemma FeedStored(c: bv16, lo: Byte, hi: Byte)
    ensures FeedBits(c, Bits([lo, hi])) == Shifts(Xor(c, Word(lo) | HighByte(hi)), 16)
  {
    hide Xor, Word, HighByte, Shift, FeedBit;
    assert Bits([lo, hi]) == ByteBits(lo) + ByteBits(hi) by {
      assert [lo, hi] == [lo] + [hi];
      BitsConcat([lo], [hi]);
      BitsOfOne(lo);
      BitsOfOne(hi);
    }
    FeedBitsConcat(c, ByteBits(lo), ByteBits(hi));
    ByteRound(c, lo);
    var c1 := Shifts(Xor(c, Word(lo)), 8);
    ByteRound(c1, hi);
    StoredIsXor(lo, hi);
    assert Xor(c, Word(lo) | HighByte(hi)) == Xor(Xor(c, Word(lo)), HighByte(hi)) by {
      XorRegroup(c, Word(lo), HighByte(hi));
    }
    ShiftsLinear(Xor(c, Word(lo)), HighByte(hi), 8);
    HighByteComesDown(hi);
    ShiftsAdd(Xor(Xor(c, Word(lo)), HighByte(hi)), 8, 8);
  }

  lemma ResidueValue()
    ensures Shifts(0xFFFF, 16) == RESIDUE
  {
    ShiftsAdd(0xFFFF, 8, 8);
  }

  /** The receiver's comparison holds exactly when the register over the whole frame ends at the residue. */
  lemma ValidIffResidue(frame: seq<Byte>)
    requires |frame| >= 2
    ensures FcsValid(frame) <==> Register(frame) == RESIDUE
    ensures FcsValid(frame) <==> Fcs(frame) == 0x0F47
  {
    RegisterOfFrame(frame);
    ResidueValue();
    hide Xor, Shift, FeedBits, FeedBit, Bits, StoredFcs, Shifts;
    ResidueStep(Register(frame[..|frame| - 2]), StoredFcs(frame));
    ComplementResidue(Register(frame));
  }

  lemma RegisterOfFrame(frame: seq<Byte>)
    requires |frame| >= 2
    ensures Register(frame) == Shifts(Xor(Register(frame[..|frame| - 2]), StoredFcs(frame)), 16)
  {
    hide Xor, Shift, Shifts, FeedBit, FeedBits, Bits, Word, HighByte;
    var n := |frame| - 2;
    assert frame == frame[..n] + [frame[n], frame[n + 1]];
    BitsConcat(frame[..n], [frame[n], frame[n + 1]]);
    FeedBitsConcat(0xFFFF, Bits(frame[..n]), Bits([frame[n], frame[n + 1]]));
    FeedStored(Register(frame[..n]), frame[n], frame[n + 1]);
  }

  lemma ResidueStep(c: bv16, stored: bv16)
    ensures Xor(c, 0xFFFF) == stored <==> Shifts(Xor(c, stored), 16) == Shifts(0xFFFF, 16)
  {
    ComplementAsXor(c, stored);
    hide Xor, Shift;
    var x := Xor(c, stored);
    ShiftsLinear(x, 0xFFFF, 16);
    ShiftsNonzero(Xor(x, 0xFFFF), 16);
    XorIsZero(x, 0xFFFF);
    XorIsZero(Shifts(x, 16), Shifts(0xFFFF, 16));
  }

  lemma ComplementAsXor(c: bv16, stored: bv16)
    ensures Xor(c, 0xFFFF) == stored <==> Xor(c, stored) == 0xFFFF
  {
    hide Xor;
    XorIsZero(Xor(c, 0xFFFF), stored);
    XorIsZero(Xor(c, stored), 0xFFFF);
    XorRegroup(c, 0xFFFF, stored);
  }

  lemma ComplementResidue(r: bv16)
    ensures Xor(r, 0xFFFF) == 0x0F47 <==> r == RESIDUE
  {}

  // ---- error detection ----

  function XorBits(a: seq<bool>, b: seq<bool>): (r: seq<bool>)
    requires |a| == |b|
    ensures |r| == |a|
    ensures forall i :: 0 <= i < |a| ==> r[i] == (a[i] != b[i])
  {
    seq(|a|, i requires 0 <= i < |a| => a[i] != b[i])
  }

  lemma BitWordXor(x: bool, y: bool)
    ensures BitWord(x != y) == Xor(BitWord(x), BitWord(y))
  {}

  lemma FeedBitLinear(c: bv16, d: bv16, x: bool, y: bool)
    ensures FeedBit(Xor(c, d), x != y) == Xor(FeedBit(c, x), FeedBit(d, y))
  {
    FeedBitIsShift(Xor(c, d), x != y);
    FeedBitIsShift(c, x);
    FeedBitIsShift(d, y);
    hide *;
    var p, q := BitWord(x), BitWord(y);
    BitWordXor(x, y);
    calc {
      Xor(Xor(c, d), Xor(p, q));
      { XorRegroup(Xor(c, d), p, q); }
      Xor(Xor(Xor(c, d), p), q);
      { XorRegroup(c, d, p); }
      Xor(Xor(Xor(c, p), d), q);
      { XorRegroup(Xor(c, p), d, q); }
      Xor(Xor(c, p), Xor(d, q));
    }
    ShiftLinear(Xor(c, p), Xor(d, q));
  }

  /** The register is linear in its start value and its input together. */
  lemma {:induction false} FeedLinear(c: bv16, d: bv16, x: seq<bool>, y: seq<bool>)
    requires |x| == |y|
    ensures FeedBits(Xor(c, d), XorBits(x, y)) == Xor(FeedBits(c, x), FeedBits(d, y))
    decreases |x|
  {
    hide FeedBit, Xor;
    if x != [] {
      FeedBitLinear(c, d, x[0], y[0]);
      assert XorBits(x, y)[1..] == XorBits(x[1..], y[1..]);
      FeedLinear(FeedBit(c, x[0]), FeedBit(d, y[0]), x[1..], y[1..]);
    }
  }

  /** A frame g received in place of a valid f is itself valid exactly when the error alone leaves the register zero. */
  lemma ErrorSyndrome(f: seq<Byte>, g: seq<Byte>)
    requires |f| == |g| >= 2 && FcsValid(f)
    ensures FcsValid(g) <==> FeedBits(0, XorBits(Bits(f), Bits(g))) == 0
  {
    ValidIffResidue(f);
    ValidIffResidue(g);
    var e := XorBits(Bits(f), Bits(g));
    FeedLinear(0xFFFF, 0, Bits(f), e);
    assert XorBits(Bits(f), e) == Bits(g);
    assert Xor(0xFFFF, 0) == 0xFFFF;
    XorCancelLeft(RESIDUE, FeedBits(0, e));
  }

  lemma XorCancelLeft(r: bv16, s: bv16)
    ensures Xor(r, s) == r <==> s == 0
  {}

  // ---- bursts ----

  /** The sixteen masks of the bits at places p and above. */
  function HighMask(p: nat): bv16
    requires p < 16
  {
    if p == 0 then 0xFFFF else if p == 1 then 0xFFFE else if p == 2 then 0xFFFC else if p == 3 then 0xFFF8
    else if p == 4 then 0xFFF0 else if p == 5 then 0xFFE0 else if p == 6 then 0xFFC0 else if p == 7 then 0xFF80
    else if p == 8 then 0xFF00 else if p == 9 then 0xFE00 else if p == 10 then 0xFC00 else if p == 11 then 0xF800
    else if p == 12 then 0xF000 else if p == 13 then 0xE000 else if p == 14 then 0xC000 else 0x8000
  }

  predicate SetAbove(x: bv16, p: nat)
    requires p < 16
  {
    x & HighMask(p) != 0
  }

  /** A bit at place p >= 1 or above survives one more input bit, one place lower. */
  lemma SetAboveStep(x: bv16, bit: bool, p: nat)
    requires 1 <= p < 16 && SetAbove(x, p)
    ensures SetAbove(FeedBit(x, bit), p - 1)
  {
    var y := Xor(x, BitWord(bit));
    assert SetAbove(y, p) by { SetAboveAdd(x, bit, p); }
    FeedBitIsShift(x, bit);
    hide FeedBit;
    if Odd(y) {
      OddShiftTop(y, p - 1);
    } else {
      EvenShift(y);
      HalfSetAbove(y, p);
    }
  }

  lemma SetAboveAdd(x: bv16, bit: bool, p: nat)
    requires 1 <= p < 16
    ensures SetAbove(Xor(x, BitWord(bit)), p) == SetAbove(x, p)
  {
    if bit {
      LowBitBelow(x, HighMask(p));
    } else {
      XorZero(x);
    }
  }

  lemma LowBitBelow(x: bv16, mask: bv16)
    requires mask & 1 == 0
    ensures Xor(x, 1) & mask == x & mask
  {}

  lemma HalfSetAbove(y: bv16, p: nat)
    requires 1 <= p < 16 && SetAbove(y, p)
    ensures SetAbove(Half(y), p - 1)
  {}

  lemma OddShiftTop(y: bv16, p: nat)
    requires p < 16 && Odd(y)
    ensures SetAbove(Shift(y), p)
  {
    assert Shift(y) & 0x8000 != 0;
  }

  lemma {:induction false} BurstNonzero(x: bv16, bits: seq<bool>, p: nat)
    requires |bits| <= p < 16 && SetAbove(x, p)
    ensures FeedBits(x, bits) != 0
    decreases |bits|
  {
    hide FeedBit;
    if bits == [] {
      assert x != 0;
    } else {
      SetAboveStep(x, bits[0], p);
      BurstNonzero(FeedBit(x, bits[0]), bits[1..], p - 1);
    }
  }

  predicate AllZero(bits: seq<bool>) {
    forall i :: 0 <= i < |bits| ==> !bits[i]
  }

  lemma FeedZero(x: bv16)
    ensures FeedBit(x, false) == 0 <==> x == 0
  {
    hide Xor, Shift, FeedBit;
    FeedBitIsShift(x, false);
    ShiftNonzero(x);
    XorZero(x);
  }

  lemma {:induction false} ZerosKeepZeroness(x: bv16, bits: seq<bool>)
    requires AllZero(bits)
    ensures FeedBits(x, bits) == 0 <==> x == 0
    decreases |bits|
  {
    hide FeedBit;
    if bits != [] {
      FeedZero(x);
      ZerosKeepZeroness(FeedBit(x, bits[0]), bits[1..]);
    }
  }

  /** An error pattern whose ones lie within sixteen consecutive places never leaves the register zero. */
  lemma BurstSyndrome(e: seq<bool>, first: nat)
    requires first < |e| && e[first]
    requires forall j :: 0 <= j < |e| && e[j] ==> first <= j < first + 16
    ensures FeedBits(0, e) != 0
  {
    hide FeedBit, FeedBits, SetAbove;
    var end := if first + 16 <= |e| then first + 16 else |e|;
    var lead, burst, tail := e[..first], e[first + 1..end], e[end..];
    assert e == lead + ([true] + (burst + tail));
    FeedBitsConcat(0, lead, [true] + (burst + tail));
    ZerosKeepZeroness(0, lead);
    FeedBitsConcat(0, [true], burst + tail);
    FeedOne(0, true);
    var x := FeedBits(0, [true]);
    FirstOne();
    FeedBitsConcat(x, burst, tail);
    BurstNonzero(x, burst, 15);
    ZerosKeepZeroness(FeedBits(x, burst), tail);
  }

  lemma FeedOne(c: bv16, bit: bool)
    ensures FeedBits(c, [bit]) == FeedBit(c, bit)
  {
    hide FeedBit;
    assert [bit][1..] == [];
  }

  lemma FirstOne()
    ensures SetAbove(FeedBit(0, true), 15)
  {}

  /** Every burst of at most sixteen transmitted bits is caught, whatever the length of the frame. */
  lemma BurstDetected(f: seq<Byte>, g: seq<Byte>, start: int)
    requires |f| == |g| >= 2 && f != g && FcsValid(f)
    requires forall j :: 0 <= j < 8 * |f| && Bits(f)[j] != Bits(g)[j] ==> start <= j < start + 16
    ensures !FcsValid(g)
  {
    hide FcsValid, ByteBits, FeedBits, Bits;
    var e := XorBits(Bits(f), Bits(g));
    ErrorSyndrome(f, g);
    if AllZero(e) {
      assert Bits(f) == Bits(g);
      BitsInjective(f, g);
    } else {
      var first := FirstSet(e);
      BurstSyndrome(e, first);
    }
  }

  lemma {:induction false} FirstSet(e: seq<bool>) returns (i: nat)
    requires !AllZero(e)
    ensures i < |e| && e[i] && AllZero(e[..i])
  {
    if e[0] {
      i := 0;
    } else {
      var k := FirstSet(e[1..]);
      i := k + 1;
      assert e[..i] == [e[0]] + e[1..][..k];
    }
  }

  lemma {:induction false} BitsInjective(f: seq<Byte>, g: seq<Byte>)
    requires |f| == |g| && Bits(f) == Bits(g)
    ensures f == g
  {
    if f != [] {
      assert ByteBits(f[0]) == Bits(f)[..8] && ByteBits(g[0]) == Bits(g)[..8];
      ByteBitsInjective(f[0], g[0]);
      assert Bits(f[1..]) == Bits(f)[8..] && Bits(g[1..]) == Bits(g)[8..];
      BitsInjective(f[1..], g[1..]);
    }
  }

  lemma ByteBitsInjective(a: Byte, b: Byte)
    requires ByteBits(a) == ByteBits(b)
    ensures a == b
  {
    forall i | 0 <= i < 8 ensures Bit(a, i) == Bit(b, i) {
      assert ByteBits(a)[i] == ByteBits(b)[i];
    }
    SameBits(a, b);
  }

  lemma SameBits(a: Byte, b: Byte)
    requires Bit(a, 0) == Bit(b, 0) && Bit(a, 1) == Bit(b, 1) && Bit(a, 2) == Bit(b, 2) && Bit(a, 3) == Bit(b, 3)
    requires Bit(a, 4) == Bit(b, 4) && Bit(a, 5) == Bit(b, 5) && Bit(a, 6) == Bit(b, 6) && Bit(a, 7) == Bit(b, 7)
    ensures a == b
  {}

  // ---- odd numbers of errors ----

  /** The parity of the n low places of the register. */
  predicate OddPlaces(x: bv16, n: nat)
    decreases n
  {
    n > 0 && OddPlaces(Half(x), n - 1) != Odd(x)
  }

  function Halves(x: bv16, n: nat): bv16
    decreases n
  {
    if n == 0 then x else Halves(Half(x), n - 1)
  }

  predicate OddWeight(bits: seq<bool>)
    decreases |bits|
  {
    bits != [] && OddWeight(bits[1..]) != bits[0]
  }

  lemma {:induction false} ParityXor(x: bv16, y: bv16, n: nat)
    ensures OddPlaces(Xor(x, y), n) == (OddPlaces(x, n) != OddPlaces(y, n))
    decreases n
  {
    hide Half, Odd, Xor;
    if n > 0 {
      HalfXor(x, y);
      OddXor(x, y);
      ParityXor(Half(x), Half(y), n - 1);
    }
  }

  lemma {:induction false} ParityTop(x: bv16, n: nat)
    ensures OddPlaces(x, n + 1) == (OddPlaces(x, n) != Odd(Halves(x, n)))
    decreases n
  {
    hide Half, Odd;
    if n > 0 {
      ParityTop(Half(x), n - 1);
    }
  }

  lemma {:induction false} HalvesVanish(x: bv16, n: nat)
    requires n < 16 && !SetAbove(x, n)
    ensures Halves(x, n) == 0
    decreases n
  {
    hide Half;
    if n == 0 {
      assert x == 0;
    } else {
      HalfClearAbove(x, n);
      HalvesVanish(Half(x), n - 1);
    }
  }

  lemma HalfClearAbove(x: bv16, n: nat)
    requires 1 <= n < 16 && !SetAbove(x, n)
    ensures !SetAbove(Half(x), n - 1)
  {}

  /** The polynomial has an even number of terms, so every shift keeps the parity of the register. */
  lemma ShiftKeepsParity(x: bv16)
    ensures OddPlaces(Shift(x), 16) == OddPlaces(x, 16)
  {
    hide Half, Odd, Xor, Shift, Halves, SetAbove;
    ParityTop(Half(x), 15);
    HalfBelowTop(x);
    HalvesVanish(Half(x), 15);
    PolynomialParity();
    ShiftUnfold(x);
    ParityXor(Half(x), 0x8408, 16);
  }

  lemma HalfBelowTop(x: bv16)
    ensures !SetAbove(Half(x), 15) && !Odd(0)
  {}

  lemma PolynomialParity()
    ensures OddPlaces(0x8408, 16)
    ensures OddPlaces(1, 16) && !OddPlaces(0, 16)
  {
    ZeroParity(15);
    assert Half(1) == 0;
    assert OddPlaces(0x8408, 16) == OddPlaces(0x1081, 13);
    assert OddPlaces(0x1081, 13) != OddPlaces(0x0840, 12);
    assert OddPlaces(0x0840, 12) == OddPlaces(0x0021, 6);
    assert OddPlaces(0x0021, 6) != OddPlaces(0x0010, 5);
    assert OddPlaces(0x0010, 5);
  }

  lemma {:induction false} ZeroParity(n: nat)
    ensures !OddPlaces(0, n)
    decreases n
  {
    if n > 0 {
      assert Half(0) == 0;
      ZeroParity(n - 1);
    }
  }

  lemma {:induction false} RegisterParity(x: bv16, bits: seq<bool>)
    ensures OddPlaces(FeedBits(x, bits), 16) == (OddPlaces(x, 16) != OddWeight(bits))
    decreases |bits|
  {
    if bits != [] {
      RegisterParity(FeedBit(x, bits[0]), bits[1..]);
      FeedBitIsShift(x, bits[0]);
      ShiftKeepsParity(Xor(x, BitWord(bits[0])));
      PolynomialParity();
      ParityXor(x, BitWord(bits[0]), 16);
    }
  }

  /** Every odd number of flipped bits is caught, wherever they are. */
  lemma OddErrorsDetected(f: seq<Byte>, g: seq<Byte>)
    requires |f| == |g| >= 2 && FcsValid(f)
    requires OddWeight(XorBits(Bits(f), Bits(g)))
    ensures !FcsValid(g)
  {
    hide FcsValid, ByteBits, Bits;
    ErrorSyndrome(f, g);
    RegisterParity(0, XorBits(Bits(f), Bits(g)));
    PolynomialParity();
  }
}
