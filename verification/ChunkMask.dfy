/** The 64-bit `received_mask` of firmware/components/ble_services/BleChunker.cpp as a set of chunk numbers. */
module ChunkMask {

  /** `uint64_t(1) << i`. */
  function BitOf(i: nat): bv64
    requires i < 64
  {
    if i == 0 then 1 else Double(BitOf(i - 1))
  }

  function Double(x: bv64): bv64 {
    x << 1
  }

  predicate Has(mask: bv64, i: nat)
    requires i < 64
  {
    And(mask, BitOf(i)) != 0
  }

  function Add(mask: bv64, i: nat): bv64
    requires i < 64
  {
    Or(mask, BitOf(i))
  }

  /** The mask of chunks 0..total-1, 64 being a case of its own. */
  function Expected(total: nat): bv64
    requires total <= 64
  {
    if total == 64 then 0xFFFF_FFFF_FFFF_FFFF else BitOf(total) - 1
  }

  predicate Complete(mask: bv64, total: nat)
    requires total <= 64
  {
    Covers(mask, Expected(total))
  }

  function And(x: bv64, y: bv64): bv64 {
    x & y
  }

  function Or(x: bv64, y: bv64): bv64 {
    x | y
  }

  predicate Covers(mask: bv64, e: bv64) {
    And(mask, e) == e
  }

  function Doubles(x: bv64, n: nat): bv64
    decreases n
  {
    if n == 0 then x else Doubles(Double(x), n - 1)
  }

  lemma {:induction false} ZeroDoubles(n: nat)
    ensures Doubles(0, n) == 0
  {
    if n > 0 {
      assert Double(0) == 0;
      ZeroDoubles(n - 1);
    }
  }

  lemma {:induction false} BitDoubles(i: nat, n: nat)
    requires i + n < 64
    ensures Doubles(BitOf(i), n) == BitOf(i + n)
    decreases n
  {
    hide Double;
    if n > 0 {
      BitDoubles(i + 1, n - 1);
    }
  }

  lemma TopBit()
    ensures BitOf(63) == 0x8000_0000_0000_0000
  {
    assert BitOf(8) == 0x100;
    assert BitOf(16) == 0x1_0000;
    assert BitOf(24) == 0x100_0000;
    assert BitOf(32) == 0x1_0000_0000;
    assert BitOf(40) == 0x100_0000_0000;
    assert BitOf(48) == 0x1_0000_0000_0000;
    assert BitOf(56) == 0x100_0000_0000_0000;
  }

  lemma BitNonzero(i: nat)
    requires i < 64
    ensures BitOf(i) != 0
  {
    hide Double, BitOf;
    BitDoubles(i, 63 - i);
    ZeroDoubles(63 - i);
    TopBit();
  }

  lemma DoubleAnd(x: bv64, y: bv64)
    ensures And(Double(x), Double(y)) == Double(And(x, y))
    ensures And(1, Double(y)) == 0 && Double(0) == 0
  {}

  lemma {:induction false} BitsDisjoint(i: nat, j: nat)
    requires i < j < 64
    ensures And(BitOf(i), BitOf(j)) == 0
  {
    if i > 0 {
      BitsDisjoint(i - 1, j - 1);
      DoubleAnd(BitOf(i - 1), BitOf(j - 1));
    } else {
      DoubleAnd(0, BitOf(j - 1));
    }
  }

  lemma OrSelf(m: bv64, x: bv64)
    ensures And(Or(m, x), x) == x
  {}

  lemma OrOther(m: bv64, x: bv64, y: bv64)
    requires And(x, y) == 0
    ensures And(Or(m, x), y) == And(m, y)
  {}

  lemma AndCommutes(x: bv64, y: bv64)
    ensures And(x, y) == And(y, x)
  {}

  /** Adding a chunk adds that chunk and no other. */
  lemma AddHas(mask: bv64, i: nat, j: nat)
    requires i < 64 && j < 64
    ensures Has(Add(mask, i), j) <==> Has(mask, j) || i == j
  {
    hide And, Or, BitOf, Double;
    if i == j {
      BitNonzero(i);
      OrSelf(mask, BitOf(i));
    } else {
      if i < j {
        BitsDisjoint(i, j);
      } else {
        BitsDisjoint(j, i);
        AndCommutes(BitOf(i), BitOf(j));
      }
      OrOther(mask, BitOf(i), BitOf(j));
    }
  }

  lemma NothingReceived(i: nat)
    requires i < 64
    ensures !Has(0, i)
  {
    hide BitOf;
    assert And(0, BitOf(i)) == 0;
  }

  predicate OneBit(x: bv64) {
    x != 0 && x & (x - 1) == 0
  }

  lemma DoubleOneBit(x: bv64)
    requires OneBit(x) && Double(x) != 0
    ensures OneBit(Double(x))
    ensures Double(x) - 1 == (x - 1) | x
  {}

  lemma {:induction false} BitIsOneBit(i: nat)
    requires i < 64
    ensures OneBit(BitOf(i))
  {
    if i > 0 {
      BitIsOneBit(i - 1);
      BitNonzero(i);
      hide OneBit, Double;
      DoubleOneBit(BitOf(i - 1));
    }
  }

  lemma ExpectedStep(n: nat)
    requires n < 64
    ensures Expected(0) == 0
    ensures Expected(n + 1) == Or(Expected(n), BitOf(n))
  {
    BitIsOneBit(n);
    if n < 63 {
      BitNonzero(n + 1);
      DoubleOneBit(BitOf(n));
    } else {
      TopBit();
    }
  }

  lemma Absorb(m: bv64, e: bv64)
    ensures Or(m, And(m, e)) == m
  {}

  lemma OrAssociates(x: bv64, y: bv64, z: bv64)
    ensures Or(x, Or(y, z)) == Or(Or(x, y), z)
  {}

  lemma OrAgain(x: bv64, y: bv64)
    ensures Or(Or(x, y), x) == Or(x, y)
    ensures Or(Or(x, y), y) == Or(x, y)
  {}

  lemma CoversMeans(m: bv64, e: bv64)
    ensures Covers(m, e) <==> Or(m, e) == m
  {
    hide And, Or;
    Absorb(m, e);
    OrSelf(m, e);
  }

  lemma CoverStep(m: bv64, e: bv64, b: bv64)
    ensures Covers(m, Or(e, b)) <==> Covers(m, e) && Covers(m, b)
  {
    hide And, Or, Covers;
    CoversMeans(m, Or(e, b));
    CoversMeans(m, e);
    CoversMeans(m, b);
    OrAssociates(m, e, b);
    OrAgain(e, b);
    OrAssociates(m, Or(e, b), e);
    OrAssociates(m, Or(e, b), b);
  }

  lemma OneBitAnd(mask: bv64, b: bv64)
    requires OneBit(b)
    ensures And(mask, b) != 0 <==> Covers(mask, b)
  {}

  lemma HasMeans(mask: bv64, i: nat)
    requires i < 64
    ensures Has(mask, i) <==> Covers(mask, BitOf(i))
  {
    hide BitOf, And, Covers, OneBit;
    BitIsOneBit(i);
    OneBitAnd(mask, BitOf(i));
  }

  lemma CoversNothing(mask: bv64)
    ensures Covers(mask, 0)
  {}

  /** The mask test is exactly "every chunk below total has been received". */
  lemma {:induction false} CompleteMeans(mask: bv64, total: nat)
    requires total <= 64
    ensures Complete(mask, total) <==> forall i :: 0 <= i < total ==> Has(mask, i)
  {
    hide BitOf, Expected, Has, And, Or, Covers;
    if total == 0 {
      ExpectedStep(0);
      CoversNothing(mask);
    } else {
      ExpectedStep(total - 1);
      CoverStep(mask, Expected(total - 1), BitOf(total - 1));
      HasMeans(mask, total - 1);
      CompleteMeans(mask, total - 1);
    }
  }
}
