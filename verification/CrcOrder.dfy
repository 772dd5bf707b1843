/**
 * The order of the 0x8408 step of `fcs` (firmware/components/ax25/Ax25.cpp:23), and with it which
 * double bit errors the check sequence lets through. The register after n steps from 0x8000 is
 * the n-th power of x modulo the polynomial; squaring such powers is linear, so the register
 * after 2n steps is known from the one after n.
 */
module CrcOrder {
  import opened Bytes
  import opened Crc

  // ---------------------------------------------------------------- squaring

  function Unit(k: nat): bv16
    requires k < 16
  {
    if k == 0 then 0x0001 else if k == 1 then 0x0002 else if k == 2 then 0x0004 else if k == 3 then 0x0008 else if k == 4 then 0x0010 else
    if k == 5 then 0x0020 else if k == 6 then 0x0040 else if k == 7 then 0x0080 else if k == 8 then 0x0100 else if k == 9 then 0x0200 else
    if k == 10 then 0x0400 else if k == 11 then 0x0800 else if k == 12 then 0x1000 else if k == 13 then 0x2000 else if k == 14 then 0x4000 else
    0x8000
  }

  /** The square of the power that Unit(k) stands for: 2 * (15 - k) steps from 0x8000. */
  function UnitSquare(k: nat): bv16
    requires k < 16
  {
    if k == 0 then 0x33B0 else if k == 1 then 0xCEC0 else if k == 2 then 0x2333 else if k == 3 then 0x8CCC else if k == 4 then 0x2312 else
    if k == 5 then 0x8C48 else if k == 6 then 0x2102 else if k == 7 then 0x8408 else if k == 8 then 0x0002 else if k == 9 then 0x0008 else
    if k == 10 then 0x0020 else if k == 11 then 0x0080 else if k == 12 then 0x0200 else if k == 13 then 0x0800 else if k == 14 then 0x2000 else
    0x8000
  }

  function Part(x: bv16, m: bv16): bv16 {
    x & m
  }

  predicate Has(x: bv16, m: bv16) {
    x & m != 0
  }

  /** The sum of the squares of the low k places of x. */
  function SquareUpTo(x: bv16, k: nat): bv16
    requires k <= 16
  {
    if k == 0 then 0 else Xor(SquareUpTo(x, k - 1), if Has(x, Unit(k - 1)) then UnitSquare(k - 1) else 0)
  }

  function Square(x: bv16): bv16 {
    SquareUpTo(x, 16)
  }

  predicate OneBit(u: bv16) {
    u & (u - 1) == 0
  }

  lemma UnitHasOneBit(k: nat)
    requires k < 16
    ensures OneBit(Unit(k))
  {}

  lemma OnePart(x: bv16, u: bv16)
    requires OneBit(u)
    ensures Part(x, u) == 0 || Part(x, u) == u
  {}

  lemma PartXor(x: bv16, y: bv16, u: bv16)
    ensures Part(Xor(x, y), u) == Xor(Part(x, u), Part(y, u))
  {}

  lemma HasMeans(x: bv16, u: bv16)
    ensures Has(x, u) == (Part(x, u) != 0)
  {}

  lemma HasXor(x: bv16, y: bv16, u: bv16)
    requires OneBit(u)
    ensures Has(Xor(x, y), u) == (Has(x, u) != Has(y, u))
  {
    OnePart(x, u);
    OnePart(y, u);
    PartXor(x, y, u);
    XorCross(u, 0, 0, 0);
    XorCross(0, 0, 0, 0);
    HasMeans(x, u);
    HasMeans(y, u);
    HasMeans(Xor(x, y), u);
    hide Part, Xor, OneBit, Has;
  }

  lemma XorCross(p: bv16, q: bv16, r: bv16, s: bv16)
    ensures Xor(Xor(p, q), Xor(r, s)) == Xor(Xor(p, r), Xor(q, s))
    ensures Xor(p, p) == 0 && Xor(p, 0) == p && Xor(0, p) == p
  {}

  lemma {:induction false} SquareLinear(x: bv16, y: bv16, k: nat)
    requires k <= 16
    ensures SquareUpTo(Xor(x, y), k) == Xor(SquareUpTo(x, k), SquareUpTo(y, k))
    decreases k
  {
    hide Xor, Has, Unit, UnitSquare, OneBit;
    XorCross(0, 0, 0, 0);
    if k > 0 {
      SquareLinear(x, y, k - 1);
      UnitHasOneBit(k - 1);
      HasXor(x, y, Unit(k - 1));
      var u := UnitSquare(k - 1);
      var p, q := if Has(x, Unit(k - 1)) then u else 0, if Has(y, Unit(k - 1)) then u else 0;
      XorCross(SquareUpTo(x, k - 1), p, SquareUpTo(y, k - 1), q);
      XorCross(u, 0, 0, 0);
    }
  }

  /** The same written out, for computing with. */
  function Flat(x: bv16): bv16 {
    Xor(Xor(Xor(Xor(Xor(Xor(Xor(Xor(Xor(Xor(Xor(Xor(Xor(Xor(Xor(Xor(0,
    if Has(x, 0x0001) then 0x33B0 else 0),
    if Has(x, 0x0002) then 0xCEC0 else 0),
    if Has(x, 0x0004) then 0x2333 else 0),
    if Has(x, 0x0008) then 0x8CCC else 0),
    if Has(x, 0x0010) then 0x2312 else 0),
    if Has(x, 0x0020) then 0x8C48 else 0),
    if Has(x, 0x0040) then 0x2102 else 0),
    if Has(x, 0x0080) then 0x8408 else 0),
    if Has(x, 0x0100) then 0x0002 else 0),
    if Has(x, 0x0200) then 0x0008 else 0),
    if Has(x, 0x0400) then 0x0020 else 0),
    if Has(x, 0x0800) then 0x0080 else 0),
    if Has(x, 0x1000) then 0x0200 else 0),
    if Has(x, 0x2000) then 0x0800 else 0),
    if Has(x, 0x4000) then 0x2000 else 0),
    if Has(x, 0x8000) then 0x8000 else 0)
  }

  lemma Place(x: bv16, k: nat, u: bv16, square: bv16)
    requires k < 16 && u == Unit(k) && square == UnitSquare(k)
    ensures SquareUpTo(x, k + 1) == Xor(SquareUpTo(x, k), if Has(x, u) then square else 0)
  {}

  lemma FlatIsSquare(x: bv16)
    ensures Square(x) == Flat(x)
  {
    NoPlaces(x);
    Place(x, 0, 0x0001, 0x33B0);
    Place(x, 1, 0x0002, 0xCEC0);
    Place(x, 2, 0x0004, 0x2333);
    Place(x, 3, 0x0008, 0x8CCC);
    Place(x, 4, 0x0010, 0x2312);
    Place(x, 5, 0x0020, 0x8C48);
    Place(x, 6, 0x0040, 0x2102);
    Place(x, 7, 0x0080, 0x8408);
    Place(x, 8, 0x0100, 0x0002);
    Place(x, 9, 0x0200, 0x0008);
    Place(x, 10, 0x0400, 0x0020);
    Place(x, 11, 0x0800, 0x0080);
    Place(x, 12, 0x1000, 0x0200);
    Place(x, 13, 0x2000, 0x0800);
    Place(x, 14, 0x4000, 0x2000);
    Place(x, 15, 0x8000, 0x8000);
    hide Xor, Has, SquareUpTo, Unit, UnitSquare;
  }

  lemma NoPlaces(x: bv16)
    ensures SquareUpTo(x, 0) == 0
  {}

  function LowUpTo(x: bv16, k: nat): bv16
    requires k <= 16
  {
    if k == 0 then 0 else Xor(LowUpTo(x, k - 1), Part(x, Unit(k - 1)))
  }

  lemma AddPlace(x: bv16, k: nat, m: bv16, u: bv16)
    requires k < 16 && u == Unit(k) && m & u == 0 && LowUpTo(x, k) == Part(x, m)
    ensures LowUpTo(x, k + 1) == Part(x, m | u)
  {
    JoinParts(x, m, u);
    LowStep(x, k);
    hide *;
  }

  lemma JoinParts(x: bv16, m: bv16, u: bv16)
    requires m & u == 0
    ensures Xor(Part(x, m), Part(x, u)) == Part(x, m | u)
  {}

  lemma LowStep(x: bv16, k: nat)
    requires k < 16
    ensures LowUpTo(x, k + 1) == Xor(LowUpTo(x, k), Part(x, Unit(k)))
  {}

  lemma LowIsAll(x: bv16)
    ensures LowUpTo(x, 16) == x
  {
    hide LowUpTo, Part;
    NoLow(x);
    AddPlace(x, 0, 0x0000, 0x0001);
    AddPlace(x, 1, 0x0001, 0x0002);
    AddPlace(x, 2, 0x0003, 0x0004);
    AddPlace(x, 3, 0x0007, 0x0008);
    AddPlace(x, 4, 0x000F, 0x0010);
    AddPlace(x, 5, 0x001F, 0x0020);
    AddPlace(x, 6, 0x003F, 0x0040);
    AddPlace(x, 7, 0x007F, 0x0080);
    AddPlace(x, 8, 0x00FF, 0x0100);
    AddPlace(x, 9, 0x01FF, 0x0200);
    AddPlace(x, 10, 0x03FF, 0x0400);
    AddPlace(x, 11, 0x07FF, 0x0800);
    AddPlace(x, 12, 0x0FFF, 0x1000);
    AddPlace(x, 13, 0x1FFF, 0x2000);
    AddPlace(x, 14, 0x3FFF, 0x4000);
    AddPlace(x, 15, 0x7FFF, 0x8000);
  }

  lemma NoLow(x: bv16)
    ensures LowUpTo(x, 0) == Part(x, 0)
    ensures Part(x, 0xFFFF) == x
  {}

  /** A step squared is two steps. */
  predicate Commutes(x: bv16) {
    Square(Shift(x)) == Shift(Shift(Square(x)))
  }

  lemma CommutesXor(x: bv16, y: bv16)
    requires Commutes(x) && Commutes(y)
    ensures Commutes(Xor(x, y))
  {
    hide Xor, Shift, SquareUpTo;
    ShiftLinear(x, y);
    SquareLinear(Shift(x), Shift(y), 16);
    SquareLinear(x, y, 16);
    ShiftLinear(Square(x), Square(y));
    ShiftLinear(Shift(Square(x)), Shift(Square(y)));
  }

  lemma CommutesAt(u: bv16)
    requires Flat(Shift(u)) == Shift(Shift(Flat(u)))
    ensures Commutes(u)
  {
    FlatIsSquare(u);
    FlatIsSquare(Shift(u));
    hide Square, Flat, Shift;
  }

  lemma CommutesUnit(k: nat)
    requires k < 16
    ensures Commutes(Unit(k))
  {
    hide Commutes;
    if k == 0 {
      CommutesAt(0x0001);
    } else if k == 1 {
      CommutesAt(0x0002);
    } else if k == 2 {
      CommutesAt(0x0004);
    } else if k == 3 {
      CommutesAt(0x0008);
    } else if k == 4 {
      CommutesAt(0x0010);
    } else if k == 5 {
      CommutesAt(0x0020);
    } else if k == 6 {
      CommutesAt(0x0040);
    } else if k == 7 {
      CommutesAt(0x0080);
    } else if k == 8 {
      CommutesAt(0x0100);
    } else if k == 9 {
      CommutesAt(0x0200);
    } else if k == 10 {
      CommutesAt(0x0400);
    } else if k == 11 {
      CommutesAt(0x0800);
    } else if k == 12 {
      CommutesAt(0x1000);
    } else if k == 13 {
      CommutesAt(0x2000);
    } else if k == 14 {
      CommutesAt(0x4000);
    } else {
      CommutesAt(0x8000);
    }
  }

  lemma CommutesZero()
    ensures Commutes(0)
  {
    CommutesAt(0);
  }

  lemma {:induction false} CommutesUpTo(x: bv16, k: nat)
    requires k <= 16
    ensures Commutes(LowUpTo(x, k))
    decreases k
  {
    hide Commutes, Xor, Unit, Part, OneBit;
    CommutesZero();
    if k == 0 {
    } else {
      CommutesUpTo(x, k - 1);
      CommutesUnit(k - 1);
      UnitHasOneBit(k - 1);
      OnePart(x, Unit(k - 1));
      CommutesXor(LowUpTo(x, k - 1), Part(x, Unit(k - 1)));
    }
  }

  lemma StepSquared(x: bv16)
    ensures Square(Shift(x)) == Shift(Shift(Square(x)))
  {
    LowIsAll(x);
    CommutesUpTo(x, 16);
    hide LowUpTo, Square, Shift;
  }

  /** The n-th power of x. */
  function Power(n: nat): bv16 {
    Shifts(0x8000, n)
  }

  lemma NextPower(n: nat)
    ensures Power(n + 1) == Shift(Power(n)) && Power(0) == 0x8000
  {
    hide Shift;
    ShiftsSnoc(0x8000, n);
  }

  lemma {:induction false} PowerSquared(n: nat)
    ensures Power(n + n) == Square(Power(n))
    decreases n
  {
    hide Power, Square, Shift;
    if n == 0 {
      OneSquared();
    } else {
      PowerSquared(n - 1);
      NextPower(n - 1);
      NextPower(n + n - 2);
      NextPower(n + n - 1);
      StepSquared(Power(n - 1));
    }
  }

  lemma OneSquared()
    ensures Power(0) == Square(Power(0))
  {
    NextPower(0);
    FlatIsSquare(0x8000);
    hide Square, Power;
  }

  /** From the n-th power to the one twice as far on, and to the next after that. */
  lemma Twice(n: nat, x: bv16, y: bv16)
    requires Power(n) == x && Flat(x) == y
    ensures Power(n + n) == y && Power(n + n + 1) == Shift(y)
  {
    PowerSquared(n);
    FlatIsSquare(x);
    NextPower(n + n);
    hide Power, Square, Shift, Flat;
  }

  // ---------------------------------------------------------------- four powers

  lemma Power217()
    ensures Power(217) == 0xC712
  {
    NextPower(0);
    hide Power;
    assert Power(1) == 0x4000;
    Twice(1, 0x4000, 0x2000);
    assert Power(3) == 0x1000;
    Twice(3, 0x1000, 0x0200);
    Twice(6, 0x0200, 0x0008);
    assert Power(13) == 0x0004;
    Twice(13, 0x0004, 0x2333);
    assert Power(27) == 0x9591;
    Twice(27, 0x9591, 0x1688);
    Twice(54, 0x1688, 0x0AEC);
    Twice(108, 0x0AEC, 0x8635);
    assert Power(217) == 0xC712;
  }

  lemma Power1057()
    ensures Power(1057) == 0xF54F
  {
    NextPower(0);
    hide Power;
    assert Power(1) == 0x4000;
    Twice(1, 0x4000, 0x2000);
    Twice(2, 0x2000, 0x0800);
    Twice(4, 0x0800, 0x0080);
    Twice(8, 0x0080, 0x8408);
    Twice(16, 0x8408, 0x0CEC);
    assert Power(33) == 0x0676;
    Twice(33, 0x0676, 0x6383);
    Twice(66, 0x6383, 0x5172);
    Twice(132, 0x5172, 0x629A);
    Twice(264, 0x629A, 0xCD1E);
    Twice(528, 0xCD1E, 0xE28F);
    assert Power(1057) == 0xF54F;
  }

  lemma Power4681()
    ensures Power(4681) == 0x4234
  {
    NextPower(0);
    hide Power;
    assert Power(1) == 0x4000;
    Twice(1, 0x4000, 0x2000);
    Twice(2, 0x2000, 0x0800);
    Twice(4, 0x0800, 0x0080);
    assert Power(9) == 0x0040;
    Twice(9, 0x0040, 0x2102);
    Twice(18, 0x2102, 0xC6C2);
    Twice(36, 0xC6C2, 0xCBE2);
    assert Power(73) == 0x65F1;
    Twice(73, 0x65F1, 0x11C2);
    Twice(146, 0x11C2, 0x69C8);
    Twice(292, 0x69C8, 0x0144);
    assert Power(585) == 0x00A2;
    Twice(585, 0x00A2, 0xC680);
    Twice(1170, 0xC680, 0x2420);
    Twice(2340, 0x2420, 0x8468);
    assert Power(4681) == 0x4234;
  }

  lemma Power32767()
    ensures Power(32767) == 0x8000
  {
    NextPower(0);
    hide Power;
    assert Power(1) == 0x4000;
    Twice(1, 0x4000, 0x2000);
    assert Power(3) == 0x1000;
    Twice(3, 0x1000, 0x0200);
    assert Power(7) == 0x0100;
    Twice(7, 0x0100, 0x0002);
    assert Power(15) == 0x0001;
    Twice(15, 0x0001, 0x33B0);
    assert Power(31) == 0x19D8;
    Twice(31, 0x19D8, 0x0856);
    assert Power(63) == 0x042B;
    Twice(63, 0x042B, 0xFDD4);
    assert Power(127) == 0x7EEA;
    Twice(127, 0x7EEA, 0x41E6);
    assert Power(255) == 0x20F3;
    Twice(255, 0x20F3, 0xFF20);
    assert Power(511) == 0x7F90;
    Twice(511, 0x7F90, 0x8DB0);
    assert Power(1023) == 0x46D8;
    Twice(1023, 0x46D8, 0x2AFC);
    assert Power(2047) == 0x157E;
    Twice(2047, 0x157E, 0xED45);
    assert Power(4095) == 0xF2AA;
    Twice(4095, 0xF2AA, 0xE044);
    assert Power(8191) == 0x7022;
    Twice(8191, 0x7022, 0x6888);
    assert Power(16383) == 0x3444;
    Twice(16383, 0x3444, 0x0811);
    assert Power(32767) == 0x8000;
  }

  // ---------------------------------------------------------------- the order is 32767

  /** The n-th power of x is 1 again. */
  predicate Returns(n: nat) {
    Power(n) == 0x8000
  }

  lemma ReturnsAdd(a: nat, b: nat)
    requires Returns(a)
    ensures Returns(a + b) <==> Returns(b)
  {
    hide Shifts;
    ShiftsAdd(0x8000, a, b);
  }

  lemma {:induction false} ReturnsTimes(a: nat, k: nat)
    requires Returns(a)
    ensures Returns(a * k)
    decreases k
  {
    hide Shifts, Returns;
    if k == 0 {
      Never();
    } else {
      ReturnsTimes(a, k - 1);
      ReturnsAdd(a, a * (k - 1));
      assert a + a * (k - 1) == a * k;
    }
  }

  lemma Never()
    ensures Returns(0)
  {
    NextPower(0);
  }

  predicate Prime(p: nat) {
    p > 1 && forall j :: 1 < j < p ==> p % j != 0
  }

  lemma SmallPrimes()
    ensures Prime(7) && Prime(31)
  {}

  lemma Product(j: nat, p: nat, q: nat)
    requires j > 0 && p % j == 0 && q == p / j
    ensures p == q * j
  {}

  lemma Divides(p: nat, q: nat, j: nat)
    requires p == q * j && q > 0
    ensures p % q == 0
  {
    ModTimes(j, q);
  }

  lemma {:induction false} ModTimes(j: nat, q: nat)
    requires q > 0
    ensures (q * j) % q == 0
    decreases j
  {
    if j > 0 {
      ModTimes(j - 1, q);
      assert q * j == q * (j - 1) + q;
      AddMod(q * (j - 1), q);
    }
  }

  lemma AddMod(a: nat, q: nat)
    requires q > 0
    ensures (a + q) % q == a % q
  {
    assert a + q == (a / q + 1) * q + a % q;
    Remainder(a + q, q, a / q + 1, a % q);
  }

  lemma Remainder(a: nat, q: nat, k: nat, r: nat)
    requires q > 0 && a == k * q + r && r < q
    ensures a % q == r && a / q == k
  {
    var d := a / q - k;
    assert a == (a / q) * q + a % q;
    assert d * q == r - a % q;
    Apart(d, q);
  }

  lemma Apart(d: int, q: int)
    requires q > 0
    ensures (d >= 1 ==> d * q >= q) && (d <= -1 ==> d * q <= -q)
  {}

  /** A divisor of 151 above 12 would leave one below 12. */
  lemma Prime151()
    ensures Prime(151)
  {
    forall j | 1 < j < 151 ensures 151 % j != 0 {
      if 151 % j == 0 {
        var q := 151 / j;
        Product(j, 151, q);
        if j <= 12 {
          NoSmallDivisor(j);
        } else {
          SmallFactor(151, q, j);
          Divides(151, q, j);
          NoSmallDivisor(q);
        }
      }
    }
  }

  lemma NoSmallDivisor(j: nat)
    requires 1 < j <= 12
    ensures 151 % j != 0
  {}

  lemma SmallFactor(p: nat, q: nat, j: nat)
    requires p == q * j && p < 169 && 13 <= j < p
    ensures 1 < q <= 12
  {
    if q >= 13 {
      AtLeast(q, j);
    }
  }

  lemma AtLeast(q: nat, j: nat)
    requires q >= 13 && j >= 13
    ensures q * j >= 169
  {
    assert (q - 13) * (j - 13) >= 0;
  }

  /** If j < p groups of m steps return, and p groups do, for a prime p, then one group does. */
  lemma {:induction false} OneGroup(m: nat, p: nat, j: nat)
    requires Prime(p) && 0 < j < p && Returns(m * j) && Returns(m * p)
    ensures Returns(m)
    decreases j
  {
    hide Returns;
    if j == 1 {
      assert m * 1 == m;
    } else {
      var q, r := p / j, p % j;
      assert m * p == (m * j) * q + m * r by {
        assert p == j * q + r;
        Distribute(m, j, q, r);
      }
      ReturnsTimes(m * j, q);
      ReturnsAdd((m * j) * q, m * r);
      hide Prime;
      assert r != 0 by { NotDivided(p, j); }
      OneGroup(m, p, r);
    }
  }

  lemma NotDivided(p: nat, j: nat)
    requires Prime(p) && 1 < j < p
    ensures p % j != 0
  {}

  lemma Distribute(m: nat, j: nat, q: nat, r: nat)
    ensures m * (j * q + r) == (m * j) * q + m * r
  {}

  lemma Scale(m: nat, p: nat, d: nat)
    requires p > 0
    ensures d * m == (m * p) * (d / p) + m * (d % p)
  {
    Distribute(m, p, d / p, d % p);
  }

  /** A number of steps that returns is a multiple of each prime factor of 32767. */
  lemma PrimeFactor(m: nat, p: nat, d: nat)
    requires Prime(p) && Returns(m * p) && !Returns(m) && Returns(d)
    ensures d % p == 0
  {
    hide Returns;
    ReturnsTimes(d, m);
    Scale(m, p, d);
    ReturnsTimes(m * p, d / p);
    ReturnsAdd((m * p) * (d / p), m * (d % p));
    if d % p != 0 {
      OneGroup(m, p, d % p);
    }
  }

  lemma AllFactors(d: nat)
    requires d % 7 == 0 && d % 31 == 0 && d % 151 == 0
    ensures d % 32767 == 0
  {
    var k := 9 * (d / 31) - 2 * (d / 7);
    assert d == 217 * k;
    assert d == 32767 * (135 * (d / 151) - 194 * k);
  }

  /** The powers of x repeat after exactly the multiples of 32767. */
  lemma OrderExactly(d: nat)
    ensures Power(d) == 0x8000 <==> d % 32767 == 0
  {
    Power32767();
    Power4681();
    Power1057();
    Power217();
    SmallPrimes();
    Prime151();
    hide Power, Prime;
    if Returns(d) {
      PrimeFactor(4681, 7, d);
      PrimeFactor(1057, 31, d);
      PrimeFactor(217, 151, d);
      AllFactors(d);
    }
    if d % 32767 == 0 {
      ReturnsTimes(32767, d / 32767);
    }
  }

  /** The register with only its lowest bit set, the fifteenth power, comes back when 1 does. */
  lemma BitReturns(d: nat)
    ensures Shifts(1, d) == 1 <==> Power(d) == 0x8000
  {
    FifteenSteps();
    var y := Power(d);
    hide Shifts, Xor;
    ShiftsAdd(0x8000, 15, d);
    ShiftsAdd(0x8000, d, 15);
    ShiftsLinear(y, 0x8000, 15);
    ShiftsNonzero(Xor(y, 0x8000), 15);
    XorIsZero(y, 0x8000);
    XorIsZero(Shifts(y, 15), 1);
  }

  lemma FifteenSteps()
    ensures Shifts(0x8000, 15) == 1
  {
    assert Shifts(0x8000, 5) == 0x0400;
    ShiftsAdd(0x8000, 5, 5);
    assert Shifts(0x0400, 5) == 0x0020;
    ShiftsAdd(0x8000, 10, 5);
    assert Shifts(0x0020, 5) == 0x0001;
  }

  // ---------------------------------------------------------------- double errors

  lemma {:induction false} ZerosShift(x: bv16, bits: seq<bool>)
    requires AllZero(bits)
    ensures FeedBits(x, bits) == Shifts(x, |bits|)
    decreases |bits|
  {
    hide FeedBit, Shift;
    if bits != [] {
      ZeroBit(x);
      ZerosShift(Shift(x), bits[1..]);
    }
  }

  lemma ZeroBit(x: bv16)
    ensures FeedBit(x, false) == Shift(x)
  {
    XorZero(x);
  }

  lemma SecondBit(x: bv16)
    ensures FeedBit(x, true) == 0 <==> x == 1
  {
    hide Shift, Xor;
    ShiftNonzero(Xor(x, 1));
    XorIsZero(x, 1);
  }

  /** Two ones, at distance d, leave the register zero exactly when d steps bring the single bit back. */
  lemma PairSyndrome(e: seq<bool>, i: nat, j: nat)
    requires i < j < |e| && forall k :: 0 <= k < |e| ==> (e[k] <==> k == i || k == j)
    ensures FeedBits(0, e) == 0 <==> Shifts(1, j - i) == 1
  {
    hide FeedBit, FeedBits, Shifts;
    var lead, gap, tail := e[..i], e[i + 1..j], e[j + 1..];
    assert e == lead + ([true] + (gap + ([true] + tail)));
    FeedBitsConcat(0, lead, [true] + (gap + ([true] + tail)));
    ZerosKeepZeroness(0, lead);
    FeedBitsConcat(0, [true], gap + ([true] + tail));
    FeedOne(0, true);
    var x := FeedBit(0, true);
    FirstShift();
    FeedBitsConcat(x, gap, [true] + tail);
    ZerosShift(x, gap);
    ShiftsAdd(1, 1, |gap|);
    var y := Shifts(x, |gap|);
    FeedBitsConcat(y, [true], tail);
    FeedOne(y, true);
    SecondBit(y);
    ZerosKeepZeroness(FeedBit(y, true), tail);
  }

  lemma FirstShift()
    ensures FeedBit(0, true) == Shifts(1, 1)
  {
    assert Shifts(Shift(1), 0) == Shift(1);
    assert Xor(0, BitWord(true)) == 1;
  }

  /** Two flipped bits go unnoticed if and only if their distance is a multiple of 32767. */
  lemma DoubleErrorExactly(f: seq<Byte>, g: seq<Byte>, i: nat, j: nat)
    requires |f| == |g| >= 2 && FcsValid(f) && i < j < 8 * |f|
    requires forall k :: 0 <= k < 8 * |f| ==> (Bits(f)[k] != Bits(g)[k] <==> k == i || k == j)
    ensures FcsValid(g) <==> (j - i) % 32767 == 0
  {
    hide FcsValid, FeedBits, Bits, Shifts, Power;
    ErrorSyndrome(f, g);
    PairSyndrome(XorBits(Bits(f), Bits(g)), i, j);
    BitReturns(j - i);
    OrderExactly(j - i);
  }

  /** So no frame of up to 4095 bytes, let alone a legal one, hides a double error. */
  lemma DoubleErrorsDetected(f: seq<Byte>, g: seq<Byte>, i: nat, j: nat)
    requires |f| == |g| >= 2 && |f| <= 4095 && FcsValid(f) && i < j < 8 * |f|
    requires forall k :: 0 <= k < 8 * |f| ==> (Bits(f)[k] != Bits(g)[k] <==> k == i || k == j)
    ensures !FcsValid(g)
  {
    hide FcsValid, Bits;
    DoubleErrorExactly(f, g, i, j);
  }
}
