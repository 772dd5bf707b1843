/** Which slot of a ring a free-running uint32 index picks: `h % kRingDepth` and the like. */
module RingIndex {
  import opened Uint32

  /** A ring depth that free-running indices work for. */
  predicate GoodDepth(d: nat) {
    0 < d < U32 && U32 % d == 0
  }

  lemma MulSign(d: nat, z: int)
    ensures z >= 1 ==> d * z >= d
    ensures z <= -1 ==> d * z + d <= 0
  {
    if z >= 1 {
      assert d * z == d + d * (z - 1);
    } else if z <= -1 {
      assert d * z + d == d * (z + 1);
    }
  }

  lemma RemainderUnique(x: nat, d: nat, q: int, r: nat)
    requires 0 <= r < d && x == d * q + r
    ensures x % d == r
  {
    var q', r' := x / d, x % d;
    assert d * (q' - q) == r - r';
    MulSign(d, q' - q);
  }

  /** A wrapped index picks the same slot as the unbounded one: the depth divides 2^32. */
  lemma WrappedSlot(d: nat, n: nat)
    requires GoodDepth(d)
    ensures Wrap(n) % d == n % d
  {
    var m, w := U32 / d, n % U32;
    assert n == U32 * (n / U32) + w;
    assert U32 == d * m;
    assert U32 * (n / U32) == d * (m * (n / U32));
    assert n == d * (m * (n / U32) + w / d) + w % d;
    RemainderUnique(n, d, m * (n / U32) + w / d, w % d);
  }

  /** Free-running indices work for a depth exactly when it divides 2^32. */
  lemma DepthMustDivide(d: nat)
    requires 0 < d < U32
    ensures (forall n: nat :: Wrap(n) % d == n % d) <==> GoodDepth(d)
  {
    if GoodDepth(d) {
      forall n: nat ensures Wrap(n) % d == n % d {
        WrappedSlot(d, n);
      }
    }
    if forall n: nat :: Wrap(n) % d == n % d {
      assert Wrap(U32) == 0;
      RemainderUnique(0, d, 0, 0);
      assert Wrap(U32) % d == U32 % d;
    }
  }

  /** Two entries less than a ring's depth apart are in different slots. */
  lemma DistinctSlots(d: nat, a: nat, b: nat)
    requires d > 0 && a < b < a + d
    ensures a % d != b % d
  {
    assert b - a == d * (b / d - a / d) + (b % d - a % d);
    MulSign(d, b / d - a / d);
  }
}
