/** Arithmetic of uint32_t: values are kept as naturals below 2^32 and wrap. */
module Uint32 {

  const U32 := 0x1_0000_0000

  function Wrap(n: nat): nat {
    n % U32
  }

  function Sub32(a: nat, b: nat): nat {
    (a - b) % U32
  }

  function Inc32(a: nat): nat {
    (a + 1) % U32
  }

  lemma WrappedIncrement(n: nat)
    ensures Inc32(Wrap(n)) == Wrap(n + 1) && Wrap(0) == 0
  {}

  /** The uint32 difference of two counters at most 2^32 - 1 apart is their true difference. */
  lemma WrappedDifference(a: nat, b: nat)
    requires b <= a < b + U32
    ensures Sub32(Wrap(a), Wrap(b)) == a - b
  {}

  /** However far apart two instants are, the uint32 age never exceeds the true age. */
  lemma WrappedAge(now: nat, since: nat)
    requires since <= now
    ensures Sub32(Wrap(now), Wrap(since)) <= now - since
  {}
}
