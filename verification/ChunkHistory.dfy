/**
 * More of what every input keeps in the reassembler (BleChunker.cpp:47-167): a delivered message
 * was not interrupted by a reset, and no fed chunk is delivered twice.
 */
module ChunkHistory {
  import opened Bytes
  import opened Chunking
  import Uint32

  /** The input positions a set of parts came from. */
  function Uses(parts: map<nat, Part>): set<nat> {
    set i | i in parts :: parts[i].pos
  }

  predicate Apart(c: Chunker) {
    && (forall p, q :: 0 <= p < q < |c.slots| ==> Uses(c.slots[p].parts) !! Uses(c.slots[q].parts))
    && (forall p, d :: 0 <= p < |c.slots| && 0 <= d < |c.delivered| ==> Uses(c.slots[p].parts) !! Uses(c.delivered[d].parts))
    && (forall d, e :: 0 <= d < e < |c.delivered| ==> Uses(c.delivered[d].parts) !! Uses(c.delivered[e].parts))
  }

  predicate Below(parts: map<nat, Part>, n: nat) {
    forall i :: i in parts ==> parts[i].pos < n
  }

  predicate AllBelow(c: Chunker, n: nat) {
    (forall p :: 0 <= p < |c.slots| ==> Below(c.slots[p].parts, n))
    && forall d :: 0 <= d < |c.delivered| ==> Below(c.delivered[d].parts, n)
  }

  predicate NoReset(ops: seq<Op>, from: nat, to: nat) {
    forall k :: from <= k < to && k < |ops| ==> !ops[k].DoReset?
  }

  predicate Unbroken(ops: seq<Op>, c: Chunker) {
    (forall p :: 0 <= p < |c.slots| && c.slots[p].active ==> NoReset(ops, c.slots[p].openPos, |ops|))
    && forall d, i :: 0 <= d < |c.delivered| && i in c.delivered[d].parts ==> NoReset(ops, c.delivered[d].openPos, c.delivered[d].parts[i].pos + 1)
  }

  // ---------------------------------------------------------------- what each step keeps

  lemma UsesAdded(parts: map<nat, Part>, i: nat, part: Part)
    requires i !in parts
    ensures Uses(parts[i := part]) == Uses(parts) + {part.pos}
  {
    var more := parts[i := part];
    forall x | x in Uses(parts) ensures x in Uses(more) {
      var k :| k in parts && parts[k].pos == x;
      assert more[k].pos == x;
    }
    assert more[i].pos == part.pos;
  }

  lemma NothingUsed()
    ensures Uses(map[]) == {}
  {}

  lemma BelowMeans(parts: map<nat, Part>, n: nat)
    requires Below(parts, n)
    ensures n !in Uses(parts)
  {}

  lemma AllBelowMeans(c: Chunker, n: nat)
    requires AllBelow(c, n)
    ensures forall p :: 0 <= p < |c.slots| ==> n !in Uses(c.slots[p].parts)
    ensures forall d :: 0 <= d < |c.delivered| ==> n !in Uses(c.delivered[d].parts)
  {
    hide Uses, Below;
    forall p | 0 <= p < |c.slots| ensures n !in Uses(c.slots[p].parts) {
      BelowMeans(c.slots[p].parts, n);
    }
    forall d | 0 <= d < |c.delivered| ensures n !in Uses(c.delivered[d].parts) {
      BelowMeans(c.delivered[d].parts, n);
    }
  }

  lemma ExpireApart(c: Chunker, timeout: nat, now: nat, n: nat)
    requires Apart(c) && AllBelow(c, n)
    ensures var c' := c.(slots := ExpireAll(c.slots, timeout, now)); Apart(c') && AllBelow(c', n)
  {
    NothingUsed();
    hide Stale, Uses;
  }

  lemma ResetApart(c: Chunker, n: nat)
    requires Apart(c) && AllBelow(c, n)
    ensures var c' := c.(slots := ResetAll(c.slots)); Apart(c') && AllBelow(c', n)
  {
    NothingUsed();
    hide Uses;
  }

  lemma OpenApart(c: Chunker, v: nat, s: Slot, n: nat)
    requires Apart(c) && AllBelow(c, n) && v < |c.slots| && s.parts == map[]
    ensures var c' := c.(slots := c.slots[v := s]); Apart(c') && AllBelow(c', n)
  {
    NothingUsed();
    hide Uses;
  }

  lemma ReceiveApart(c: Chunker, p: nat, i: nat, part: Part)
    requires Apart(c) && AllBelow(c, part.pos) && p < |c.slots|
    ensures Apart(Receive(c, p, i, part)) && AllBelow(Receive(c, p, i, part), part.pos + 1)
  {
    var s := c.slots[p];
    AllBelowMeans(c, part.pos);
    NothingUsed();
    if i !in s.parts {
      UsesAdded(s.parts, i, part);
      hide Uses, AllReceived;
    }
  }

  lemma FeedApart(c: Chunker, timeout: nat, chunk: seq<Octet>, now: nat, n: nat)
    requires |c.slots| > 0 && Apart(c) && AllBelow(c, n)
    ensures var c' := Feed(c, timeout, chunk, now, n).0; Apart(c') && AllBelow(c', n + 1)
  {
    if WellFormed(chunk) {
      var c1 := c.(slots := ExpireAll(c.slots, timeout, now));
      ExpireApart(c, timeout, now, n);
      var v := Victim(c1.slots, now);
      var s := Slot(chunk[0], chunk[2], Uint32.Wrap(now), true, map[], n);
      OpenApart(c1, v, s, n);
      var part := Part(chunk[HEADER..], n);
      var p := FindSlot(c1.slots, chunk[0]);
      hide Apart, ExpireAll, FindSlot, Victim, Receive, Uint32.Wrap, Below;
      if p == |c1.slots| {
        ReceiveApart(c1.(slots := c1.slots[v := s]), v, chunk[1], part);
      } else {
        ReceiveApart(c1, p, chunk[1], part);
      }
    }
  }

  lemma LongerUnbroken(ops: seq<Op>, op: Op, c: Chunker)
    requires Unbroken(ops, c) && !op.DoReset? && AllBelow(c, |ops|)
    ensures Unbroken(ops + [op], c)
  {
    forall p | 0 <= p < |c.slots| && c.slots[p].active ensures NoReset(ops + [op], c.slots[p].openPos, |ops| + 1) {
      assert NoReset(ops, c.slots[p].openPos, |ops|);
    }
    forall d, i | 0 <= d < |c.delivered| && i in c.delivered[d].parts
      ensures NoReset(ops + [op], c.delivered[d].openPos, c.delivered[d].parts[i].pos + 1)
    {
      assert NoReset(ops, c.delivered[d].openPos, c.delivered[d].parts[i].pos + 1);
    }
  }

  lemma ExpireUnbroken(ops: seq<Op>, c: Chunker, timeout: nat, now: nat)
    requires Unbroken(ops, c)
    ensures Unbroken(ops, c.(slots := ExpireAll(c.slots, timeout, now)))
  {
    hide Stale, NoReset;
  }

  lemma ReceiveUnbroken(ops: seq<Op>, c: Chunker, p: nat, i: nat, part: Part)
    requires Unbroken(ops, c) && p < |c.slots| && c.slots[p].active && part.pos < |ops| && Below(c.slots[p].parts, |ops|)
    ensures Unbroken(ops, Receive(c, p, i, part))
  {
    hide AllReceived;
    var s := c.slots[p];
    assert NoReset(ops, s.openPos, |ops|);
    var c' := Receive(c, p, i, part);
    forall d, k | 0 <= d < |c'.delivered| && k in c'.delivered[d].parts
      ensures NoReset(ops, c'.delivered[d].openPos, c'.delivered[d].parts[k].pos + 1)
    {
      if d < |c.delivered| {
        assert c'.delivered[d] == c.delivered[d];
      }
    }
  }

  lemma FeedUnbroken(ops: seq<Op>, c: Chunker, timeout: nat, chunk: seq<Octet>, now: nat)
    requires |c.slots| > 0 && ops != [] && ops[|ops| - 1].DoFeed? && Unbroken(ops, c) && AllBelow(c, |ops|)
    ensures Unbroken(ops, Feed(c, timeout, chunk, now, |ops| - 1).0)
  {
    if WellFormed(chunk) {
      var n := |ops| - 1;
      var c1 := c.(slots := ExpireAll(c.slots, timeout, now));
      ExpireUnbroken(ops, c, timeout, now);
      var v := Victim(c1.slots, now);
      var s := Slot(chunk[0], chunk[2], Uint32.Wrap(now), true, map[], n);
      var part := Part(chunk[HEADER..], n);
      var p := FindSlot(c1.slots, chunk[0]);
      var opening := c1.(slots := c1.slots[v := s]);
      assert NoReset(ops, n, |ops|);
      assert Unbroken(ops, opening) by {
        hide NoReset, ExpireAll;
      }
      if p == |c1.slots| {
        hide Unbroken, ExpireAll, FindSlot, Victim, Receive, Uint32.Wrap;
        ReceiveUnbroken(ops, opening, v, chunk[1], part);
      } else {
        assert Below(c1.slots[p].parts, |ops|);
        hide Unbroken, ExpireAll, FindSlot, Victim, Receive, Uint32.Wrap;
        ReceiveUnbroken(ops, c1, p, chunk[1], part);
      }
    }
  }

  predicate Kept(ops: seq<Op>, c: Chunker) {
    Apart(c) && AllBelow(c, |ops|) && Unbroken(ops, c)
  }

  lemma ResetUnbroken(ops: seq<Op>, op: Op, c: Chunker)
    requires Unbroken(ops, c) && AllBelow(c, |ops|)
    ensures Unbroken(ops + [op], c.(slots := ResetAll(c.slots)))
  {
    forall d, i | 0 <= d < |c.delivered| && i in c.delivered[d].parts
      ensures NoReset(ops + [op], c.delivered[d].openPos, c.delivered[d].parts[i].pos + 1)
    {
      assert Below(c.delivered[d].parts, |ops|);
      assert NoReset(ops, c.delivered[d].openPos, c.delivered[d].parts[i].pos + 1);
    }
  }

  lemma BelowMore(c: Chunker, n: nat)
    requires AllBelow(c, n)
    ensures AllBelow(c, n + 1)
  {}

  lemma StepKept(ops: seq<Op>, op: Op, c: Chunker, timeout: nat)
    requires |c.slots| > 0 && Kept(ops, c)
    ensures Kept(ops + [op], Step(c, timeout, op, |ops|))
  {
    hide Apart, AllBelow, Unbroken, Feed, ExpireAll, ResetAll;
    BelowMore(c, |ops|);
    match op
    case DoFeed(at, chunk) =>
      FeedApart(c, timeout, chunk, at, |ops|);
      LongerUnbroken(ops, op, c);
      FeedUnbroken(ops + [op], c, timeout, chunk, at);
    case DoTick(at) =>
      ExpireApart(c, timeout, at, |ops| + 1);
      LongerUnbroken(ops, op, c);
      ExpireUnbroken(ops + [op], c, timeout, at);
    case DoReset =>
      ResetApart(c, |ops| + 1);
      ResetUnbroken(ops, op, c);
  }

  lemma {:induction false} RunKept(slots: nat, timeout: nat, ops: seq<Op>)
    requires slots > 0
    ensures Kept(ops, Run(slots, timeout, ops))
    decreases |ops|
  {
    if ops == [] {
      NothingUsed();
    } else {
      hide Kept, Step;
      var n := |ops| - 1;
      RunKept(slots, timeout, ops[..n]);
      StepKept(ops[..n], ops[n], Run(slots, timeout, ops[..n]), timeout);
      assert ops[..n] + [ops[n]] == ops;
    }
  }

  /** Between the chunk that opened a delivered message's slot and each of its chunks there was no reset. */
  lemma NoResetInside(slots: nat, timeout: nat, ops: seq<Op>, d: nat, i: nat, k: nat)
    requires slots > 0 && d < |Run(slots, timeout, ops).delivered| && i in Run(slots, timeout, ops).delivered[d].parts
    requires Run(slots, timeout, ops).delivered[d].openPos <= k <= Run(slots, timeout, ops).delivered[d].parts[i].pos
    ensures k < |ops| && !ops[k].DoReset?
  {
    RunKept(slots, timeout, ops);
    hide Run, Apart;
    var c := Run(slots, timeout, ops);
    assert Below(c.delivered[d].parts, |ops|);
    assert NoReset(ops, c.delivered[d].openPos, c.delivered[d].parts[i].pos + 1);
  }

  /** No fed chunk serves two deliveries. */
  lemma ServesOnce(slots: nat, timeout: nat, ops: seq<Op>, d: nat, e: nat, i: nat, j: nat)
    requires slots > 0 && d < e < |Run(slots, timeout, ops).delivered|
    requires i in Run(slots, timeout, ops).delivered[d].parts && j in Run(slots, timeout, ops).delivered[e].parts
    ensures Run(slots, timeout, ops).delivered[d].parts[i].pos != Run(slots, timeout, ops).delivered[e].parts[j].pos
  {
    RunKept(slots, timeout, ops);
    hide Run, Unbroken, AllBelow;
    var c := Run(slots, timeout, ops);
    assert c.delivered[d].parts[i].pos in Uses(c.delivered[d].parts);
    assert c.delivered[e].parts[j].pos in Uses(c.delivered[e].parts);
  }
}
