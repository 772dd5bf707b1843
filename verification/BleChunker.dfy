/**
 * The reassembler object: firmware/components/ble_services/include/pakt/BleChunker.h:60-90 and
 * BleChunker.cpp:42-167. The received chunks are tracked by a 64-bit mask, and the slots are
 * records updated in place; `completed` records the calls of the callback. The firmware builds
 * it with one slot (kSlots); the class works for any number.
 */
module BleChunker {
  import opened Bytes
  import opened Uint32
  import opened ChunkMask
  import C = Chunking

  /** `payloads[i]` holds the first payload_lens[i] bytes of the C++ row. */
  datatype SlotRecord = SlotRecord(msgId: Octet, total: nat, mask: bv64, start: nat, active: bool, payloads: seq<seq<Octet>>)

  /** The mask and the rows hold exactly the received chunks. */
  predicate SameParts(mask: bv64, payloads: seq<seq<Octet>>, parts: map<nat, C.Part>) {
    |payloads| == C.MAX_CHUNKS
    && (forall i :: i in parts ==> i < C.MAX_CHUNKS)
    && (forall i :: 0 <= i < C.MAX_CHUNKS ==> (Has(mask, i) <==> i in parts))
    && (forall i :: 0 <= i < C.MAX_CHUNKS && i in parts ==> payloads[i] == parts[i].payload)
  }

  predicate Same(r: SlotRecord, s: C.Slot) {
    r.msgId == s.msgId && r.total == s.total && r.start == s.start && r.active == s.active
    && s.total <= C.MAX_CHUNKS && SameParts(r.mask, r.payloads, s.parts)
  }

  predicate Matches(rs: seq<SlotRecord>, ss: seq<C.Slot>) {
    |rs| == |ss| && forall i :: 0 <= i < |rs| ==> Same(rs[i], ss[i])
  }

  lemma NoParts(payloads: seq<seq<Octet>>)
    requires |payloads| == C.MAX_CHUNKS
    ensures SameParts(0, payloads, map[])
  {
    hide Has;
    forall i: nat | i < C.MAX_CHUNKS ensures !Has(0, i) {
      NothingReceived(i);
    }
  }

  lemma OnePartMore(mask: bv64, payloads: seq<seq<Octet>>, parts: map<nat, C.Part>, i: nat, part: C.Part)
    requires SameParts(mask, payloads, parts) && i < C.MAX_CHUNKS
    ensures SameParts(Add(mask, i), payloads[i := part.payload], parts[i := part])
  {
    hide Has, Add;
    forall j: nat | j < C.MAX_CHUNKS ensures Has(Add(mask, i), j) <==> Has(mask, j) || i == j {
      AddHas(mask, i, j);
    }
  }

  lemma AllParts(mask: bv64, payloads: seq<seq<Octet>>, parts: map<nat, C.Part>, total: nat)
    requires SameParts(mask, payloads, parts) && total <= C.MAX_CHUNKS
    ensures Complete(mask, total) <==> C.AllReceived(parts, total)
  {
    hide Has, Complete;
    CompleteMeans(mask, total);
  }

  /** What the callbacks were given. */
  function Payloads(ds: seq<C.Delivery>): seq<seq<Octet>>
    requires forall i :: 0 <= i < |ds| ==> C.AllReceived(ds[i].parts, ds[i].total)
  {
    seq(|ds|, i requires 0 <= i < |ds| => C.Assembled(ds[i].parts, ds[i].total))
  }

  class BleChunker {
    const slots: array<SlotRecord>
    const timeoutMs: nat
    var completed: seq<seq<Octet>>
    ghost var ops: seq<C.Op>
    ghost var spec: C.Chunker

    ghost predicate Consistent(ss: seq<C.Slot>)
      reads this, slots
    {
      slots.Length > 0 && Matches(slots[..], ss)
      && (forall i :: 0 <= i < |spec.delivered| ==> C.AllReceived(spec.delivered[i].parts, spec.delivered[i].total))
      && completed == Payloads(spec.delivered)
    }

    /** The object is in the state the input so far leads to. */
    ghost predicate Valid()
      reads this, slots
    {
      Consistent(spec.slots) && spec == C.Run(slots.Length, timeoutMs, ops)
    }

    constructor (slotCount: nat, timeoutMs: nat)
      requires slotCount > 0
      ensures Valid() && slots.Length == slotCount && this.timeoutMs == timeoutMs && ops == [] && completed == [] && fresh(slots)
    {
      var blank := seq(C.MAX_CHUNKS, _ => []);
      NoParts(blank);
      var idle := SlotRecord(0, 0, 0, 0, false, blank);
      slots := new SlotRecord[slotCount](_ => idle);
      this.timeoutMs := timeoutMs;
      completed, ops := [], [];
      spec := C.Run(slotCount, timeoutMs, []);
    }

    /** The loop of `tick`, which `feed` also runs. */
    method Expire(now: nat, ghost ss: seq<C.Slot>)
      requires Matches(slots[..], ss) && now < U32
      modifies slots
      ensures Matches(slots[..], C.ExpireAll(ss, timeoutMs, now))
    {
      hide Sub32, SameParts;
      for i := 0 to slots.Length
        invariant forall k :: i <= k < slots.Length ==> Same(slots[k], ss[k])
        invariant forall k :: 0 <= k < i ==> Same(slots[k], C.Expired(ss[k], timeoutMs, now))
      {
        var s := slots[i];
        if s.active && Sub32(now, s.start) >= timeoutMs {
          Emptied(s, ss[i]);
          slots[i] := s.(active := false, mask := 0);
        }
      }
    }

    method Tick(now: nat)
      requires Valid() && now < U32
      modifies this, slots
      ensures Valid() && ops == old(ops) + [C.DoTick(now)] && completed == old(completed)
    {
      hide C.ExpireAll, Matches;
      Expire(now, spec.slots);
      RunSnoc(slots.Length, timeoutMs, ops, C.DoTick(now));
      ops := ops + [C.DoTick(now)];
      spec := spec.(slots := C.ExpireAll(spec.slots, timeoutMs, now));
    }

    method Reset()
      requires Valid()
      modifies this, slots
      ensures Valid() && ops == old(ops) + [C.DoReset] && completed == old(completed)
    {
      hide SameParts, C.Run;
      for i := 0 to slots.Length
        modifies slots
        invariant slots.Length == |spec.slots|
        invariant forall k :: i <= k < slots.Length ==> Same(slots[k], spec.slots[k])
        invariant forall k :: 0 <= k < i ==> Same(slots[k], spec.slots[k].(active := false, parts := map[]))
      {
        Emptied(slots[i], spec.slots[i]);
        slots[i] := slots[i].(active := false, mask := 0);
      }
      RunSnoc(slots.Length, timeoutMs, ops, C.DoReset);
      ops := ops + [C.DoReset];
      spec := spec.(slots := C.ResetAll(spec.slots));
    }

    method FindSlot(msgId: Octet, ghost ss: seq<C.Slot>) returns (p: nat)
      requires Matches(slots[..], ss)
      ensures p == C.FindSlot(ss, msgId)
    {
      hide SameParts, C.FindSlot;
      for i := 0 to slots.Length
        invariant forall k :: 0 <= k < i ==> !(ss[k].active && ss[k].msgId == msgId)
      {
        assert Same(slots[..][i], ss[i]);
        if slots[i].active && slots[i].msgId == msgId {
          return i;
        }
      }
      return slots.Length;
    }

    method AllocSlot(msgId: Octet, total: nat, now: nat, ghost ss: seq<C.Slot>, ghost pos: nat) returns (p: nat)
      requires slots.Length > 0 && Matches(slots[..], ss) && now < U32 && total <= C.MAX_CHUNKS
      modifies slots
      ensures p == C.Victim(ss, now) && Matches(slots[..], ss[p := C.Slot(msgId, total, now, true, map[], pos)])
    {
      hide SameParts, C.FirstInactive, C.Oldest, Sub32;
      var blank := seq(C.MAX_CHUNKS, _ => []);
      NoParts(blank);
      var opening := SlotRecord(msgId, total, 0, now, true, blank);
      for i := 0 to slots.Length
        invariant slots[..] == old(slots[..])
        invariant forall k :: 0 <= k < i ==> ss[k].active
      {
        assert Same(slots[..][i], ss[i]);
        if !slots[i].active {
          assert C.FirstInactive(ss, 0) == i;
          slots[i] := opening;
          return i;
        }
      }
      assert C.FirstInactive(ss, 0) == |ss|;
      var oldest := 0;
      OldestStep(ss, now, 1);
      for i := 1 to slots.Length
        invariant slots[..] == old(slots[..])
        invariant oldest == C.Oldest(ss, now, i)
      {
        assert Same(slots[..][i], ss[i]) && Same(slots[..][oldest], ss[oldest]);
        OldestStep(ss, now, i + 1);
        if Sub32(now, slots[i].start) > Sub32(now, slots[oldest].start) {
          oldest := i;
        }
      }
      slots[oldest] := opening;
      return oldest;
    }

    /** Assemble and hand over the message when the mask is full; the slot is free before the callback. */
    method TryComplete(p: nat) returns (done: bool)
      requires p < slots.Length && slots[p].total <= C.MAX_CHUNKS && |slots[p].payloads| == C.MAX_CHUNKS
      modifies this`completed, slots
      ensures done == Complete(old(slots[p]).mask, old(slots[p]).total)
      ensures slots[..] == if done then old(slots[..])[p := old(slots[p]).(active := false, mask := 0)] else old(slots[..])
      ensures completed == if done then old(completed) + [Flat(old(slots[p]).payloads, old(slots[p]).total)] else old(completed)
    {
      var s := slots[p];
      if !Complete(s.mask, s.total) {
        return false;
      }
      var assembled := [];
      for i := 0 to s.total
        invariant assembled == Flat(s.payloads, i)
      {
        assembled := assembled + s.payloads[i];
      }
      slots[p] := s.(active := false, mask := 0);
      completed := completed + [assembled];
      return true;
    }

    /** Store chunk i in slot p unless it is already there. */
    method Store(p: nat, i: nat, payload: seq<Octet>, ghost ss: seq<C.Slot>, ghost pos: nat)
      requires p < slots.Length && Consistent(ss) && i < ss[p].total
      modifies this`completed, slots, this`spec
      ensures spec == C.Receive(old(spec).(slots := ss), p, i, C.Part(payload, pos))
      ensures Consistent(spec.slots)
    {
      hide SameParts, Complete, Add, Has, C.Assembled;
      assert Same(slots[..][p], ss[p]);
      ghost var part := C.Part(payload, pos);
      HasPart(slots[p], ss[p], i);
      spec := C.Receive(spec.(slots := ss), p, i, part);
      if Has(slots[p].mask, i) {
        return;
      }
      var s := slots[p];
      ghost var parts := ss[p].parts[i := part];
      OnePartMore(s.mask, s.payloads, ss[p].parts, i, part);
      RowCount(s, ss[p]);
      AllParts(Add(s.mask, i), s.payloads[i := payload], parts, s.total);
      slots[p] := s.(payloads := s.payloads[i := payload], mask := Add(s.mask, i));
      ghost var stored := slots[p];
      var done := TryComplete(p);
      if done {
        FlatIsAssembled(stored.mask, stored.payloads, parts, s.total);
        Emptied(stored, ss[p].(parts := parts));
      }
    }

    method Feed(chunk: seq<Octet>, now: nat) returns (accepted: bool)
      requires Valid() && now < U32
      modifies this, slots
      ensures Valid() && ops == old(ops) + [C.DoFeed(now, chunk)]
      ensures (spec, accepted) == C.Feed(old(spec), timeoutMs, chunk, now, |old(ops)|)
    {
      hide C.Receive, C.ExpireAll, C.Victim, C.FindSlot, Matches, C.Run, C.AllReceived;
      ghost var pos := |ops|;
      RunSnoc(slots.Length, timeoutMs, ops, C.DoFeed(now, chunk));
      ops := ops + [C.DoFeed(now, chunk)];
      if |chunk| < C.HEADER {
        return false;
      }
      var msgId, chunkIdx, chunkTotal, payload := chunk[0], chunk[1], chunk[2], chunk[C.HEADER..];
      if chunkTotal == 0 || chunkIdx >= chunkTotal || chunkTotal > C.MAX_CHUNKS || |payload| > C.MAX_CHUNK_PAYLOAD {
        return false;
      }
      ghost var ss := C.ExpireAll(spec.slots, timeoutMs, now);
      Expire(now, spec.slots);
      MatchLengths(slots[..], ss);
      var p := FindSlot(msgId, ss);
      if p == slots.Length {
        p := AllocSlot(msgId, chunkTotal, now, ss, pos);
        ss := ss[p := C.Slot(msgId, chunkTotal, now, true, map[], pos)];
        Store(p, chunkIdx, payload, ss, pos);
      } else {
        MatchAt(slots[..], ss, p);
        if slots[p].total != chunkTotal {
          spec := spec.(slots := ss);
          return false;
        }
        Store(p, chunkIdx, payload, ss, pos);
      }
      return true;
    }
  }

  function Flat(payloads: seq<seq<Octet>>, n: nat): seq<Octet>
    requires n <= |payloads|
  {
    if n == 0 then [] else Flat(payloads, n - 1) + payloads[n - 1]
  }

  lemma {:induction false} FlatIsAssembled(mask: bv64, payloads: seq<seq<Octet>>, parts: map<nat, C.Part>, n: nat)
    requires SameParts(mask, payloads, parts) && n <= C.MAX_CHUNKS && C.AllReceived(parts, n)
    ensures Flat(payloads, n) == C.Assembled(parts, n)
    decreases n
  {
    hide Has;
    if n > 0 {
      FlatIsAssembled(mask, payloads, parts, n - 1);
    }
  }

  lemma Emptied(r: SlotRecord, s: C.Slot)
    requires Same(r, s)
    ensures Same(r.(active := false, mask := 0), s.(active := false, parts := map[]))
  {
    NoParts(r.payloads);
  }

  lemma HasPart(r: SlotRecord, s: C.Slot, i: nat)
    requires Same(r, s) && i < s.total
    ensures Has(r.mask, i) <==> i in s.parts
  {
    hide Has;
  }

  lemma RowCount(r: SlotRecord, s: C.Slot)
    requires Same(r, s)
    ensures |r.payloads| == C.MAX_CHUNKS
  {}

  lemma MatchAt(rs: seq<SlotRecord>, ss: seq<C.Slot>, i: nat)
    requires Matches(rs, ss) && i < |rs|
    ensures |rs| == |ss| && rs[i].total == ss[i].total && ss[i].total <= C.MAX_CHUNKS
  {}

  lemma MatchLengths(rs: seq<SlotRecord>, ss: seq<C.Slot>)
    requires Matches(rs, ss)
    ensures |rs| == |ss|
  {}

  lemma OldestStep(ss: seq<C.Slot>, now: nat, n: nat)
    requires 0 < n <= |ss| && now < U32
    ensures n == 1 ==> C.Oldest(ss, now, n) == 0
    ensures n > 1 ==>
      var o := C.Oldest(ss, now, n - 1);
      C.Oldest(ss, now, n) == if Sub32(now, ss[n - 1].start) > Sub32(now, ss[o].start) then n - 1 else o
  {
    hide Sub32;
  }

  lemma RunSnoc(slots: nat, timeout: nat, ops: seq<C.Op>, op: C.Op)
    requires slots > 0
    ensures C.Run(slots, timeout, ops + [op]) == C.Step(C.Run(slots, timeout, ops), timeout, op, |ops|)
  {
    assert (ops + [op])[..|ops|] == ops;
  }
}
