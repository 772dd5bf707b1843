/**
 * The chunk format byte for byte, and exactly which chunks the firmware's reassembler takes and
 * what it leaves alone: firmware/components/ble_services/BleChunker.cpp:13-144.
 */
module ChunkRules {
  import opened Bytes
  import opened Uint32
  import opened Chunking

  // ---------------------------------------------------------------- splitting

  /** The chunks of a payload: at most 64, all but the last full, numbered and counted in their headers. */
  lemma ChunkOctets(payload: seq<Octet>, msgId: Octet, max: nat, i: nat)
    requires i < |Split(payload, msgId, max)|
    ensures var n, c := |Split(payload, msgId, max)|, Split(payload, msgId, max)[i];
      && max > 0 && n <= 64 && |c| >= 3 && c[0] == msgId && c[1] == i && c[2] == n
      && i * max < |payload| && |c| - 3 == (if i + 1 < n then max else |payload| - i * max)
      && |c| - 3 <= max && i * max + |c| - 3 <= |payload| && c[3..] == payload[i * max..i * max + |c| - 3]
  {
    SliceBounds(|payload|, max, i);
    Monotone(i, i, max);
    hide NumChunks;
    var c := Split(payload, msgId, max)[i];
    assert c[3..] == Slice(payload, max, i);
  }

  /** Nothing is split exactly when the payload is empty, the size is 0, or 64 chunks of it do not hold the payload. */
  lemma SplitsUnless(payload: seq<Octet>, msgId: Octet, max: nat)
    ensures Split(payload, msgId, max) == [] <==> payload == [] || |payload| > 64 * max
  {
    if max > 0 {
      NoChunks(|payload|, max);
      FitsIn(|payload|, max);
    }
  }

  lemma FitsIn(len: nat, max: nat)
    requires max > 0
    ensures NumChunks(len, max) <= 64 <==> len <= 64 * max
  {
    var n := NumChunks(len, max);
    if n > 0 {
      NoChunks(len, max);
      SliceBounds(len, max, n - 1);
      hide NumChunks;
      if n <= 64 {
        Monotone(n, 64, max);
      } else {
        Monotone(64, n - 1, max);
      }
    } else {
      NoChunks(len, max);
    }
  }

  // ---------------------------------------------------------------- what is taken

  /** The slot is in use and its message less than the timeout old, in uint32 arithmetic. */
  predicate Live(s: Slot, timeout: nat, now: nat) {
    s.active && (now - s.start) % 0x1_0000_0000 < timeout
  }

  lemma LiveIs(s: Slot, timeout: nat, now: nat)
    ensures Live(s, timeout, now) <==> Expired(s, timeout, now).active
    ensures Live(s, timeout, now) ==> Expired(s, timeout, now) == s
    ensures s.active && !Live(s, timeout, now) ==> Expired(s, timeout, now) == s.(active := false, parts := map[])
    ensures !s.active ==> Expired(s, timeout, now) == s
  {
    assert Sub32(Wrap(now), s.start) == (now - s.start) % 0x1_0000_0000;
  }

  /** A chunk that makes sense: its header, at most 252 bytes of payload, a total of 1 to 64 and an index below it. */
  predicate Sensible(chunk: seq<Octet>) {
    3 <= |chunk| <= 255 && 1 <= chunk[2] <= 64 && chunk[1] < chunk[2]
  }

  /** A chunk is taken exactly when it makes sense and its message, if in progress, has the same total. */
  lemma TakesExactly(c: Chunker, timeout: nat, chunk: seq<Octet>, now: nat, pos: nat)
    requires |c.slots| > 0 && DistinctIds(c.slots)
    ensures Feed(c, timeout, chunk, now, pos).1 <==> (Sensible(chunk)
      && forall p :: 0 <= p < |c.slots| && Live(c.slots[p], timeout, now) && c.slots[p].msgId == chunk[0] ==> c.slots[p].total == chunk[2])
  {
    hide Live, Expired, Receive;
    forall p | 0 <= p < |c.slots| ensures Live(c.slots[p], timeout, now) <==> Expired(c.slots[p], timeout, now).active {
      LiveIs(c.slots[p], timeout, now);
    }
    forall p | 0 <= p < |c.slots| && Live(c.slots[p], timeout, now) ensures Expired(c.slots[p], timeout, now) == c.slots[p] {
      LiveIs(c.slots[p], timeout, now);
    }
    forall p | 0 <= p < |c.slots| && Expired(c.slots[p], timeout, now).active ensures c.slots[p].active {
      LiveActive(c.slots[p], timeout, now);
    }
  }

  lemma LiveActive(s: Slot, timeout: nat, now: nat)
    ensures Expired(s, timeout, now).active ==> s.active
  {}

  /** A refused chunk delivers nothing and leaves every live message as it was. */
  lemma RefusedKeeps(c: Chunker, timeout: nat, chunk: seq<Octet>, now: nat, pos: nat, p: nat)
    requires |c.slots| > 0 && !Feed(c, timeout, chunk, now, pos).1 && p < |c.slots|
    ensures var c' := Feed(c, timeout, chunk, now, pos).0;
      c'.delivered == c.delivered && (Live(c.slots[p], timeout, now) ==> c'.slots[p] == c.slots[p])
  {
    LiveIs(c.slots[p], timeout, now);
    hide Live, Expired, Receive;
  }

  /** A chunk that its live message already has delivers nothing and leaves every live message as it was. */
  lemma DuplicateKeeps(c: Chunker, timeout: nat, chunk: seq<Octet>, now: nat, pos: nat, q: nat, p: nat)
    requires q < |c.slots| && DistinctIds(c.slots) && |chunk| >= 3 && p < |c.slots|
    requires Live(c.slots[q], timeout, now) && c.slots[q].msgId == chunk[0] && (chunk[1] as nat) in c.slots[q].parts
    ensures var c' := Feed(c, timeout, chunk, now, pos).0;
      c'.delivered == c.delivered && (Live(c.slots[p], timeout, now) ==> c'.slots[p] == c.slots[p])
  {
    LiveIs(c.slots[p], timeout, now);
    LiveIs(c.slots[q], timeout, now);
    forall k | 0 <= k < |c.slots| ensures Expired(c.slots[k], timeout, now).active ==> c.slots[k].active {
      LiveActive(c.slots[k], timeout, now);
    }
    hide Live;
    var slots := ExpireAll(c.slots, timeout, now);
    FindSlotIs(slots, chunk[0], q);
  }

  /** A chunk that is taken leaves every live message of another id alone, unless all slots are in use. */
  lemma OthersKept(c: Chunker, timeout: nat, chunk: seq<Octet>, now: nat, pos: nat, p: nat)
    requires |c.slots| > 0 && |chunk| >= 3 && p < |c.slots| && Live(c.slots[p], timeout, now) && c.slots[p].msgId != chunk[0]
    requires (forall k :: 0 <= k < |c.slots| && Live(c.slots[k], timeout, now) ==> c.slots[k].msgId != chunk[0]) ==>
      exists k :: 0 <= k < |c.slots| && !Live(c.slots[k], timeout, now)
    ensures Feed(c, timeout, chunk, now, pos).0.slots[p] == c.slots[p]
  {
    forall k | 0 <= k < |c.slots|
      ensures Live(c.slots[k], timeout, now) <==> Expired(c.slots[k], timeout, now).active
      ensures Live(c.slots[k], timeout, now) ==> Expired(c.slots[k], timeout, now) == c.slots[k]
    {
      LiveIs(c.slots[k], timeout, now);
    }
    hide Live, Expired;
  }

  /** A tick frees exactly the slots of messages the timeout old or older, and a reset all of them. */
  lemma TickAndReset(c: Chunker, timeout: nat, at: nat, pos: nat, p: nat)
    requires p < |c.slots|
    ensures var c' := Step(c, timeout, DoTick(at), pos);
      && c'.delivered == c.delivered && (Live(c.slots[p], timeout, at) ==> c'.slots[p] == c.slots[p])
      && (!Live(c.slots[p], timeout, at) ==> !c'.slots[p].active)
    ensures var c' := Step(c, timeout, DoReset, pos); c'.delivered == c.delivered && !c'.slots[p].active
  {
    LiveIs(c.slots[p], timeout, at);
    hide Live, Expired;
  }
}
