/**
 * "Mirrors BleChunker C++ semantics exactly" (app/desktop_test/chunker.py:3): the two
 * reassemblers give the same answers and deliver the same payloads on every input on which four
 * conditions hold, and on a running clock and chunks both accept, on no other.
 */
module ChunkersAgree {
  import opened Bytes
  import opened Sets
  import opened Uint32
  import C = Chunking
  import D = DesktopChunker

  predicate PartsAgree(parts: map<nat, C.Part>, chunks: map<nat, seq<Octet>>) {
    parts.Keys == chunks.Keys && forall i :: i in parts ==> parts[i].payload == chunks[i]
  }

  predicate SlotAgrees(s: C.Slot, t: D.Slot) {
    s.total == t.total && s.start == Wrap(t.start) && PartsAgree(s.parts, t.chunks)
  }

  /** The same messages are in progress, with the same chunks. */
  ghost predicate SlotsAgree(slots: seq<C.Slot>, table: map<Octet, D.Slot>) {
    C.DistinctIds(slots)
    && (forall p :: 0 <= p < |slots| && slots[p].active ==> slots[p].msgId in table && SlotAgrees(slots[p], table[slots[p].msgId]))
    && (forall id :: id in table ==> C.FindSlot(slots, id) < |slots|)
    && (forall id :: id in table ==> D.SlotOk(table[id]))
  }

  predicate DeliveredAlike(delivered: seq<C.Delivery>, completed: seq<seq<Octet>>) {
    |delivered| == |completed|
    && forall k :: 0 <= k < |delivered| ==>
         C.AllReceived(delivered[k].parts, delivered[k].total)
         && C.Assembled(delivered[k].parts, delivered[k].total) == completed[k]
  }

  ghost predicate Agree(c: C.Chunker, d: D.State) {
    SlotsAgree(c.slots, d.slots) && DeliveredAlike(c.delivered, d.completed)
  }

  /** The clock has not run back, nor 2^32 ms on, since the message began, and its age is not exactly the timeout. */
  predicate ClockOk(t: D.Slot, timeout: nat, now: nat) {
    t.start <= now < t.start + U32 && now - t.start != timeout
  }

  /** The message is in progress, or a firmware slot is free for it. */
  predicate HasRoom(slots: seq<C.Slot>, id: Octet) {
    C.FindSlot(slots, id) < |slots| || C.FirstInactive(slots, 0) < |slots|
  }

  ghost predicate Compatible(c: C.Chunker, d: D.State, timeout: nat, chunk: seq<Octet>, now: nat) {
    |chunk| - C.HEADER <= C.MAX_CHUNK_PAYLOAD
    && (forall id :: id in d.slots ==> ClockOk(d.slots[id], timeout, now))
    && (C.WellFormed(chunk) ==> HasRoom(C.ExpireAll(c.slots, timeout, now), chunk[0]))
  }

  // ---------------------------------------------------------------- one step

  lemma {:induction false} JoinedIsAssembled(parts: map<nat, C.Part>, chunks: map<nat, seq<Octet>>, n: nat)
    requires PartsAgree(parts, chunks) && Covers(chunks.Keys, n)
    ensures C.AllReceived(parts, n) && C.Assembled(parts, n) == D.Joined(chunks, n)
    decreases n
  {
    if n > 0 {
      JoinedIsAssembled(parts, chunks, n - 1);
    }
  }

  lemma FindActive(slots: seq<C.Slot>, p: nat)
    requires C.DistinctIds(slots) && p < |slots| && slots[p].active
    ensures C.FindSlot(slots, slots[p].msgId) == p
  {
    hide C.FindSlot;
  }

  lemma SameAge(s: C.Slot, t: D.Slot, timeout: nat, now: nat)
    requires s.active && s.start == Wrap(t.start) && ClockOk(t, timeout, now)
    ensures C.Stale(s, timeout, now) <==> now - t.start > timeout
  {
    WrappedDifference(now, t.start);
    hide Wrap, Sub32;
  }

  lemma ExpireAgrees(slots: seq<C.Slot>, table: map<Octet, D.Slot>, timeout: nat, now: nat)
    requires SlotsAgree(slots, table) && forall id :: id in table ==> ClockOk(table[id], timeout, now)
    ensures SlotsAgree(C.ExpireAll(slots, timeout, now), D.Live(table, timeout, now))
  {
    hide C.FindSlot, Wrap, C.Stale, ClockOk, PartsAgree, D.SlotOk;
    var slots', table' := C.ExpireAll(slots, timeout, now), D.Live(table, timeout, now);
    forall p | 0 <= p < |slots| && slots[p].active
      ensures slots'[p].active <==> slots[p].msgId in table'
      ensures slots'[p].active ==> slots'[p] == slots[p] && table'[slots[p].msgId] == table[slots[p].msgId]
    {
      SameAge(slots[p], table[slots[p].msgId], timeout, now);
    }
    forall id | id in table' ensures C.FindSlot(slots', id) < |slots'| {
      var p := C.FindSlot(slots, id);
      FindActive(slots', p);
    }
  }

  /** A slot opened on both sides. */
  lemma OpenAgrees(slots: seq<C.Slot>, table: map<Octet, D.Slot>, v: nat, id: Octet, total: nat, now: nat, pos: nat)
    requires SlotsAgree(slots, table) && id !in table && v < |slots| && !slots[v].active && 0 < total <= C.MAX_CHUNKS
    ensures SlotsAgree(slots[v := C.Slot(id, total, Wrap(now), true, map[], pos)], table[id := D.Slot(total, map[], now)])
  {
    D.Fresh(total);
    hide C.FindSlot, Wrap, D.SlotOk;
    var slots' := slots[v := C.Slot(id, total, Wrap(now), true, map[], pos)];
    var table' := table[id := D.Slot(total, map[], now)];
    forall k | k in table' ensures C.FindSlot(slots', k) < |slots'| {
      if k == id {
        FindActive(slots', v);
      } else {
        FindActive(slots', C.FindSlot(slots, k));
      }
    }
  }

  /** Slot p gets new parts on both sides. */
  lemma UpdateAgrees(slots: seq<C.Slot>, table: map<Octet, D.Slot>, p: nat, parts: map<nat, C.Part>, chunks: map<nat, seq<Octet>>)
    requires SlotsAgree(slots, table) && p < |slots| && slots[p].active && PartsAgree(parts, chunks)
    requires D.SlotOk(table[slots[p].msgId].(chunks := chunks))
    ensures var id := slots[p].msgId;
      SlotsAgree(slots[p := slots[p].(parts := parts)], table[id := table[id].(chunks := chunks)])
  {
    hide C.FindSlot, Wrap, D.SlotOk, PartsAgree;
    var slots' := slots[p := slots[p].(parts := parts)];
    forall k | k in table ensures C.FindSlot(slots', k) < |slots'| {
      FindActive(slots', C.FindSlot(slots, k));
    }
  }

  /** Slot p is freed on both sides. */
  lemma FreeAgrees(slots: seq<C.Slot>, table: map<Octet, D.Slot>, p: nat)
    requires SlotsAgree(slots, table) && p < |slots| && slots[p].active
    ensures SlotsAgree(slots[p := slots[p].(active := false, parts := map[])], table - {slots[p].msgId})
  {
    hide C.FindSlot, Wrap, D.SlotOk, PartsAgree;
    var slots' := slots[p := slots[p].(active := false, parts := map[])];
    forall k | k in table && k != slots[p].msgId ensures C.FindSlot(slots', k) < |slots'| {
      FindActive(slots', C.FindSlot(slots, k));
    }
  }

  lemma MoreParts(parts: map<nat, C.Part>, chunks: map<nat, seq<Octet>>, i: nat, part: C.Part)
    requires PartsAgree(parts, chunks)
    ensures PartsAgree(parts[i := part], chunks[i := part.payload])
  {}

  lemma ReceiveAgrees(c: C.Chunker, d: D.State, p: nat, i: nat, part: C.Part)
    requires Agree(c, d) && p < |c.slots| && c.slots[p].active && i < c.slots[p].total
    ensures c.slots[p].msgId in d.slots && i < d.slots[c.slots[p].msgId].total && D.SlotOk(d.slots[c.slots[p].msgId])
    ensures Agree(C.Receive(c, p, i, part), D.Receive(d, c.slots[p].msgId, i, part.payload))
  {
    hide C.FindSlot, SlotsAgree, Wrap, C.Assembled, D.Joined;
    SlotKnown(c.slots, d.slots, p);
    var s := c.slots[p];
    var id := s.msgId;
    var t := d.slots[id];
    if i !in t.chunks {
      var parts, chunks := s.parts[i := part], t.chunks[i := part.payload];
      MoreParts(s.parts, t.chunks, i, part);
      D.CountComplete(t, i, part.payload);
      assert C.AllReceived(parts, s.total) <==> Covers(chunks.Keys, s.total);
      hide D.SlotOk, PartsAgree;
      if Covers(chunks.Keys, s.total) {
        JoinedIsAssembled(parts, chunks, s.total);
        FreeAgrees(c.slots, d.slots, p);
      } else {
        StillOk(t, chunks);
        UpdateAgrees(c.slots, d.slots, p, parts, chunks);
      }
    }
  }

  lemma StillOk(t: D.Slot, chunks: map<nat, seq<Octet>>)
    requires D.SlotOk(t) && (forall k :: k in chunks.Keys ==> k < t.total) && !Covers(chunks.Keys, t.total)
    ensures D.SlotOk(t.(chunks := chunks))
  {}

  lemma SlotKnown(slots: seq<C.Slot>, table: map<Octet, D.Slot>, p: nat)
    requires SlotsAgree(slots, table) && p < |slots| && slots[p].active
    ensures slots[p].msgId in table && SlotAgrees(slots[p], table[slots[p].msgId]) && D.SlotOk(table[slots[p].msgId])
  {}

  lemma KnownAlike(slots: seq<C.Slot>, table: map<Octet, D.Slot>, id: Octet)
    requires SlotsAgree(slots, table)
    ensures id in table <==> C.FindSlot(slots, id) < |slots|
  {
    hide C.FindSlot;
  }

  lemma AgreeIsValid(c: C.Chunker, d: D.State)
    requires Agree(c, d)
    ensures D.Valid(d)
  {
    hide D.SlotOk;
  }

  /** One chunk fed to both: the same answer, the same deliveries, and the same messages in progress after it. */
  lemma FeedAgrees(c: C.Chunker, d: D.State, timeout: nat, chunk: seq<Octet>, now: nat, pos: nat)
    requires |c.slots| > 0 && Agree(c, d) && Compatible(c, d, timeout, chunk, now)
    ensures D.Valid(d)
    ensures var cr, dr := C.Feed(c, timeout, chunk, now, pos), D.FeedChunk(d, timeout, chunk, now);
      cr.1 == dr.1 && Agree(cr.0, dr.0)
  {
    AgreeIsValid(c, d);
    if C.WellFormed(chunk) {
      var id, i, total := chunk[0], chunk[1], chunk[2];
      var part := C.Part(chunk[C.HEADER..], pos);
      ExpireAgrees(c.slots, d.slots, timeout, now);
      var slots, live := C.ExpireAll(c.slots, timeout, now), D.Live(d.slots, timeout, now);
      KnownAlike(slots, live, id);
      hide C.ExpireAll, D.Live, C.FindSlot, SlotsAgree, C.Receive, D.Receive, D.Valid, DeliveredAlike, C.Oldest, C.FirstInactive, Wrap, ClockOk;
      if id in live {
        var p := C.FindSlot(slots, id);
        SlotKnown(slots, live, p);
        if slots[p].total == total {
          ReceiveAgrees(c.(slots := slots), d.(slots := live), p, i, part);
        }
      } else {
        var v := C.Victim(slots, now);
        OpenAgrees(slots, live, v, id, total, now, pos);
        var begun := c.(slots := slots[v := C.Slot(id, total, Wrap(now), true, map[], pos)]);
        ReceiveAgrees(begun, d.(slots := live[id := D.Slot(total, map[], now)]), v, i, part);
      }
    }
  }

  // ---------------------------------------------------------------- whole runs

  /** Both start in agreement. */
  lemma StartAgrees(slots: nat, timeout: nat)
    requires slots > 0
    ensures Agree(C.Run(slots, timeout, []), D.State(map[], [])) && Started(D.State(map[], []))
  {
    hide C.FindSlot;
  }

  datatype Input = Input(chunk: seq<Octet>, now: nat)

  /** The conditions at every step of a run of both. */
  ghost predicate AllCompatible(c: C.Chunker, d: D.State, timeout: nat, inputs: seq<Input>, pos: nat)
    requires |c.slots| > 0
    decreases |inputs|
  {
    inputs == []
    || (D.Valid(d) && Compatible(c, d, timeout, inputs[0].chunk, inputs[0].now)
        && AllCompatible(C.Feed(c, timeout, inputs[0].chunk, inputs[0].now, pos).0,
                         D.FeedChunk(d, timeout, inputs[0].chunk, inputs[0].now).0, timeout, inputs[1..], pos + 1))
  }

  function FirmwareRun(c: C.Chunker, timeout: nat, inputs: seq<Input>, pos: nat): (r: (C.Chunker, seq<bool>))
    requires |c.slots| > 0
    decreases |inputs|
  {
    if inputs == [] then (c, [])
    else
      var step := C.Feed(c, timeout, inputs[0].chunk, inputs[0].now, pos);
      var rest := FirmwareRun(step.0, timeout, inputs[1..], pos + 1);
      (rest.0, [step.1] + rest.1)
  }

  function DesktopRun(d: D.State, timeout: nat, inputs: seq<Input>): (r: (D.State, seq<bool>))
    requires D.Valid(d)
    decreases |inputs|
  {
    if inputs == [] then (d, [])
    else
      var step := D.FeedChunk(d, timeout, inputs[0].chunk, inputs[0].now);
      D.FeedValid(d, timeout, inputs[0].chunk, inputs[0].now);
      var rest := DesktopRun(step.0, timeout, inputs[1..]);
      (rest.0, [step.1] + rest.1)
  }

  /** Over whole runs: the same answers and the same payloads, in the same order. */
  lemma {:induction false} StayInStep(c: C.Chunker, d: D.State, timeout: nat, inputs: seq<Input>, pos: nat)
    requires |c.slots| > 0 && Agree(c, d) && AllCompatible(c, d, timeout, inputs, pos)
    ensures D.Valid(d)
    ensures var cr, dr := FirmwareRun(c, timeout, inputs, pos), DesktopRun(d, timeout, inputs);
      cr.1 == dr.1 && Agree(cr.0, dr.0)
    decreases |inputs|
  {
    hide C.Feed, D.FeedChunk, Agree, D.Valid, Compatible;
    AgreeIsValid(c, d);
    if inputs != [] {
      FeedAgrees(c, d, timeout, inputs[0].chunk, inputs[0].now, pos);
      StayInStep(C.Feed(c, timeout, inputs[0].chunk, inputs[0].now, pos).0,
                 D.FeedChunk(d, timeout, inputs[0].chunk, inputs[0].now).0, timeout, inputs[1..], pos + 1);
    }
  }

  // ---------------------------------------------------------------- exactly when they agree

  /** Every message in progress has a chunk: true at the start and kept by every feed. */
  ghost predicate Started(d: D.State) {
    forall id :: id in d.slots ==> d.slots[id].chunks.Keys != {}
  }

  lemma FeedStarted(d: D.State, timeout: nat, chunk: seq<Octet>, now: nat)
    requires D.Valid(d) && Started(d)
    ensures Started(D.FeedChunk(d, timeout, chunk, now).0)
  {
    D.LiveIn(d.slots, timeout, now);
    hide D.Live, D.SlotOk, D.Joined;
  }

  lemma {:induction false} RunStarted(d: D.State, timeout: nat, inputs: seq<Input>)
    requires D.Valid(d) && Started(d)
    ensures Started(DesktopRun(d, timeout, inputs).0)
    decreases |inputs|
  {
    hide D.FeedChunk, D.Valid, Started;
    if inputs != [] {
      FeedStarted(d, timeout, inputs[0].chunk, inputs[0].now);
      D.FeedValid(d, timeout, inputs[0].chunk, inputs[0].now);
      RunStarted(D.FeedChunk(d, timeout, inputs[0].chunk, inputs[0].now).0, timeout, inputs[1..]);
    }
  }

  /** The clock has not run back, nor 2^32 ms on, since the message began. */
  predicate ClockRuns(t: D.Slot, now: nat) {
    t.start <= now < t.start + U32
  }

  ghost predicate NoExactAge(table: map<Octet, D.Slot>, timeout: nat, now: nat) {
    forall id :: id in table ==> now - table[id].start != timeout
  }

  /** One chunk fed to both gives the same answer, and leaves them in agreement. */
  ghost predicate SameStep(c: C.Chunker, d: D.State, timeout: nat, chunk: seq<Octet>, now: nat, pos: nat)
    requires |c.slots| > 0 && D.Valid(d)
  {
    var cr, dr := C.Feed(c, timeout, chunk, now, pos), D.FeedChunk(d, timeout, chunk, now);
    cr.1 == dr.1 && Agree(cr.0, dr.0)
  }

  /** Feeding the desktop a chunk leaves every other live message in progress. */
  lemma DesktopKeeps(d: D.State, timeout: nat, chunk: seq<Octet>, now: nat, m: Octet)
    requires D.Valid(d) && D.WellFormed(chunk) && m != chunk[0] && m in D.Live(d.slots, timeout, now)
    ensures m in D.FeedChunk(d, timeout, chunk, now).0.slots
  {
    hide D.Live, D.SlotOk, D.Joined;
  }

  lemma NotFound(slots: seq<C.Slot>, m: Octet)
    ensures C.FindSlot(slots, m) == |slots| <==> forall p :: 0 <= p < |slots| ==> !(slots[p].active && slots[p].msgId == m)
  {
    hide C.FindSlot;
  }

  /** Feeding the firmware a chunk opens no slot for another message. */
  lemma FirmwareAdds(c: C.Chunker, timeout: nat, chunk: seq<Octet>, now: nat, pos: nat, m: Octet)
    requires |c.slots| > 0 && C.WellFormed(chunk) && m != chunk[0]
    requires C.FindSlot(C.ExpireAll(c.slots, timeout, now), m) == |c.slots|
    ensures C.FindSlot(C.Feed(c, timeout, chunk, now, pos).0.slots, m) == |c.slots|
  {
    var slots := C.ExpireAll(c.slots, timeout, now);
    NotFound(slots, m);
    NotFound(C.Feed(c, timeout, chunk, now, pos).0.slots, m);
    hide C.FindSlot, C.ExpireAll, C.Victim, C.AllReceived, Wrap;
  }

  lemma Disagree(c: C.Chunker, d: D.State, m: Octet)
    requires m in d.slots && C.FindSlot(c.slots, m) == |c.slots|
    ensures !Agree(c, d)
  {
    hide C.FindSlot;
  }

  lemma DisagreeActive(c: C.Chunker, d: D.State, p: nat)
    requires p < |c.slots| && c.slots[p].active
    requires c.slots[p].msgId in d.slots ==> c.slots[p].start != Wrap(d.slots[c.slots[p].msgId].start)
    ensures !Agree(c, d)
  {
    hide C.FindSlot, Wrap;
  }

  /** A message of exactly the timeout's age: gone on one side, live on the other. */
  lemma ExactAge(c: C.Chunker, d: D.State, timeout: nat, now: nat, m: Octet)
    requires Agree(c, d) && 0 < timeout < U32 && m in d.slots && now == d.slots[m].start + timeout
    ensures C.FindSlot(C.ExpireAll(c.slots, timeout, now), m) == |c.slots|
    ensures m in D.Live(d.slots, timeout, now) && D.Live(d.slots, timeout, now)[m] == d.slots[m]
    ensures Wrap(now) != Wrap(d.slots[m].start)
  {
    WrappedDifference(now, d.slots[m].start);
    assert Sub32(Wrap(now), Wrap(now)) == 0;
    hide Wrap, Sub32, D.SlotOk, PartsAgree;
    var p := C.FindSlot(c.slots, m);
    NotFound(C.ExpireAll(c.slots, timeout, now), m);
    hide C.FindSlot;
  }

  /** Where the firmware leaves a message it has just opened: in a slot started now, unless one chunk is all of it. */
  lemma FirmwareOpens(c: C.Chunker, timeout: nat, chunk: seq<Octet>, now: nat, pos: nat) returns (v: nat)
    requires |c.slots| > 0 && C.WellFormed(chunk) && C.FindSlot(C.ExpireAll(c.slots, timeout, now), chunk[0]) == |c.slots|
    ensures C.Feed(c, timeout, chunk, now, pos).1
    ensures v < |c.slots|
    ensures var s := C.Feed(c, timeout, chunk, now, pos).0.slots[v];
      chunk[2] > 1 ==> s.active && s.msgId == chunk[0] && s.start == Wrap(now)
  {
    var slots := C.ExpireAll(c.slots, timeout, now);
    v := C.Victim(slots, now);
    hide C.FindSlot, C.ExpireAll, C.Victim, Wrap;
    if chunk[2] > 1 {
      var parts: map<nat, C.Part> := map[][(chunk[1] as nat) := C.Part(chunk[C.HEADER..], pos)];
      var other: nat := if chunk[1] == 0 then 1 else 0;
      assert other !in parts;
      assert !C.AllReceived(parts, chunk[2]);
    }
  }

  /** What the desktop does with a chunk of a live message: refuse it, complete the message, or keep its start. */
  lemma DesktopContinues(d: D.State, timeout: nat, chunk: seq<Octet>, now: nat)
    requires D.Valid(d) && D.WellFormed(chunk) && chunk[0] in D.Live(d.slots, timeout, now)
    ensures var m := chunk[0];
      var t, r := D.Live(d.slots, timeout, now)[m], D.FeedChunk(d, timeout, chunk, now);
      if t.total != chunk[2] then !r.1 else m in r.0.slots ==> r.0.slots[m].start == t.start
  {
    hide D.Live, D.SlotOk, D.Joined;
  }

  lemma MoreThanOne(t: D.Slot)
    requires D.SlotOk(t) && t.chunks.Keys != {}
    ensures t.total > 1
  {
    var k :| k in t.chunks.Keys;
    if t.total == 1 {
      assert k == 0;
      assert Covers(t.chunks.Keys, 1);
    }
  }

  /** With a message of exactly the timeout's age (>= on one side, > on the other) every chunk makes them differ. */
  lemma ExactAgeDiffers(c: C.Chunker, d: D.State, timeout: nat, chunk: seq<Octet>, now: nat, pos: nat, m: Octet)
    requires |c.slots| > 0 && Agree(c, d) && Started(d) && D.Valid(d) && 0 < timeout < U32 && C.WellFormed(chunk)
    requires m in d.slots && now == d.slots[m].start + timeout
    ensures !SameStep(c, d, timeout, chunk, now, pos)
  {
    ExactAge(c, d, timeout, now, m);
    MoreThanOne(d.slots[m]);
    var c', d' := C.Feed(c, timeout, chunk, now, pos).0, D.FeedChunk(d, timeout, chunk, now).0;
    hide C.Feed, D.FeedChunk, C.FindSlot, D.Live, C.ExpireAll, Agree, Wrap, D.SlotOk;
    if m != chunk[0] {
      DesktopKeeps(d, timeout, chunk, now, m);
      FirmwareAdds(c, timeout, chunk, now, pos, m);
      Disagree(c', d', m);
    } else {
      var v := FirmwareOpens(c, timeout, chunk, now, pos);
      DesktopContinues(d, timeout, chunk, now);
      if d.slots[m].total == chunk[2] {
        DisagreeActive(c', d', v);
      }
    }
  }

  /** With every firmware slot in use a new message evicts one that the desktop keeps. */
  lemma FullTableDiffers(c: C.Chunker, d: D.State, timeout: nat, chunk: seq<Octet>, now: nat, pos: nat)
    requires |c.slots| > 0 && Agree(c, d) && D.Valid(d) && C.WellFormed(chunk)
    requires forall id :: id in d.slots ==> ClockOk(d.slots[id], timeout, now)
    requires !HasRoom(C.ExpireAll(c.slots, timeout, now), chunk[0])
    ensures !SameStep(c, d, timeout, chunk, now, pos)
  {
    ExpireAgrees(c.slots, d.slots, timeout, now);
    var slots, live := C.ExpireAll(c.slots, timeout, now), D.Live(d.slots, timeout, now);
    var v := C.Victim(slots, now);
    var lost := slots[v].msgId;
    SlotKnown(slots, live, v);
    NotFound(slots, chunk[0]);
    assert lost != chunk[0];
    DesktopKeeps(d, timeout, chunk, now, lost);
    NotFound(C.Feed(c, timeout, chunk, now, pos).0.slots, lost);
    EvictedGone(c, timeout, chunk, now, pos);
    Disagree(C.Feed(c, timeout, chunk, now, pos).0, D.FeedChunk(d, timeout, chunk, now).0, lost);
  }

  lemma EvictedGone(c: C.Chunker, timeout: nat, chunk: seq<Octet>, now: nat, pos: nat)
    requires |c.slots| > 0 && C.WellFormed(chunk)
    requires var slots := C.ExpireAll(c.slots, timeout, now);
      C.DistinctIds(slots) && !HasRoom(slots, chunk[0])
    ensures var slots := C.ExpireAll(c.slots, timeout, now);
      var lost := slots[C.Victim(slots, now)].msgId;
      C.FindSlot(C.Feed(c, timeout, chunk, now, pos).0.slots, lost) == |c.slots|
  {
    var slots := C.ExpireAll(c.slots, timeout, now);
    var v := C.Victim(slots, now);
    NotFound(slots, chunk[0]);
    NotFound(C.Feed(c, timeout, chunk, now, pos).0.slots, slots[v].msgId);
    hide C.FindSlot, C.ExpireAll, C.Oldest, C.FirstInactive, C.AllReceived, Wrap;
  }

  /**
   * The two stay in step over one chunk that both would look at if and only if no message in
   * progress is of exactly the timeout's age and the firmware has room for the chunk's message.
   */
  lemma MirrorsExactly(c: C.Chunker, d: D.State, timeout: nat, chunk: seq<Octet>, now: nat, pos: nat)
    requires |c.slots| > 0 && Agree(c, d) && Started(d) && 0 < timeout < U32 && C.WellFormed(chunk)
    requires forall id :: id in d.slots ==> ClockRuns(d.slots[id], now)
    ensures D.Valid(d)
    ensures SameStep(c, d, timeout, chunk, now, pos)
      <==> NoExactAge(d.slots, timeout, now) && HasRoom(C.ExpireAll(c.slots, timeout, now), chunk[0])
  {
    AgreeIsValid(c, d);
    hide C.Feed, D.FeedChunk, Agree, Started, D.Valid, HasRoom, SameStep;
    if !NoExactAge(d.slots, timeout, now) {
      var m :| m in d.slots && now - d.slots[m].start == timeout;
      ExactAgeDiffers(c, d, timeout, chunk, now, pos, m);
    } else {
      assert forall id :: id in d.slots ==> ClockOk(d.slots[id], timeout, now);
      if HasRoom(C.ExpireAll(c.slots, timeout, now), chunk[0]) {
        FeedAgrees(c, d, timeout, chunk, now, pos);
        SameStepIs(c, d, timeout, chunk, now, pos);
      } else {
        FullTableDiffers(c, d, timeout, chunk, now, pos);
      }
    }
  }

  lemma SameStepIs(c: C.Chunker, d: D.State, timeout: nat, chunk: seq<Octet>, now: nat, pos: nat)
    requires |c.slots| > 0 && D.Valid(d)
    ensures SameStep(c, d, timeout, chunk, now, pos) <==>
      var cr, dr := C.Feed(c, timeout, chunk, now, pos), D.FeedChunk(d, timeout, chunk, now);
      cr.1 == dr.1 && Agree(cr.0, dr.0)
  {}

  /** Inputs both would look at, the clock running on. */
  ghost predicate Plain(d: D.State, timeout: nat, inputs: seq<Input>)
    decreases |inputs|
  {
    inputs == []
    || (D.Valid(d) && C.WellFormed(inputs[0].chunk) && (forall id :: id in d.slots ==> ClockRuns(d.slots[id], inputs[0].now))
        && Plain(D.FeedChunk(d, timeout, inputs[0].chunk, inputs[0].now).0, timeout, inputs[1..]))
  }

  /** At every step of a run the two give the same answer and stay in agreement. */
  ghost predicate InStep(c: C.Chunker, d: D.State, timeout: nat, inputs: seq<Input>, pos: nat)
    requires |c.slots| > 0
    decreases |inputs|
  {
    inputs == []
    || (D.Valid(d) && SameStep(c, d, timeout, inputs[0].chunk, inputs[0].now, pos)
        && InStep(C.Feed(c, timeout, inputs[0].chunk, inputs[0].now, pos).0,
                  D.FeedChunk(d, timeout, inputs[0].chunk, inputs[0].now).0, timeout, inputs[1..], pos + 1))
  }

  /** At every step no message is of exactly the timeout's age and the firmware has room. */
  ghost predicate RoomAlways(c: C.Chunker, d: D.State, timeout: nat, inputs: seq<Input>, pos: nat)
    requires |c.slots| > 0
    decreases |inputs|
  {
    inputs == []
    || (D.Valid(d) && C.WellFormed(inputs[0].chunk) && NoExactAge(d.slots, timeout, inputs[0].now)
        && HasRoom(C.ExpireAll(c.slots, timeout, inputs[0].now), inputs[0].chunk[0])
        && RoomAlways(C.Feed(c, timeout, inputs[0].chunk, inputs[0].now, pos).0,
                      D.FeedChunk(d, timeout, inputs[0].chunk, inputs[0].now).0, timeout, inputs[1..], pos + 1))
  }

  /** The same over whole runs, for instance from the start (StartAgrees). */
  lemma {:induction false} RunsMirrorExactly(c: C.Chunker, d: D.State, timeout: nat, inputs: seq<Input>, pos: nat)
    requires |c.slots| > 0 && Agree(c, d) && Started(d) && 0 < timeout < U32 && Plain(d, timeout, inputs)
    ensures InStep(c, d, timeout, inputs, pos) <==> RoomAlways(c, d, timeout, inputs, pos)
    decreases |inputs|
  {
    if inputs != [] {
      var chunk, now := inputs[0].chunk, inputs[0].now;
      AgreeIsValid(c, d);
      MirrorsExactly(c, d, timeout, chunk, now, pos);
      SameStepIs(c, d, timeout, chunk, now, pos);
      FeedStarted(d, timeout, chunk, now);
      hide C.Feed, D.FeedChunk, Agree, Started, D.Valid, HasRoom, SameStep, NoExactAge, ClockRuns, C.ExpireAll, C.WellFormed;
      if SameStep(c, d, timeout, chunk, now, pos) {
        RunsMirrorExactly(C.Feed(c, timeout, chunk, now, pos).0, D.FeedChunk(d, timeout, chunk, now).0, timeout, inputs[1..], pos + 1);
      }
    }
  }

  /** A chunk of more than 252 bytes is refused by the firmware and taken by the desktop. */
  lemma LongChunkDiffers(c: C.Chunker, d: D.State, timeout: nat, chunk: seq<Octet>, now: nat, pos: nat)
    requires |c.slots| > 0 && D.Valid(d) && D.WellFormed(chunk) && |chunk| - C.HEADER > C.MAX_CHUNK_PAYLOAD
    requires chunk[0] in D.Live(d.slots, timeout, now) ==> D.Live(d.slots, timeout, now)[chunk[0]].total == chunk[2]
    ensures !C.Feed(c, timeout, chunk, now, pos).1 && D.FeedChunk(d, timeout, chunk, now).1
  {
    hide D.Receive, D.Live, C.Receive;
  }
}
