/**
 * The INT-002 chunk format and the reassembler's behaviour as functions:
 * firmware/components/ble_services/BleChunker.cpp:13-167.
 */
module Chunking {
  import opened Bytes
  import opened Sets
  import opened Uint32

  const HEADER := 3
  const MAX_CHUNKS := 64
  const MAX_CHUNK_PAYLOAD := 252

  // ---------------------------------------------------------------- splitting

  function NumChunks(len: nat, max: nat): nat
    requires max > 0
  {
    (len + max - 1) / max
  }

  function Min(a: nat, b: nat): nat {
    if a < b then a else b
  }

  /** The payload of chunk i. */
  function Slice(payload: seq<Octet>, max: nat, i: nat): seq<Octet>
    requires i * max <= |payload|
  {
    payload[i * max..Min((i + 1) * max, |payload|)]
  }

  lemma SliceBounds(len: nat, max: nat, i: nat)
    requires max > 0 && i < NumChunks(len, max)
    ensures i * max < len
    ensures i + 1 < NumChunks(len, max) ==> (i + 1) * max < len
    ensures i + 1 == NumChunks(len, max) ==> (i + 1) * max >= len
  {
    var n := NumChunks(len, max);
    var r := (len + max - 1) % max;
    assert len + max - 1 == n * max + r;
    Monotone(i + 1, n, max);
    if i + 1 < n {
      Monotone(i + 2, n, max);
    }
  }

  lemma NoChunks(len: nat, max: nat)
    requires max > 0
    ensures NumChunks(len, max) == 0 <==> len == 0
  {
    if len > 0 {
      assert len + max - 1 >= max;
    }
  }

  lemma Monotone(a: nat, b: nat, m: nat)
    requires a <= b
    ensures a * m <= b * m
    ensures (a + 1) * m == a * m + m
  {}

  function Chunk(msgId: Octet, i: nat, total: nat, data: seq<Octet>): seq<Octet>
    requires i < 256 && total < 256
  {
    [msgId, i, total] + data
  }

  /** What `split` accepts. */
  predicate Splittable(len: nat, max: nat) {
    len > 0 && max > 0 && NumChunks(len, max) <= MAX_CHUNKS
  }

  function ChunkOf(payload: seq<Octet>, msgId: Octet, max: nat, i: nat): seq<Octet>
    requires Splittable(|payload|, max) && i < NumChunks(|payload|, max)
  {
    SliceBounds(|payload|, max, i);
    Chunk(msgId, i, NumChunks(|payload|, max), Slice(payload, max, i))
  }

  function Split(payload: seq<Octet>, msgId: Octet, max: nat): seq<seq<Octet>> {
    if Splittable(|payload|, max)
    then seq(NumChunks(|payload|, max), i requires 0 <= i < NumChunks(|payload|, max) => ChunkOf(payload, msgId, max, i))
    else []
  }

  /** `BleChunker::split`. */
  method SplitPayload(payload: seq<Octet>, msgId: Octet, max: nat) returns (result: seq<seq<Octet>>)
    ensures result == Split(payload, msgId, max)
  {
    if |payload| == 0 || max == 0 {
      return [];
    }
    var numChunks := (|payload| + max - 1) / max;
    if numChunks > MAX_CHUNKS {
      return [];
    }
    result := [];
    for i := 0 to numChunks
      invariant |result| == i && forall k :: 0 <= k < i ==> result[k] == ChunkOf(payload, msgId, max, k)
    {
      SliceBounds(|payload|, max, i);
      var offset := i * max;
      var chunkLen := Min(max, |payload| - offset);
      Monotone(i, i, max);
      result := result + [[msgId, i, numChunks] + payload[offset..offset + chunkLen]];
    }
  }

  // ---------------------------------------------------------------- reassembly

  /** A received chunk's payload and the position in the input at which it came. */
  datatype Part = Part(payload: seq<Octet>, pos: nat)

  /** `openPos` is history: the input position of the chunk that opened the slot. */
  datatype Slot = Slot(msgId: Octet, total: nat, start: nat, active: bool, parts: map<nat, Part>, openPos: nat)

  datatype Delivery = Delivery(msgId: Octet, total: nat, start: nat, openPos: nat, parts: map<nat, Part>)

  datatype Chunker = Chunker(slots: seq<Slot>, delivered: seq<Delivery>)

  const IDLE := Slot(0, 0, 0, false, map[], 0)

  predicate AllReceived(parts: map<nat, Part>, total: nat) {
    Covers(parts.Keys, total)
  }

  /** The chunks' payloads in order. */
  function Assembled(parts: map<nat, Part>, n: nat): seq<Octet>
    requires AllReceived(parts, n)
    decreases n
  {
    if n == 0 then [] else Assembled(parts, n - 1) + parts[n - 1].payload
  }

  predicate Stale(s: Slot, timeout: nat, now: nat) {
    s.active && Sub32(Wrap(now), s.start) >= timeout
  }

  function Expired(s: Slot, timeout: nat, now: nat): Slot {
    if Stale(s, timeout, now) then s.(active := false, parts := map[]) else s
  }

  function ExpireAll(slots: seq<Slot>, timeout: nat, now: nat): (r: seq<Slot>)
    ensures |r| == |slots|
    ensures forall i :: 0 <= i < |slots| ==> r[i] == Expired(slots[i], timeout, now)
  {
    seq(|slots|, i requires 0 <= i < |slots| => Expired(slots[i], timeout, now))
  }

  function ResetAll(slots: seq<Slot>): (r: seq<Slot>)
    ensures |r| == |slots|
  {
    seq(|slots|, i requires 0 <= i < |slots| => slots[i].(active := false, parts := map[]))
  }

  /** `find_slot`; the number of slots when there is none. */
  function FindSlot(slots: seq<Slot>, msgId: Octet, from: nat := 0): (i: nat)
    requires from <= |slots|
    ensures from <= i <= |slots| && (i < |slots| ==> slots[i].active && slots[i].msgId == msgId)
    ensures forall k :: from <= k < i ==> !(slots[k].active && slots[k].msgId == msgId)
    decreases |slots| - from
  {
    if from == |slots| || (slots[from].active && slots[from].msgId == msgId) then from else FindSlot(slots, msgId, from + 1)
  }

  function Age(s: Slot, now: nat): nat {
    Sub32(Wrap(now), s.start)
  }

  function FirstInactive(slots: seq<Slot>, from: nat): (i: nat)
    requires from <= |slots|
    ensures from <= i <= |slots| && (i < |slots| ==> !slots[i].active)
    ensures forall k :: from <= k < i ==> slots[k].active
    decreases |slots| - from
  {
    if from == |slots| || !slots[from].active then from else FirstInactive(slots, from + 1)
  }

  /** The first slot of greatest age among the first n. */
  function Oldest(slots: seq<Slot>, now: nat, n: nat): (i: nat)
    requires 0 < n <= |slots|
    ensures i < n
    ensures forall k :: 0 <= k < n ==> Age(slots[k], now) <= Age(slots[i], now)
  {
    if n == 1 then 0
    else
      var o := Oldest(slots, now, n - 1);
      if Age(slots[n - 1], now) > Age(slots[o], now) then n - 1 else o
  }

  /** Which slot `alloc_slot` takes: an idle one, or else the one open longest. */
  function Victim(slots: seq<Slot>, now: nat): (i: nat)
    requires |slots| > 0
    ensures i < |slots|
    ensures slots[i].active ==> forall k :: 0 <= k < |slots| ==> slots[k].active && Age(slots[k], now) <= Age(slots[i], now)
  {
    var idle := FirstInactive(slots, 0);
    if idle < |slots| then idle else Oldest(slots, now, |slots|)
  }

  predicate WellFormed(chunk: seq<Octet>) {
    |chunk| >= HEADER && chunk[2] != 0 && chunk[1] < chunk[2] <= MAX_CHUNKS
    && |chunk| - HEADER <= MAX_CHUNK_PAYLOAD
  }

  /** The slot's record after chunk i arrives; `try_complete` when that was the last one missing. */
  function Receive(c: Chunker, p: nat, i: nat, part: Part): Chunker
    requires p < |c.slots|
  {
    var s := c.slots[p];
    if i in s.parts then c
    else
      var parts := s.parts[i := part];
      if AllReceived(parts, s.total) then
        Chunker(c.slots[p := s.(active := false, parts := map[])], c.delivered + [Delivery(s.msgId, s.total, s.start, s.openPos, parts)])
      else c.(slots := c.slots[p := s.(parts := parts)])
  }

  /** `feed`; pos is the position of this operation in the input. */
  function Feed(c: Chunker, timeout: nat, chunk: seq<Octet>, now: nat, pos: nat): (r: (Chunker, bool))
    requires |c.slots| > 0
    ensures |r.0.slots| == |c.slots|
  {
    if !WellFormed(chunk) then (c, false)
    else
      var msgId, i, total := chunk[0], chunk[1], chunk[2];
      var slots := ExpireAll(c.slots, timeout, now);
      var p := FindSlot(slots, msgId);
      var part := Part(chunk[HEADER..], pos);
      if p == |slots| then
        var v := Victim(slots, now);
        var begun := c.(slots := slots[v := Slot(msgId, total, Wrap(now), true, map[], pos)]);
        (Receive(begun, v, i, part), true)
      else if slots[p].total != total then (c.(slots := slots), false)
      else (Receive(c.(slots := slots), p, i, part), true)
  }

  // ---------------------------------------------------------------- arbitrary input

  datatype Op = DoFeed(at: nat, chunk: seq<Octet>) | DoTick(at: nat) | DoReset

  function Step(c: Chunker, timeout: nat, op: Op, pos: nat): (c': Chunker)
    requires |c.slots| > 0
    ensures |c'.slots| == |c.slots|
  {
    match op
    case DoFeed(at, chunk) => Feed(c, timeout, chunk, at, pos).0
    case DoTick(at) => c.(slots := ExpireAll(c.slots, timeout, at))
    case DoReset => c.(slots := ResetAll(c.slots))
  }

  function Run(slots: nat, timeout: nat, ops: seq<Op>): (c: Chunker)
    requires slots > 0
    ensures |c.slots| == slots
  {
    if ops == [] then Chunker(seq(slots, _ => IDLE), [])
    else
      var n := |ops| - 1;
      Step(Run(slots, timeout, ops[..n]), timeout, ops[n], n)
  }

  predicate CarriesPart(chunk: seq<Octet>, msgId: Octet, total: nat, i: nat, payload: seq<Octet>) {
    WellFormed(chunk) && chunk[0] == msgId && chunk[1] == i && chunk[2] == total && chunk[HEADER..] == payload
  }

  /** Chunk i of the message was fed at part.pos, no earlier than the opening chunk and before the timeout. */
  predicate PartOk(ops: seq<Op>, timeout: nat, msgId: Octet, total: nat, start: nat, openPos: nat, i: nat, part: Part) {
    && openPos <= part.pos < |ops| && ops[part.pos].DoFeed?
    && CarriesPart(ops[part.pos].chunk, msgId, total, i, part.payload)
    && (part.pos == openPos || Sub32(Wrap(ops[part.pos].at), start) < timeout)
  }

  predicate OpenOk(ops: seq<Op>, msgId: Octet, total: nat, start: nat, openPos: nat) {
    openPos < |ops| && ops[openPos].DoFeed? && Wrap(ops[openPos].at) == start && 0 < total <= MAX_CHUNKS
  }

  predicate SlotOk(ops: seq<Op>, timeout: nat, s: Slot) {
    s.active ==>
      OpenOk(ops, s.msgId, s.total, s.start, s.openPos) && !AllReceived(s.parts, s.total)
      && forall i :: i in s.parts ==> i < s.total && PartOk(ops, timeout, s.msgId, s.total, s.start, s.openPos, i, s.parts[i])
  }

  predicate DeliveryOk(ops: seq<Op>, timeout: nat, d: Delivery) {
    OpenOk(ops, d.msgId, d.total, d.start, d.openPos) && AllReceived(d.parts, d.total)
    && forall i :: 0 <= i < d.total ==> PartOk(ops, timeout, d.msgId, d.total, d.start, d.openPos, i, d.parts[i])
  }

  predicate DistinctIds(slots: seq<Slot>) {
    forall i, j :: 0 <= i < j < |slots| && slots[i].active && slots[j].active ==> slots[i].msgId != slots[j].msgId
  }

  predicate Coherent(ops: seq<Op>, timeout: nat, c: Chunker) {
    (forall i :: 0 <= i < |c.slots| ==> SlotOk(ops, timeout, c.slots[i]))
    && DistinctIds(c.slots)
    && (forall i :: 0 <= i < |c.delivered| ==> DeliveryOk(ops, timeout, c.delivered[i]))
  }

  lemma LongerInput(ops: seq<Op>, op: Op, timeout: nat, c: Chunker)
    requires Coherent(ops, timeout, c)
    ensures Coherent(ops + [op], timeout, c)
  {
    hide Wrap, Sub32, WellFormed;
    var ops' := ops + [op];
    forall i | 0 <= i < |c.slots| ensures SlotOk(ops', timeout, c.slots[i]) {
      assert SlotOk(ops, timeout, c.slots[i]);
    }
    forall i | 0 <= i < |c.delivered| ensures DeliveryOk(ops', timeout, c.delivered[i]) {
      assert DeliveryOk(ops, timeout, c.delivered[i]);
    }
  }

  lemma ExpireCoherent(ops: seq<Op>, timeout: nat, c: Chunker, now: nat)
    requires Coherent(ops, timeout, c)
    ensures var c' := c.(slots := ExpireAll(c.slots, timeout, now));
      Coherent(ops, timeout, c') && forall i :: 0 <= i < |c'.slots| ==> !Stale(c'.slots[i], timeout, now)
  {
    hide Wrap, Sub32, PartOk, OpenOk;
    forall i | 0 <= i < |c.slots| ensures SlotOk(ops, timeout, Expired(c.slots[i], timeout, now)) {
      assert SlotOk(ops, timeout, c.slots[i]);
    }
  }

  lemma ReceiveCoherent(ops: seq<Op>, timeout: nat, c: Chunker, p: nat, i: nat, part: Part)
    requires p < |c.slots| && c.slots[p].active && i < c.slots[p].total
    requires forall k :: 0 <= k < |c.slots| && k != p ==> SlotOk(ops, timeout, c.slots[k])
    requires var s := c.slots[p];
      OpenOk(ops, s.msgId, s.total, s.start, s.openPos) && (i in s.parts ==> !AllReceived(s.parts, s.total))
      && (forall k :: k in s.parts ==> k < s.total && PartOk(ops, timeout, s.msgId, s.total, s.start, s.openPos, k, s.parts[k]))
      && PartOk(ops, timeout, s.msgId, s.total, s.start, s.openPos, i, part)
    requires DistinctIds(c.slots) && forall k :: 0 <= k < |c.delivered| ==> DeliveryOk(ops, timeout, c.delivered[k])
    ensures Coherent(ops, timeout, Receive(c, p, i, part))
  {
    hide PartOk, OpenOk;
    var s := c.slots[p];
    if i !in s.parts {
      var parts := s.parts[i := part];
      var c' := Receive(c, p, i, part);
      forall k | 0 <= k < |c'.slots| ensures SlotOk(ops, timeout, c'.slots[k]) {}
      forall k | 0 <= k < |c'.delivered| ensures DeliveryOk(ops, timeout, c'.delivered[k]) {
        if k < |c.delivered| {
          assert DeliveryOk(ops, timeout, c.delivered[k]);
        }
      }
    } else {
      assert SlotOk(ops, timeout, s);
    }
  }

  lemma OpeningPart(ops: seq<Op>, timeout: nat, at: nat, chunk: seq<Octet>)
    requires WellFormed(chunk) && ops != [] && ops[|ops| - 1] == DoFeed(at, chunk)
    ensures OpenOk(ops, chunk[0], chunk[2], Wrap(at), |ops| - 1)
    ensures PartOk(ops, timeout, chunk[0], chunk[2], Wrap(at), |ops| - 1, chunk[1], Part(chunk[HEADER..], |ops| - 1))
  {}

  lemma FeedCoherent(ops: seq<Op>, timeout: nat, c: Chunker, at: nat, chunk: seq<Octet>)
    requires |c.slots| > 0 && Coherent(ops, timeout, c) && ops != [] && ops[|ops| - 1] == DoFeed(at, chunk)
    ensures Coherent(ops, timeout, Feed(c, timeout, chunk, at, |ops| - 1).0)
  {
    if WellFormed(chunk) {
      var pos := |ops| - 1;
      var msgId, i, total := chunk[0], chunk[1], chunk[2];
      var c1 := c.(slots := ExpireAll(c.slots, timeout, at));
      ExpireCoherent(ops, timeout, c, at);
      OpeningPart(ops, timeout, at, chunk);
      var p := FindSlot(c1.slots, msgId);
      var part := Part(chunk[HEADER..], pos);
      hide ExpireAll, FindSlot, Victim;
      if p == |c1.slots| {
        var v := Victim(c1.slots, at);
        var begun := c1.(slots := c1.slots[v := Slot(msgId, total, Wrap(at), true, map[], pos)]);
        hide PartOk, OpenOk, Receive, Wrap, WellFormed;
        forall k | 0 <= k < |begun.slots| && k != v ensures SlotOk(ops, timeout, begun.slots[k]) {
          assert SlotOk(ops, timeout, c1.slots[k]);
        }
        ReceiveCoherent(ops, timeout, begun, v, i, part);
      } else if c1.slots[p].total == total {
        var s := c1.slots[p];
        assert SlotOk(ops, timeout, s);
        assert PartOk(ops, timeout, s.msgId, s.total, s.start, s.openPos, i, part);
        hide PartOk, OpenOk, Receive, Wrap, WellFormed;
        ReceiveCoherent(ops, timeout, c1, p, i, part);
      }
    }
  }

  lemma ResetCoherent(ops: seq<Op>, timeout: nat, c: Chunker)
    requires Coherent(ops, timeout, c)
    ensures Coherent(ops, timeout, c.(slots := ResetAll(c.slots)))
  {}

  lemma {:induction false} RunCoherent(slots: nat, timeout: nat, ops: seq<Op>)
    requires slots > 0
    ensures Coherent(ops, timeout, Run(slots, timeout, ops))
  {
    if ops != [] {
      hide Coherent, Feed, ExpireAll, ResetAll;
      var n := |ops| - 1;
      RunCoherent(slots, timeout, ops[..n]);
      var c := Run(slots, timeout, ops[..n]);
      LongerInput(ops[..n], ops[n], timeout, c);
      assert ops[..n] + [ops[n]] == ops;
      match ops[n]
      case DoFeed(at, chunk) => FeedCoherent(ops, timeout, c, at, chunk);
      case DoTick(at) => ExpireCoherent(ops, timeout, c, at);
      case DoReset => ResetCoherent(ops, timeout, c);
    }
  }

  /**
   * No mixing, on any input whatever and for any number of slots: a delivered message is made of
   * accepted chunks 0..total-1 with one message id and one total, none fed before the chunk that
   * opened the slot and each of the others less than the timeout after it.
   */
  lemma NeverMixed(slots: nat, timeout: nat, ops: seq<Op>, d: nat)
    requires slots > 0 && d < |Run(slots, timeout, ops).delivered|
    ensures var m := Run(slots, timeout, ops).delivered[d];
      OpenOk(ops, m.msgId, m.total, m.start, m.openPos) && forall i :: (0 <= i < m.total ==>
        i in m.parts && PartOk(ops, timeout, m.msgId, m.total, m.start, m.openPos, i, m.parts[i]))
  {
    RunCoherent(slots, timeout, ops);
    hide Run, PartOk, OpenOk;
    assert DeliveryOk(ops, timeout, Run(slots, timeout, ops).delivered[d]);
  }

  /** Slots in progress belong to different messages, and each still misses a chunk. */
  lemma SlotsApart(slots: nat, timeout: nat, ops: seq<Op>, i: nat, j: nat)
    requires slots > 0 && i < j < slots
    ensures var s := Run(slots, timeout, ops).slots;
      && (s[i].active && s[j].active ==> s[i].msgId != s[j].msgId)
      && (s[i].active ==> !AllReceived(s[i].parts, s[i].total))
  {
    RunCoherent(slots, timeout, ops);
    hide Run, PartOk, OpenOk;
    assert SlotOk(ops, timeout, Run(slots, timeout, ops).slots[i]);
  }

  /** A message is dropped to make room only when every slot is in use, and then the one open longest. */
  lemma EvictsTheOldest(c: Chunker, timeout: nat, chunk: seq<Octet>, now: nat, pos: nat, k: nat)
    requires |c.slots| > 0 && WellFormed(chunk) && k < |c.slots|
    requires var slots := ExpireAll(c.slots, timeout, now);
      slots[k].active && slots[k].msgId != chunk[0] && Feed(c, timeout, chunk, now, pos).0.slots[k] != slots[k]
    ensures var slots := ExpireAll(c.slots, timeout, now);
      forall i :: 0 <= i < |slots| ==> slots[i].active && Age(slots[i], now) <= Age(slots[k], now)
  {
    hide Wrap, Sub32, ExpireAll, Oldest, FirstInactive, FindSlot;
  }

  // ---------------------------------------------------------------- reassembly inverts splitting

  /** Every chunk of the split is one `feed` accepts. */
  predicate Feedable(payload: seq<Octet>, max: nat) {
    Splittable(|payload|, max) && Min(max, |payload|) <= MAX_CHUNK_PAYLOAD
  }

  lemma SliceLength(payload: seq<Octet>, max: nat, i: nat)
    requires Splittable(|payload|, max) && i < NumChunks(|payload|, max)
    ensures i * max <= |payload| && |Slice(payload, max, i)| <= Min(max, |payload|)
    ensures Slice(payload, max, i) == payload[i * max..Min((i + 1) * max, |payload|)]
  {
    SliceBounds(|payload|, max, i);
    Monotone(i, i, max);
  }

  predicate Holds(parts: map<nat, Part>, payload: seq<Octet>, max: nat)
    requires Splittable(|payload|, max)
  {
    forall i :: i in parts ==> i < NumChunks(|payload|, max) && i * max <= |payload| && parts[i].payload == Slice(payload, max, i)
  }

  lemma JoinPrefix(s: seq<Octet>, lo: nat, hi: nat)
    requires lo <= hi <= |s|
    ensures s[..lo] + s[lo..hi] == s[..hi]
  {}

  lemma HeldSlice(parts: map<nat, Part>, payload: seq<Octet>, max: nat, i: nat)
    requires Splittable(|payload|, max) && i in parts && Holds(parts, payload, max)
    ensures i < NumChunks(|payload|, max) && i * max <= Min((i + 1) * max, |payload|) && i * max <= |payload|
    ensures parts[i].payload == payload[i * max..Min((i + 1) * max, |payload|)]
  {
    SliceBounds(|payload|, max, i);
    Monotone(i, i, max);
    hide NumChunks;
  }

  lemma {:induction false} AssembledPrefix(parts: map<nat, Part>, payload: seq<Octet>, max: nat, n: nat)
    requires Splittable(|payload|, max) && n <= NumChunks(|payload|, max) && AllReceived(parts, n) && Holds(parts, payload, max)
    ensures Assembled(parts, n) == payload[..Min(n * max, |payload|)]
  {
    hide NumChunks, Slice, Holds, Splittable;
    if n > 0 {
      AssembledPrefix(parts, payload, max, n - 1);
      HeldSlice(parts, payload, max, n - 1);
      JoinPrefix(payload, (n - 1) * max, Min(n * max, |payload|));
    }
  }

  lemma AssembledWhole(parts: map<nat, Part>, payload: seq<Octet>, max: nat)
    requires Splittable(|payload|, max) && AllReceived(parts, NumChunks(|payload|, max)) && Holds(parts, payload, max)
    ensures Assembled(parts, NumChunks(|payload|, max)) == payload
  {
    var n := NumChunks(|payload|, max);
    AssembledPrefix(parts, payload, max, n);
    SliceBounds(|payload|, max, n - 1);
    assert payload[..|payload|] == payload;
  }

  /** The message's slot, with the chunks in `got` received and some missing. */
  predicate Gathering(slots: seq<Slot>, payload: seq<Octet>, msgId: Octet, max: nat, start: nat, got: set<nat>)
    requires Splittable(|payload|, max)
  {
    var p, n := FindSlot(slots, msgId), NumChunks(|payload|, max);
    p < |slots| && slots[p].total == n && slots[p].start == start && slots[p].parts.Keys == got
    && Holds(slots[p].parts, payload, max) && !Covers(got, n)
  }

  predicate NoSlot(slots: seq<Slot>, msgId: Octet) {
    forall k :: 0 <= k < |slots| && slots[k].active ==> slots[k].msgId != msgId
  }

  lemma FindSlotIs(slots: seq<Slot>, msgId: Octet, p: nat)
    requires p < |slots| && slots[p].active && slots[p].msgId == msgId
    requires forall k :: 0 <= k < p && slots[k].active ==> slots[k].msgId != msgId
    ensures FindSlot(slots, msgId) == p
  {
    hide FindSlot;
  }

  /** What one more chunk does: the callback fires exactly when it is the last one missing. */
  predicate Progress(c: Chunker, c': Chunker, payload: seq<Octet>, msgId: Octet, max: nat, start: nat, got: set<nat>)
    requires Splittable(|payload|, max)
  {
    var n := NumChunks(|payload|, max);
    if Covers(got, n) then
      |c'.delivered| == |c.delivered| + 1 && c'.delivered[..|c.delivered|] == c.delivered
      && var d := c'.delivered[|c.delivered|];
         d.msgId == msgId && d.total == n && AllReceived(d.parts, n) && Assembled(d.parts, n) == payload
    else c'.delivered == c.delivered && Gathering(c'.slots, payload, msgId, max, start, got)
  }

  lemma ReceiveProgress(c: Chunker, p: nat, payload: seq<Octet>, msgId: Octet, max: nat, start: nat, got: set<nat>, i: nat, part: Part)
    requires Feedable(payload, max) && i < NumChunks(|payload|, max) && p < |c.slots|
    requires var s := c.slots[p];
      s.active && s.msgId == msgId && s.total == NumChunks(|payload|, max) && s.start == start
      && s.parts.Keys == got && Holds(s.parts, payload, max) && (i in got ==> !Covers(got, s.total))
    requires forall k :: 0 <= k < p && c.slots[k].active ==> c.slots[k].msgId != msgId
    requires i * max <= |payload| && part.payload == Slice(payload, max, i)
    ensures Progress(c, Receive(c, p, i, part), payload, msgId, max, start, got + {i})
  {
    hide Slice, NumChunks, FindSlot, Assembled;
    var s := c.slots[p];
    var n := NumChunks(|payload|, max);
    var parts := s.parts[i := part];
    assert parts.Keys == got + {i};
    assert Holds(parts, payload, max);
    if i in got {
      assert got + {i} == got;
      FindSlotIs(c.slots, msgId, p);
    } else if Covers(got + {i}, n) {
      assert AllReceived(parts, n);
      AssembledWhole(parts, payload, max);
    } else {
      assert !AllReceived(parts, n);
      var slots := c.slots[p := s.(parts := parts)];
      FindSlotIs(slots, msgId, p);
    }
  }

  lemma ChunkHeader(payload: seq<Octet>, msgId: Octet, max: nat, i: nat)
    requires Feedable(payload, max) && i < NumChunks(|payload|, max)
    ensures var chunk := ChunkOf(payload, msgId, max, i);
      WellFormed(chunk) && chunk[0] == msgId && chunk[1] == i && chunk[2] == NumChunks(|payload|, max)
      && i * max <= |payload| && chunk[HEADER..] == Slice(payload, max, i)
  {
    SliceLength(payload, max, i);
    hide Slice, NumChunks;
  }

  /** The first chunk of a message, whichever it is, opens a slot holding just that chunk. */
  lemma FeedFirst(c: Chunker, timeout: nat, payload: seq<Octet>, msgId: Octet, max: nat, i: nat, now: nat, pos: nat)
    requires |c.slots| > 0 && Feedable(payload, max) && i < NumChunks(|payload|, max) && NoSlot(c.slots, msgId)
    ensures Progress(c, Feed(c, timeout, ChunkOf(payload, msgId, max, i), now, pos).0, payload, msgId, max, Wrap(now), {i})
  {
    ChunkHeader(payload, msgId, max, i);
    hide ChunkOf, Wrap, Slice, NumChunks, Receive, Progress, Victim, Stale, WellFormed;
    var chunk := ChunkOf(payload, msgId, max, i);
    var slots := ExpireAll(c.slots, timeout, now);
    assert NoSlot(slots, msgId);
    assert FindSlot(slots, msgId) == |slots|;
    hide FindSlot;
    var v := Victim(slots, now);
    var begun := c.(slots := slots[v := Slot(msgId, NumChunks(|payload|, max), Wrap(now), true, map[], pos)]);
    ReceiveProgress(begun, v, payload, msgId, max, Wrap(now), {}, i, Part(chunk[HEADER..], pos));
    assert {} + {i} == {i};
    ProgressFrom(c, begun, Receive(begun, v, i, Part(chunk[HEADER..], pos)), payload, msgId, max, Wrap(now), {i});
  }

  lemma ProgressFrom(c: Chunker, mid: Chunker, c': Chunker, payload: seq<Octet>, msgId: Octet, max: nat, start: nat, got: set<nat>)
    requires Splittable(|payload|, max) && mid.delivered == c.delivered && Progress(mid, c', payload, msgId, max, start, got)
    ensures Progress(c, c', payload, msgId, max, start, got)
  {}

  /** A further chunk inside the timeout, new or duplicate. */
  lemma FeedNext(c: Chunker, timeout: nat, payload: seq<Octet>, msgId: Octet, max: nat, i: nat, now: nat, pos: nat, start: nat, got: set<nat>)
    requires |c.slots| > 0 && Feedable(payload, max) && i < NumChunks(|payload|, max)
    requires Gathering(c.slots, payload, msgId, max, start, got) && Sub32(Wrap(now), start) < timeout
    ensures Progress(c, Feed(c, timeout, ChunkOf(payload, msgId, max, i), now, pos).0, payload, msgId, max, start, got + {i})
  {
    ChunkHeader(payload, msgId, max, i);
    hide ChunkOf, Wrap, Sub32, Slice, NumChunks, Receive, Progress, Victim, WellFormed, Holds;
    var chunk := ChunkOf(payload, msgId, max, i);
    var slots := ExpireAll(c.slots, timeout, now);
    var p := FindSlot(c.slots, msgId);
    FindSlotIs(slots, msgId, p);
    hide FindSlot;
    var c1 := c.(slots := slots);
    ReceiveProgress(c1, p, payload, msgId, max, start, got, i, Part(chunk[HEADER..], pos));
    ProgressFrom(c, c1, Receive(c1, p, i, Part(chunk[HEADER..], pos)), payload, msgId, max, start, got + {i});
  }

  /** Chunk numbers and the times at which they are fed. */
  type Schedule = seq<(nat, nat)>

  function FeedAll(c: Chunker, timeout: nat, payload: seq<Octet>, msgId: Octet, max: nat, feeds: Schedule): (c': Chunker)
    requires |c.slots| > 0 && Splittable(|payload|, max) && forall k :: 0 <= k < |feeds| ==> feeds[k].0 < NumChunks(|payload|, max)
    ensures |c'.slots| == |c.slots|
  {
    if feeds == [] then c
    else
      var n := |feeds| - 1;
      Feed(FeedAll(c, timeout, payload, msgId, max, feeds[..n]), timeout, ChunkOf(payload, msgId, max, feeds[n].0), feeds[n].1, n).0
  }

  function Got(feeds: Schedule): set<nat> {
    set k | 0 <= k < |feeds| :: feeds[k].0
  }

  /** In any order, with any duplicates, inside the timeout, and not complete before the last feed. */
  predicate Orderly(feeds: Schedule, total: nat, timeout: nat) {
    feeds != []
    && (forall k :: 0 <= k < |feeds| ==> feeds[k].0 < total)
    && (forall k :: 1 <= k < |feeds| ==> Sub32(Wrap(feeds[k].1), Wrap(feeds[0].1)) < timeout)
    && !Covers(Got(feeds[..|feeds| - 1]), total)
  }

  /**
   * Feeding the chunks of a message in any order with any duplicates fires the callback exactly
   * when the last missing chunk arrives, with exactly the message that was split.
   */
  lemma {:induction false} Reassembles(c: Chunker, timeout: nat, payload: seq<Octet>, msgId: Octet, max: nat, feeds: Schedule)
    requires |c.slots| > 0 && Feedable(payload, max) && NoSlot(c.slots, msgId)
    requires Orderly(feeds, NumChunks(|payload|, max), timeout)
    ensures Progress(c, FeedAll(c, timeout, payload, msgId, max, feeds), payload, msgId, max, Wrap(feeds[0].1), Got(feeds))
    decreases |feeds|
  {
    hide Progress, ChunkOf, NumChunks, Feed, NoSlot, Wrap, Sub32, Feedable;
    assert Splittable(|payload|, max) by { FeedableSplits(payload, max); }
    var n := |feeds| - 1;
    var before := feeds[..n];
    assert Got(feeds) == Got(before) + {feeds[n].0} by {
      assert forall k :: 0 <= k < n ==> feeds[k] == before[k];
    }
    if n == 0 {
      assert Got(before) == {} && {} + {feeds[0].0} == {feeds[0].0};
      FeedFirst(c, timeout, payload, msgId, max, feeds[0].0, feeds[0].1, 0);
    } else {
      var total := NumChunks(|payload|, max);
      assert !Covers(Got(before[..n - 1]), total) by {
        assert Got(before[..n - 1]) <= Got(before) by {
          assert forall k :: 0 <= k < n - 1 ==> before[..n - 1][k] == before[k];
        }
      }
      Reassembles(c, timeout, payload, msgId, max, before);
      var c1 := FeedAll(c, timeout, payload, msgId, max, before);
      StillGathering(c, c1, payload, msgId, max, Wrap(feeds[0].1), Got(before));
      FeedNext(c1, timeout, payload, msgId, max, feeds[n].0, feeds[n].1, n, Wrap(feeds[0].1), Got(before));
      ProgressFrom(c, c1, FeedAll(c, timeout, payload, msgId, max, feeds), payload, msgId, max, Wrap(feeds[0].1), Got(feeds));
    }
  }

  lemma FeedableSplits(payload: seq<Octet>, max: nat)
    requires Feedable(payload, max)
    ensures Splittable(|payload|, max)
  {}

  lemma StillGathering(c: Chunker, c': Chunker, payload: seq<Octet>, msgId: Octet, max: nat, start: nat, got: set<nat>)
    requires Splittable(|payload|, max) && Progress(c, c', payload, msgId, max, start, got) && !Covers(got, NumChunks(|payload|, max))
    ensures c'.delivered == c.delivered && Gathering(c'.slots, payload, msgId, max, start, got)
  {}

  /** `split` also makes chunks longer than `feed` takes: then the first chunk is refused in every state, so nothing is delivered. */
  lemma LongChunksRefused(c: Chunker, timeout: nat, payload: seq<Octet>, msgId: Octet, max: nat, now: nat, pos: nat)
    requires |c.slots| > 0 && Splittable(|payload|, max)
    ensures 0 < NumChunks(|payload|, max)
    ensures Feed(c, timeout, ChunkOf(payload, msgId, max, 0), now, pos).1 ==> Feedable(payload, max)
    ensures !Feedable(payload, max) ==> Feed(c, timeout, ChunkOf(payload, msgId, max, 0), now, pos) == (c, false)
  {
    NoChunks(|payload|, max);
    SliceBounds(|payload|, max, 0);
    assert Slice(payload, max, 0) == payload[..Min(max, |payload|)];
    hide NumChunks, Slice, Receive, FindSlot, Victim, ExpireAll;
    assert |ChunkOf(payload, msgId, max, 0)| == HEADER + Min(max, |payload|);
  }

  lemma OneIsNotAll(i: nat, n: nat, got: set<nat>)
    requires got == {i} && n > 1
    ensures !Covers(got, n)
  {
    var w: nat := if i == 0 then 1 else 0;
    assert w !in got;
  }

  /** After completion the slot is gone, so a late duplicate of a longer message opens a new one. */
  lemma LateDuplicateReopens(c: Chunker, timeout: nat, payload: seq<Octet>, msgId: Octet, max: nat, i: nat, now: nat, pos: nat)
    requires |c.slots| > 0 && Feedable(payload, max) && i < NumChunks(|payload|, max) && NumChunks(|payload|, max) > 1
    requires NoSlot(c.slots, msgId)
    ensures var c' := Feed(c, timeout, ChunkOf(payload, msgId, max, i), now, pos).0;
      c'.delivered == c.delivered && Gathering(c'.slots, payload, msgId, max, Wrap(now), {i})
  {
    hide Feed, ChunkOf, NumChunks, Wrap;
    FeedFirst(c, timeout, payload, msgId, max, i, now, pos);
    var got := {i};
    OneIsNotAll(i, NumChunks(|payload|, max), got);
    FeedableSplits(payload, max);
    hide Progress, Gathering, Covers;
    StillGathering(c, Feed(c, timeout, ChunkOf(payload, msgId, max, i), now, pos).0, payload, msgId, max, Wrap(now), got);
  }
}
