/**
 * The desktop implementation of INT-002, app/desktop_test/chunker.py:21-144. Its `split` makes the
 * same chunks as the firmware's; the reassemblers are compared in ChunkersAgree. The clock is in
 * milliseconds and read once a call; `completed` records the callback.
 */
module DesktopChunker {
  import opened Bytes
  import opened Sets
  import C = Chunking

  // ---------------------------------------------------------------- splitting

  datatype SplitResult = Chunks(chunks: seq<seq<Octet>>) | TooMany(count: nat)

  /** `[payload[i : i + max] for i in range(0, len(payload), max)]` */
  function Slices(payload: seq<Octet>, max: nat): seq<seq<Octet>>
    requires max > 0
  {
    if payload == [] then []
    else if |payload| <= max then [payload]
    else [payload[..max]] + Slices(payload[max..], max)
  }

  /** `split`; the ValueError is TooMany. */
  function Split(payload: seq<Octet>, msgId: nat, max: int): SplitResult {
    if payload == [] || max <= 0 then Chunks([])
    else
      var slices := Slices(payload, max);
      if |slices| > C.MAX_CHUNKS then TooMany(|slices|)
      else Chunks(seq(|slices|, i requires 0 <= i < |slices| => C.Chunk(msgId % 256, i, |slices|, slices[i])))
  }

  lemma CountIs(len: nat, max: nat, n: nat)
    requires max > 0 && n > 0 && (n - 1) * max < len <= n * max
    ensures C.NumChunks(len, max) == n
  {
    var m := C.NumChunks(len, max);
    C.NoChunks(len, max);
    C.SliceBounds(len, max, m - 1);
    hide C.NumChunks;
    if m < n {
      C.Monotone(m, n - 1, max);
    } else if m > n {
      C.Monotone(n, m - 1, max);
    }
  }

  lemma OneLess(len: nat, max: nat)
    requires len > max > 0
    ensures C.NumChunks(len, max) == C.NumChunks(len - max, max) + 1
  {
    var m := C.NumChunks(len - max, max);
    C.NoChunks(len - max, max);
    C.SliceBounds(len - max, max, m - 1);
    hide C.NumChunks;
    C.Monotone(m - 1, m, max);
    C.Monotone(m, m, max);
    CountIs(len, max, m + 1);
  }

  lemma OnlyOne(len: nat, max: nat)
    requires 0 < len <= max
    ensures C.NumChunks(len, max) == 1
  {
    CountIs(len, max, 1);
  }

  lemma OneMax(i: nat, max: nat)
    requires i > 0
    ensures i * max == (i - 1) * max + max && (i + 1) * max == (i - 1) * max + max + max
  {}

  lemma DropSlice(s: seq<Octet>, k: nat, lo: nat, hi: nat)
    requires k <= |s| && lo <= hi <= |s| - k
    ensures s[k..][lo..hi] == s[k + lo..k + hi]
  {}

  lemma ShiftSlice(payload: seq<Octet>, max: nat, i: nat)
    requires |payload| > max > 0 && 0 < i && (i - 1) * max <= |payload| - max
    ensures i * max <= |payload| && C.Slice(payload[max..], max, i - 1) == C.Slice(payload, max, i)
  {
    OneMax(i, max);
    var lo := (i - 1) * max;
    DropSlice(payload, max, lo, C.Min(lo + max, |payload| - max));
  }

  lemma {:induction false} SlicesAre(payload: seq<Octet>, max: nat, i: nat)
    requires max > 0
    ensures |Slices(payload, max)| == C.NumChunks(|payload|, max)
    ensures i < |Slices(payload, max)| ==> i * max <= |payload| && Slices(payload, max)[i] == C.Slice(payload, max, i)
    decreases |payload|
  {
    hide C.NumChunks, C.Slice;
    if payload == [] {
      C.NoChunks(0, max);
    } else if |payload| <= max {
      OnlyOne(|payload|, max);
      FirstSlice(payload, max);
    } else {
      OneLess(|payload|, max);
      SlicesAre(payload[max..], max, if i == 0 then 0 else i - 1);
      if i == 0 {
        FirstSlice(payload, max);
      } else if i < |Slices(payload, max)| {
        ShiftSlice(payload, max, i);
      }
    }
  }

  lemma FirstSlice(payload: seq<Octet>, max: nat)
    ensures C.Slice(payload, max, 0) == payload[..C.Min(max, |payload|)]
  {}

  /** Both implementations cut every payload into the same chunks, or both refuse. */
  lemma SplitsAlike(payload: seq<Octet>, msgId: Octet, max: nat)
    ensures match Split(payload, msgId, max)
      case Chunks(chunks) => chunks == C.Split(payload, msgId, max)
      case TooMany(count) => count == C.NumChunks(|payload|, max) > C.MAX_CHUNKS && C.Split(payload, msgId, max) == []
  {
    hide C.NumChunks, C.Slice, Slices;
    if payload != [] && max > 0 {
      SlicesAre(payload, max, 0);
      forall i | 0 <= i < |Slices(payload, max)| ensures i * max <= |payload| && Slices(payload, max)[i] == C.Slice(payload, max, i) {
        SlicesAre(payload, max, i);
      }
    }
  }

  // ---------------------------------------------------------------- reassembly

  datatype Slot = Slot(total: nat, chunks: map<nat, seq<Octet>>, start: nat)

  datatype State = State(slots: map<Octet, Slot>, completed: seq<seq<Octet>>)

  predicate SlotOk(s: Slot) {
    0 < s.total <= C.MAX_CHUNKS && (forall i :: i in s.chunks.Keys ==> i < s.total) && !Covers(s.chunks.Keys, s.total)
  }

  ghost predicate Valid(s: State) {
    forall id :: id in s.slots ==> SlotOk(s.slots[id])
  }

  /** `b"".join(chunks[i] for i in range(n))` */
  function Joined(chunks: map<nat, seq<Octet>>, n: nat): seq<Octet>
    requires Covers(chunks.Keys, n)
    decreases n
  {
    if n == 0 then [] else Joined(chunks, n - 1) + chunks[n - 1]
  }

  /** What `_expire` leaves: the age must exceed the timeout. */
  function Live(slots: map<Octet, Slot>, timeout: nat, now: nat): map<Octet, Slot> {
    map id | id in slots && now - slots[id].start <= timeout :: slots[id]
  }

  predicate WellFormed(chunk: seq<Octet>) {
    |chunk| >= C.HEADER && chunk[2] != 0 && chunk[1] < chunk[2] <= C.MAX_CHUNKS
  }

  /** The slot's part of `feed`, the slot being known and of the right total. */
  function Receive(s: State, id: Octet, i: nat, payload: seq<Octet>): State
    requires id in s.slots && i < s.slots[id].total && SlotOk(s.slots[id])
  {
    var slot := s.slots[id];
    if i in slot.chunks then s
    else
      var chunks := slot.chunks[i := payload];
      CountComplete(slot, i, payload);
      if |chunks| == slot.total then State(s.slots - {id}, s.completed + [Joined(chunks, slot.total)])
      else s.(slots := s.slots[id := slot.(chunks := chunks)])
  }

  /** Counting the chunks is the same as looking for each. */
  lemma CountComplete(slot: Slot, i: nat, payload: seq<Octet>)
    requires i < slot.total && SlotOk(slot)
    ensures var chunks := slot.chunks[i := payload];
      (|chunks| == slot.total <==> Covers(chunks.Keys, slot.total)) && forall k :: k in chunks.Keys ==> k < slot.total
  {
    var chunks := slot.chunks[i := payload];
    assert |chunks| == |chunks.Keys|;
    CoversBySize(chunks.Keys, slot.total);
  }

  /** `feed`. */
  function FeedChunk(s: State, timeout: nat, chunk: seq<Octet>, now: nat): (State, bool)
    requires Valid(s)
  {
    if !WellFormed(chunk) then (s, false)
    else
      var id, i, total := chunk[0], chunk[1], chunk[2];
      var live := Live(s.slots, timeout, now);
      if id !in live then
        Fresh(total);
        (Receive(s.(slots := live[id := Slot(total, map[], now)]), id, i, chunk[C.HEADER..]), true)
      else if live[id].total != total then (s.(slots := live), false)
      else (Receive(s.(slots := live), id, i, chunk[C.HEADER..]), true)
  }

  lemma Fresh(total: nat)
    requires 0 < total <= C.MAX_CHUNKS
    ensures forall now: nat :: SlotOk(Slot(total, map[], now))
  {
    var none: map<nat, seq<Octet>> := map[];
    assert 0 !in none.Keys;
    assert !Covers(none.Keys, total);
  }

  lemma FeedValid(s: State, timeout: nat, chunk: seq<Octet>, now: nat)
    requires Valid(s)
    ensures Valid(FeedChunk(s, timeout, chunk, now).0)
  {
    if WellFormed(chunk) {
      var id, i, total := chunk[0], chunk[1], chunk[2];
      var live := Live(s.slots, timeout, now);
      Fresh(total);
      hide Covers, Joined, Live, WellFormed;
      LiveIn(s.slots, timeout, now);
      var slots := if id in live then live else live[id := Slot(total, map[], now)];
      if slots[id].total == total {
        CountComplete(slots[id], i, chunk[C.HEADER..]);
      }
    }
  }

  lemma LiveIn(slots: map<Octet, Slot>, timeout: nat, now: nat)
    ensures forall id :: id in Live(slots, timeout, now) ==> id in slots && Live(slots, timeout, now)[id] == slots[id]
  {}

  class Reassembler {
    const timeout: nat
    var slots: map<Octet, Slot>
    var completed: seq<seq<Octet>>

    ghost function Abstract(): State
      reads this
    {
      State(slots, completed)
    }

    constructor (timeout: nat)
      ensures Abstract() == State(map[], []) && Valid(Abstract()) && this.timeout == timeout
    {
      this.timeout := timeout;
      slots, completed := map[], [];
    }

    method Expire(now: nat)
      modifies this`slots
      ensures slots == Live(old(slots), timeout, now)
    {
      var expired := set id | id in slots && now - slots[id].start > timeout;
      slots := slots - expired;
    }

    method Feed(chunk: seq<Octet>, now: nat) returns (ok: bool)
      requires Valid(Abstract())
      modifies this
      ensures Valid(Abstract()) && (Abstract(), ok) == FeedChunk(old(Abstract()), timeout, chunk, now)
    {
      FeedValid(Abstract(), timeout, chunk, now);
      hide Live, Covers, Joined, SlotOk;
      if |chunk| < C.HEADER {
        return false;
      }
      var msgId, chunkIdx, chunkTotal, payload := chunk[0], chunk[1], chunk[2], chunk[C.HEADER..];
      if chunkTotal == 0 || chunkIdx >= chunkTotal || chunkTotal > C.MAX_CHUNKS {
        return false;
      }
      Expire(now);
      LiveIn(old(slots), timeout, now);
      if msgId !in slots {
        Fresh(chunkTotal);
        slots := slots[msgId := Slot(chunkTotal, map[], now)];
      } else if slots[msgId].total != chunkTotal {
        return false;
      }
      var slot := slots[msgId];
      if chunkIdx in slot.chunks {
        return true;
      }
      CountComplete(slot, chunkIdx, payload);
      slot := slot.(chunks := slot.chunks[chunkIdx := payload]);
      if |slot.chunks| == chunkTotal {
        var assembled := Join(slot.chunks, chunkTotal);
        slots := slots - {msgId};
        completed := completed + [assembled];
      } else {
        slots := slots[msgId := slot];
      }
      return true;
    }

    method Reset()
      modifies this
      ensures Abstract() == old(Abstract()).(slots := map[])
    {
      slots := map[];
    }
  }

  method Join(chunks: map<nat, seq<Octet>>, n: nat) returns (r: seq<Octet>)
    requires Covers(chunks.Keys, n)
    ensures r == Joined(chunks, n)
  {
    r := [];
    for i := 0 to n
      invariant Covers(chunks.Keys, i) && r == Joined(chunks, i)
    {
      r := r + chunks[i];
    }
  }
}
