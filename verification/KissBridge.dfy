/**
 * KISS frames over BLE: the firmware's `notify_kiss_rx` chunking loop (BleServer.cpp:705-758) and
 * the desktop bridge's chunking and reassembly (app/desktop_test/kiss_bridge.py:239-291, 376-485).
 */
module KissBridge {
  import opened Bytes
  import C = Chunking

  const MAX_PENDING := 4
  const KISS_CHUNK_PAYLOAD := 17

  /** A chunk with its three header bytes. */
  type Wire = c: seq<Octet> | |c| >= 3 witness [0, 0, 0]

  // ---------------------------------------------------------------- sending

  /** Chunk i of a frame; unlike BleChunker's 64, up to 255 chunks are allowed. */
  function WireChunk(frame: seq<Octet>, msgId: Octet, max: nat, i: nat): Wire
    requires max > 0 && i < C.NumChunks(|frame|, max) <= 255
  {
    C.SliceBounds(|frame|, max, i);
    C.Chunk(msgId, i, C.NumChunks(|frame|, max), C.Slice(frame, max, i))
  }

  lemma WireChunkIs(frame: seq<Octet>, msgId: Octet, max: nat, i: nat)
    requires max > 0 && i < C.NumChunks(|frame|, max) <= 255
    ensures i * max < |frame|
    ensures WireChunk(frame, msgId, max, i)
      == [msgId, i, C.NumChunks(|frame|, max)] + frame[i * max..C.Min(i * max + max, |frame|)]
  {
    C.SliceBounds(|frame|, max, i);
    C.Monotone(i, i, max);
    hide C.NumChunks;
  }

  lemma MinIs(a: nat, b: nat)
    ensures C.Min(a, b) == if a < b then a else b
  {}

  function WireChunks(frame: seq<Octet>, msgId: Octet, max: nat): seq<Wire>
    requires max > 0 && C.NumChunks(|frame|, max) <= 255
  {
    var n := C.NumChunks(|frame|, max);
    seq(n, i requires 0 <= i < n => WireChunk(frame, msgId, max, i))
  }

  /** What `notify_kiss_rx` agrees to send. */
  predicate Chunkable(d: seq<Octet>, ready: bool) {
    ready && d != [] && C.NumChunks(|d|, KISS_CHUNK_PAYLOAD) <= 255
  }

  /** The KISS RX side of the BLE server; `connected_` and the handle are the parameter `ready`. */
  /** Up to 255 chunks of 17 bytes. */
  lemma ChunkableIs(d: seq<Octet>, ready: bool)
    ensures Chunkable(d, ready) <==> ready && 0 < |d| <= 4335
  {
    var n := C.NumChunks(|d|, KISS_CHUNK_PAYLOAD);
    if |d| > 0 {
      C.NoChunks(|d|, KISS_CHUNK_PAYLOAD);
      C.SliceBounds(|d|, KISS_CHUNK_PAYLOAD, n - 1);
    }
  }

  class KissRxNotifier {
    var kissRxMsgId: Octet

    constructor ()
      ensures kissRxMsgId == 0
    {
      kissRxMsgId := 0;
    }

    /** `notify_kiss_rx`; linkOk[i] is whether NimBLE takes chunk i, and a chunk it does not take is skipped. */
    method NotifyKissRx(d: seq<Octet>, ready: bool, linkOk: seq<bool>) returns (sent: seq<Wire>, ok: bool)
      requires |linkOk| == 255
      modifies this
      ensures !Chunkable(d, ready) ==> !ok && sent == [] && kissRxMsgId == old(kissRxMsgId)
      ensures Chunkable(d, ready) ==> kissRxMsgId == (old(kissRxMsgId) + 1) % 256
      ensures Chunkable(d, ready) ==> sent == Taken(WireChunks(d, kissRxMsgId, 17), linkOk)
      ensures Chunkable(d, ready) ==> (ok <==> forall i :: 0 <= i < C.NumChunks(|d|, KISS_CHUNK_PAYLOAD) ==> linkOk[i])
    {
      if !ready || |d| == 0 {
        return [], false;
      }
      var totalChunks := (|d| + KISS_CHUNK_PAYLOAD - 1) / KISS_CHUNK_PAYLOAD;
      C.NoChunks(|d|, KISS_CHUNK_PAYLOAD);
      if totalChunks == 0 || totalChunks > 255 {
        return [], false;
      }
      kissRxMsgId := (kissRxMsgId + 1) % 256;
      var msgId := kissRxMsgId;
      ChunksAre(d, msgId, KISS_CHUNK_PAYLOAD);
      hide C.NumChunks, WireChunk, WireChunks, Taken, C.Min, AllOk;
      sent, ok := [], true;
      NoneTaken(linkOk);
      AllOkStep(linkOk, 0);
      ghost var chunks := WireChunks(d, msgId, KISS_CHUNK_PAYLOAD);
      for idx := 0 to totalChunks
        invariant kissRxMsgId == msgId
        invariant sent == Taken(chunks[..idx], linkOk) && (ok <==> AllOk(linkOk, idx))
      {
        var buf := CutNotification(d, msgId, totalChunks, idx);
        TakenStep(chunks, linkOk, idx);
        AllOkStep(linkOk, idx);
        if linkOk[idx] {
          sent := sent + [buf];
        } else {
          ok := false;
        }
      }
      assert chunks[..totalChunks] == chunks;
      AllOkIs(linkOk, totalChunks);
    }
  }

  predicate AllOk(linkOk: seq<bool>, n: nat)
    requires n <= |linkOk|
  {
    forall i :: 0 <= i < n ==> linkOk[i]
  }

  lemma AllOkStep(linkOk: seq<bool>, n: nat)
    requires n < |linkOk|
    ensures AllOk(linkOk, 0) && (AllOk(linkOk, n + 1) <==> AllOk(linkOk, n) && linkOk[n])
  {}

  lemma AllOkIs(linkOk: seq<bool>, n: nat)
    requires n <= |linkOk|
    ensures AllOk(linkOk, n) <==> forall i :: 0 <= i < n ==> linkOk[i]
  {}

  /** The chunks the link takes, in order. */
  function Taken(chunks: seq<Wire>, linkOk: seq<bool>): seq<Wire>
    requires |chunks| <= |linkOk|
  {
    if chunks == [] then []
    else Taken(chunks[..|chunks| - 1], linkOk) + if linkOk[|chunks| - 1] then [chunks[|chunks| - 1]] else []
  }

  lemma NoneTaken(linkOk: seq<bool>)
    ensures Taken([], linkOk) == []
  {}

  lemma TakenStep(chunks: seq<Wire>, linkOk: seq<bool>, idx: nat)
    requires idx < |chunks| <= |linkOk|
    ensures Taken(chunks[..idx + 1], linkOk) == Taken(chunks[..idx], linkOk) + if linkOk[idx] then [chunks[idx]] else []
  {
    assert chunks[..idx + 1][..idx] == chunks[..idx];
  }

  /** A link that takes everything loses nothing. */
  lemma {:induction false} AllTaken(chunks: seq<Wire>, linkOk: seq<bool>)
    requires |chunks| <= |linkOk| && forall i :: 0 <= i < |chunks| ==> linkOk[i]
    ensures Taken(chunks, linkOk) == chunks
    decreases |chunks|
  {
    if chunks != [] {
      AllTaken(chunks[..|chunks| - 1], linkOk);
      assert chunks[..|chunks| - 1] + [chunks[|chunks| - 1]] == chunks;
    }
  }

  method CutNotification(d: seq<Octet>, msgId: Octet, totalChunks: nat, idx: nat) returns (buf: Wire)
    requires totalChunks == C.NumChunks(|d|, KISS_CHUNK_PAYLOAD) <= 255 && idx < totalChunks
    ensures buf == WireChunk(d, msgId, KISS_CHUNK_PAYLOAD, idx)
  {
    WireChunkIs(d, msgId, KISS_CHUNK_PAYLOAD, idx);
    var offset := idx * KISS_CHUNK_PAYLOAD;
    var chunkLen := if offset + KISS_CHUNK_PAYLOAD <= |d| then KISS_CHUNK_PAYLOAD else |d| - offset;
    assert C.Min(offset + KISS_CHUNK_PAYLOAD, |d|) == offset + chunkLen;
    hide C.NumChunks, WireChunk;
    buf := [msgId, idx, totalChunks] + d[offset..offset + chunkLen];
  }

  lemma ChunksAre(frame: seq<Octet>, msgId: Octet, max: nat)
    requires max > 0 && C.NumChunks(|frame|, max) <= 255
    ensures (|frame| + max - 1) / max == C.NumChunks(|frame|, max)
    ensures |WireChunks(frame, msgId, max)| == C.NumChunks(|frame|, max)
    ensures forall k :: 0 <= k < C.NumChunks(|frame|, max) ==> WireChunks(frame, msgId, max)[k] == WireChunk(frame, msgId, max, k)
  {
    hide WireChunk;
  }

  /** `_chunk_kiss_frame`, whose capacity is mtu - 3 bytes a chunk and which sends an empty frame as one chunk. */
  method ChunkKissFrame(frame: seq<Octet>, mtu: nat, msgId: nat) returns (chunks: seq<Wire>)
    ensures var max := mtu - 3;
      chunks == if max <= 0 || C.NumChunks(|frame|, max) > 255 then []
                else if frame == [] then [[msgId % 256, 0, 1]]
                else WireChunks(frame, msgId % 256, max)
  {
    var max := mtu - 3;
    if max <= 0 {
      return [];
    }
    var total := (|frame| + max - 1) / max;
    assert total == C.NumChunks(|frame|, max);
    C.NoChunks(|frame|, max);
    hide C.NumChunks, WireChunk, WireChunks;
    if total == 0 {
      return [[msgId % 256, 0, 1]];
    }
    if total > 255 {
      return [];
    }
    chunks := CutFrame(frame, msgId % 256, max, total);
  }

  /** The loop of `_chunk_kiss_frame`; a Python slice stops at the end of the frame. */
  method CutFrame(frame: seq<Octet>, msgId: Octet, max: nat, total: Octet) returns (chunks: seq<Wire>)
    requires max > 0 && total == C.NumChunks(|frame|, max)
    ensures chunks == WireChunks(frame, msgId, max)
  {
    ChunksAre(frame, msgId, max);
    hide C.NumChunks, WireChunk, WireChunks;
    chunks := [];
    for idx := 0 to total
      invariant |chunks| == idx && forall k :: 0 <= k < idx ==> chunks[k] == WireChunk(frame, msgId, max, k)
    {
      var chunk := CutOne(frame, msgId, max, total, idx);
      chunks := chunks + [chunk];
    }
  }

  method CutOne(frame: seq<Octet>, msgId: Octet, max: nat, total: Octet, idx: nat) returns (chunk: Wire)
    requires max > 0 && total == C.NumChunks(|frame|, max) && idx < total
    ensures chunk == WireChunk(frame, msgId, max, idx)
  {
    WireChunkIs(frame, msgId, max, idx);
    var start := idx * max;
    MinIs(start + max, |frame|);
    hide *;
    chunk := [msgId, idx, total] + frame[start..(if start + max < |frame| then start + max else |frame|)];
  }

  // ---------------------------------------------------------------- receiving

  /** An entry of `_rx_pending`; the dict is the sequence of its entries, oldest first. */
  datatype Pending = Pending(id: Octet, chunks: seq<Wire>)

  datatype Bridge = Bridge(pending: seq<Pending>, delivered: seq<seq<Octet>>)

  function Lookup(pending: seq<Pending>, id: Octet): (p: nat)
    ensures p <= |pending| && (p < |pending| ==> pending[p].id == id)
    ensures forall k :: 0 <= k < p ==> pending[k].id != id
  {
    if pending == [] || pending[0].id == id then 0 else 1 + Lookup(pending[1..], id)
  }

  predicate HasIndex(chunks: seq<Wire>, idx: Octet) {
    exists k :: 0 <= k < |chunks| && chunks[k][1] == idx
  }

  /** Stable insertion into a list sorted by chunk index; `sorted` applies it to each chunk in turn. */
  function Insert(s: seq<Wire>, c: Wire): seq<Wire> {
    if s == [] || s[|s| - 1][1] <= c[1] then s + [c]
    else Insert(s[..|s| - 1], c) + [s[|s| - 1]]
  }

  function Sorted(chunks: seq<Wire>): seq<Wire> {
    if chunks == [] then [] else Insert(Sorted(chunks[..|chunks| - 1]), chunks[|chunks| - 1])
  }

  predicate InOrder(s: seq<Wire>) {
    forall k :: 0 <= k < |s| ==> s[k][1] == k
  }

  function Payloads(s: seq<Wire>): seq<Octet> {
    if s == [] then [] else Payloads(s[..|s| - 1]) + s[|s| - 1][3..]
  }

  function Reassembled(chunks: seq<Wire>): Option<seq<Octet>> {
    if chunks == [] || chunks[0][2] == 0 || |chunks| != chunks[0][2] || !InOrder(Sorted(chunks)) then None
    else Some(Payloads(Sorted(chunks)))
  }

  /** `_reassemble_kiss_frame`. */
  method ReassembleKissFrame(chunks: seq<Wire>) returns (r: Option<seq<Octet>>)
    ensures r == Reassembled(chunks)
  {
    if |chunks| == 0 {
      return None;
    }
    var total := chunks[0][2];
    if total == 0 || |chunks| != total {
      return None;
    }
    var sortedChunks := Sorted(chunks);
    var out := [];
    for i := 0 to |sortedChunks|
      invariant InOrder(sortedChunks[..i]) && out == Payloads(sortedChunks[..i])
    {
      var chunk := sortedChunks[i];
      if chunk[1] != i {
        return None;
      }
      assert sortedChunks[..i + 1][..i] == sortedChunks[..i];
      out := out + chunk[3..];
    }
    assert sortedChunks[..|sortedChunks|] == sortedChunks;
    return Some(out);
  }

  /** The table with an entry for the message, the oldest one making room when there are four. */
  function WithEntry(pending: seq<Pending>, id: Octet): (r: seq<Pending>)
    ensures Lookup(r, id) < |r|
  {
    if Lookup(pending, id) < |pending| then pending
    else
      var room := if |pending| >= MAX_PENDING then pending[1..] else pending;
      LookupNew(room, id);
      room + [Pending(id, [])]
  }

  lemma LookupNew(pending: seq<Pending>, id: Octet)
    requires forall k :: 0 <= k < |pending| ==> pending[k].id != id
    ensures Lookup(pending + [Pending(id, [])], id) == |pending|
  {
    hide Lookup;
    var longer := pending + [Pending(id, [])];
    assert longer[|pending|].id == id;
    assert forall k :: 0 <= k < |pending| ==> longer[k] == pending[k];
  }

  function Deliver(b: Bridge, r: Option<seq<Octet>>): Bridge {
    if r.Some? then b.(delivered := b.delivered + [r.value]) else b
  }

  /** The chunk's effect on its message's entry. */
  function Accept(b: Bridge, p: nat, c: Wire): (b': Bridge)
    requires p < |b.pending|
    ensures b.delivered <= b'.delivered
  {
    var entry := b.pending[p];
    if HasIndex(entry.chunks, c[1]) then b
    else
      var chunks := entry.chunks + [c];
      if |chunks| == c[2] then Deliver(b.(pending := b.pending[..p] + b.pending[p + 1..]), Reassembled(chunks))
      else b.(pending := b.pending[p := entry.(chunks := chunks)])
  }

  /** `_on_kiss_rx_notify`. */
  function Notify(b: Bridge, data: seq<Octet>): (b': Bridge)
    ensures b.delivered <= b'.delivered
  {
    if |data| < 3 || data[2] == 0 then b
    else if data[2] == 1 && data[1] == 0 then b.(delivered := b.delivered + [data[3..]])
    else
      var pending := WithEntry(b.pending, data[0]);
      Accept(b.(pending := pending), Lookup(pending, data[0]), data)
  }

  /** The loop over the chunks already received. */
  method FindIndex(chunks: seq<Wire>, idx: Octet) returns (found: bool)
    ensures found == HasIndex(chunks, idx)
  {
    for k := 0 to |chunks|
      invariant forall j :: 0 <= j < k ==> chunks[j][1] != idx
    {
      if chunks[k][1] == idx {
        return true;
      }
    }
    return false;
  }

  class KissBridge {
    var rxPending: seq<Pending>
    var delivered: seq<seq<Octet>>

    ghost function State(): Bridge
      reads this
    {
      Bridge(rxPending, delivered)
    }

    constructor ()
      ensures State() == Bridge([], [])
    {
      rxPending, delivered := [], [];
    }

    /** An entry for the message, the oldest one evicted if there are four. */
    method EnsureEntry(msgId: Octet)
      modifies this`rxPending
      ensures rxPending == WithEntry(old(rxPending), msgId)
    {
      if Lookup(rxPending, msgId) == |rxPending| {
        var room := if |rxPending| >= MAX_PENDING then rxPending[1..] else rxPending;
        rxPending := room + [Pending(msgId, [])];
      }
    }

    /** The chunk appended to entry p, and the message handed over when that makes it complete. */
    method AppendChunk(p: nat, chunk: Wire)
      requires p < |rxPending| && !HasIndex(rxPending[p].chunks, chunk[1])
      modifies this
      ensures State() == Accept(old(State()), p, chunk)
    {
      hide Reassembled, HasIndex;
      var chunkList := rxPending[p].chunks + [chunk];
      if |chunkList| == chunk[2] {
        var result := ReassembleKissFrame(chunkList);
        rxPending := rxPending[..p] + rxPending[p + 1..];
        if result.Some? {
          delivered := delivered + [result.value];
        }
      } else {
        rxPending := rxPending[p := rxPending[p].(chunks := chunkList)];
      }
    }

    method OnKissRxNotify(data: seq<Octet>)
      modifies this
      ensures State() == Notify(old(State()), data)
    {
      hide Lookup, Reassembled, WithEntry, HasIndex;
      if |data| < 3 {
        return;
      }
      var msgId, chunkIdx, chunkTotal := data[0], data[1], data[2];
      if chunkTotal == 0 {
        return;
      }
      if chunkTotal == 1 && chunkIdx == 0 {
        delivered := delivered + [data[3..]];
        return;
      }
      EnsureEntry(msgId);
      var p := Lookup(rxPending, msgId);
      var duplicate := FindIndex(rxPending[p].chunks, chunkIdx);
      if !duplicate {
        AppendChunk(p, data);
      }
    }

    /** What `disconnect` does to the table. */
    method Disconnect()
      modifies this
      ensures State() == old(State()).(pending := [])
    {
      rxPending := [];
    }
  }
}
