/**
 * A received AX.25 frame on its way to a desktop client: firmware/main/main.cpp:2686-2695,
 * BleServer.cpp:705-758 and app/desktop_test/kiss_bridge.py:142-199, 416-485, one after the other.
 */
module KissLink {
  import opened Bytes
  import opened Kiss
  import opened KissBridge
  import opened KissDelivery
  import opened KissReassembly
  import opened Sets
  import C = Chunking
  import Framer = KissFramer
  import Packetizer = KissPacketizer

  const KISS_BUF := MAX_FRAME * 2 + 4

  lemma FitsBuffer(data: seq<Octet>)
    requires |data| <= MAX_FRAME
    ensures 0 < |Framed(data)| <= KISS_BUF && Sendable(Framed(data), KISS_CHUNK_PAYLOAD)
  {
    hide Specials, Framed;
    EncodeDecode(data);
  }

  lemma NotAllBelow(k: nat, n: nat)
    ensures Covers(Below(k), n) <==> k >= n
  {
    if k < n {
      assert k !in Below(k);
    }
  }

  /** The link hands the chunks over in order. */
  method NotifyAll(bridge: KissBridge, chunks: seq<Wire>, ghost frame: seq<Octet>, ghost msgId: Octet)
    requires Sendable(frame, KISS_CHUNK_PAYLOAD) && chunks == WireChunks(frame, msgId, KISS_CHUNK_PAYLOAD)
    requires Tidy(bridge.State().pending) && Absent(bridge.State().pending, msgId)
    modifies bridge
    ensures Done(old(bridge.State()), bridge.State(), frame, msgId)
  {
    hide Sendable, WireChunk, Notify, C.NumChunks, Covers, Gathering, Tidy, Absent, Done;
    SendableMeans(frame, KISS_CHUNK_PAYLOAD);
    ChunksAre(frame, msgId, KISS_CHUNK_PAYLOAD);
    var n := |chunks|;
    ghost var start := bridge.State();
    ghost var m := Whole(frame, msgId, KISS_CHUNK_PAYLOAD);
    WholePayload(frame, msgId, KISS_CHUNK_PAYLOAD);
    NotAllBelow(0, n);
    NothingYet(start, frame, msgId, KISS_CHUNK_PAYLOAD, {});
    for k := 0 to n
      invariant if k < n then bridge.delivered == start.delivered && Gathering(bridge.State(), m, Below(k), {})
                else Done(start, bridge.State(), frame, msgId)
    {
      OursStep(bridge.State(), m, Below(k), {}, k);
      NotAllBelow(k + 1, n);
      DoneFrom(start, bridge.State(), Notify(bridge.State(), chunks[k]), frame, msgId);
      bridge.OnKissRxNotify(chunks[k]);
    }
  }

  lemma DoneFrom(start: Bridge, mid: Bridge, end: Bridge, frame: seq<Octet>, msgId: Octet)
    ensures mid.delivered == start.delivered && Done(mid, end, frame, msgId) ==> Done(start, end, frame, msgId)
  {}

  /** The whole frame reaches the client whatever its content; it decodes exactly when its escaped form fits. */
  method Downlink(data: seq<Octet>, server: KissRxNotifier, bridge: KissBridge) returns (r: Option<(Octet, seq<Octet>)>)
    requires |data| <= MAX_FRAME
    requires Tidy(bridge.State().pending) && Absent(bridge.State().pending, (server.kissRxMsgId + 1) % 256)
    modifies server, bridge
    ensures bridge.delivered == old(bridge.delivered) + [Framed(data)]
    ensures Tidy(bridge.State().pending) && Absent(bridge.State().pending, server.kissRxMsgId)
    ensures r == if |data| + Specials(data) <= MAX_FRAME then Some((CMD_DATA, data)) else None
  {
    hide Specials, Framed, Decoded, Sendable, C.NumChunks, WireChunks, Tidy, Absent;
    FitsBuffer(data);
    EncodeDecode(data);
    var kissBuf := new Octet[KISS_BUF];
    var kissLen := Framer.Encode(data, kissBuf);
    var frame := kissBuf[..kissLen];
    SendableMeans(frame, KISS_CHUNK_PAYLOAD);
    var linkOk := seq(255, _ => true);
    var chunks, ok := server.NotifyKissRx(frame, true, linkOk);
    ChunksAre(frame, server.kissRxMsgId, KISS_CHUNK_PAYLOAD);
    AllTaken(WireChunks(frame, server.kissRxMsgId, KISS_CHUNK_PAYLOAD), linkOk);
    NotifyAll(bridge, chunks, frame, server.kissRxMsgId);
    r := Packetizer.DecodeWithCmd(bridge.delivered[|bridge.delivered| - 1]);
  }

  lemma SendableMeans(frame: seq<Octet>, max: nat)
    requires Sendable(frame, max)
    ensures max > 0 && 0 < C.NumChunks(|frame|, max) <= 255
  {}
}
