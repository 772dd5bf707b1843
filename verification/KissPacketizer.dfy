/**
 * The desktop side's framing: class KissPacketizer of app/desktop_test/kiss_bridge.py:71-234.
 * `frames` records the calls of on_frame.
 */
module KissPacketizer {
  import opened Bytes
  import opened Kiss
  import opened Pieces
  import F = KissFramer

  method Encode(data: seq<Octet>) returns (out: seq<Octet>)
    ensures out == Framed(data)
  {
    hide Escaped;
    out := [FEND, CMD_DATA];
    assert data[0..] == data;
    for i := 0 to |data|
      invariant [FEND] + Body(data) == out + Escaped(data[i..])
    {
      F.EscapedRest(data, i);
      F.OneMore(out, EscapeOne(data[i]), Escaped(data[i + 1..]));
      if data[i] == FEND {
        out := out + [FESC, TFEND];
      } else if data[i] == FESC {
        out := out + [FESC, TFESC];
      } else {
        out := out + [data[i]];
      }
    }
    Unescapable(data);
    out := out + [FEND];
  }

  lemma Unescapable(data: seq<Octet>)
    ensures Escaped(data[|data|..]) == []
  {}

  method UnescapeBody(body: seq<Octet>) returns (r: Option<seq<Octet>>)
    ensures r == Unescaped(body)
  {
    hide Unescaped;
    var ax25, i := [], 0;
    F.UnescapedEnds(body, []);
    while i < |body|
      invariant i <= |body| && Unescaped(body) == F.After(ax25, Unescaped(body[i..]))
    {
      F.UnescapedRest(body, i, ax25);
      var b := body[i];
      if b == FESC {
        i := i + 1;
        if i >= |body| {
          return None;
        }
        if body[i] == TFEND {
          ax25 := ax25 + [FEND];
        } else if body[i] == TFESC {
          ax25 := ax25 + [FESC];
        } else {
          return None;
        }
      } else if b == FEND {
        return None;
      } else {
        ax25 := ax25 + [b];
      }
      i := i + 1;
    }
    F.UnescapedEnds(body, ax25);
    return Some(ax25);
  }

  /** Both decoders are proved against the same function, so they agree on every input. */
  method DecodeWithCmd(frame: seq<Octet>) returns (r: Option<(Octet, seq<Octet>)>)
    ensures r == match Decoded(frame)
      case Malformed => None
      case Command(cmd) => Some((cmd, []))
      case Data(payload) => Some((CMD_DATA, payload))
  {
    hide Stripped, Unescaped;
    var start, end := F.StripDelimiters(frame);
    if start >= end {
      return None;
    }
    var cmd := frame[start];
    if cmd != CMD_DATA {
      return Some((cmd, []));
    }
    var body := frame[start + 1..end];
    assert body == Stripped(frame)[1..];
    if |body| > MAX_FRAME {
      return None;
    }
    var ax25 := UnescapeBody(body);
    if ax25.None? {
      return None;
    }
    return Some((cmd, ax25.value));
  }

  // ---------------------------------------------------------------- the stream

  datatype Stream = Stream(buf: seq<Octet>, inFrame: bool, errors: nat, frames: seq<seq<Octet>>)

  const BUF_LIMIT := MAX_FRAME + 4

  function FeedByte(s: Stream, b: Octet): Stream {
    if b == FEND then
      if s.inFrame && s.buf != [] then Stream([], false, s.errors, s.frames + [s.buf])
      else s.(buf := [], inFrame := true)
    else if !s.inFrame then s
    else if |s.buf| > BUF_LIMIT then Stream([], false, s.errors + 1, s.frames)
    else s.(buf := s.buf + [b])
  }

  function FeedBytes(s: Stream, data: seq<Octet>): Stream
    decreases |data|
  {
    if data == [] then s else FeedBytes(FeedByte(s, data[0]), data[1..])
  }

  class KissPacketizer {
    var buf: seq<Octet>
    var inFrame: bool
    var errorCount: nat
    var frames: seq<seq<Octet>>

    ghost function State(): Stream
      reads this
    {
      Stream(buf, inFrame, errorCount, frames)
    }

    constructor ()
      ensures State() == Stream([], false, 0, [])
    {
      buf, inFrame, errorCount, frames := [], false, 0, [];
    }

    method Feed(data: seq<Octet>)
      modifies this
      ensures State() == FeedBytes(old(State()), data)
    {
      assert data[0..] == data;
      for i := 0 to |data|
        invariant FeedBytes(State(), data[i..]) == FeedBytes(old(State()), data)
      {
        assert data[i..][1..] == data[i + 1..];
        if data[i] == FEND {
          if inFrame && |buf| > 0 {
            frames := frames + [buf];
            buf := [];
            inFrame := false;
          } else {
            buf := [];
            inFrame := true;
          }
        } else if inFrame {
          if |buf| > BUF_LIMIT {
            errorCount := errorCount + 1;
            buf := [];
            inFrame := false;
          } else {
            buf := buf + [data[i]];
          }
        }
      }
    }

    method Reset()
      modifies this
      ensures State() == old(State()).(buf := [], inFrame := false)
    {
      buf, inFrame := [], false;
    }
  }

  /** Cutting the stream into pieces makes no difference. */
  lemma {:induction false} FeedConcat(s: Stream, a: seq<Octet>, b: seq<Octet>)
    ensures FeedBytes(s, a + b) == FeedBytes(FeedBytes(s, a), b)
    decreases |a|
  {
    if a == [] {
      assert a + b == b;
    } else {
      assert (a + b)[1..] == a[1..] + b;
      FeedConcat(FeedByte(s, a[0]), a[1..], b);
    }
  }

  lemma FeedOne(s: Stream, b: Octet)
    ensures FeedBytes(s, [b]) == FeedByte(s, b)
  {
    assert [b][1..] == [];
  }

  /** Feeding the pieces of a stream one after the other. */
  function FeedPieces(s: Stream, pieces: seq<seq<Octet>>): Stream
    decreases |pieces|
  {
    if pieces == [] then s else FeedPieces(FeedBytes(s, pieces[0]), pieces[1..])
  }

  lemma {:induction false} PiecesJoin(s: Stream, pieces: seq<seq<Octet>>)
    ensures FeedPieces(s, pieces) == FeedBytes(s, Joined(pieces))
    decreases |pieces|
  {
    if pieces != [] {
      PiecesJoin(FeedBytes(s, pieces[0]), pieces[1..]);
      FeedConcat(s, pieces[0], Joined(pieces[1..]));
    }
  }

  /** Bytes between frames are ignored. */
  lemma {:induction false} Ignored(s: Stream, data: seq<Octet>)
    requires !s.inFrame && FEND !in data
    ensures FeedBytes(s, data) == s
    decreases |data|
  {
    if data != [] {
      Ignored(s, data[1..]);
    }
  }

  /** A body without FEND is collected up to the buffer limit; one byte more discards it. */
  lemma {:induction false} Collects(s: Stream, data: seq<Octet>)
    requires s.inFrame && |s.buf| <= BUF_LIMIT + 1 && FEND !in data
    ensures FeedBytes(s, data) ==
      if |s.buf| + |data| <= BUF_LIMIT + 1 then s.(buf := s.buf + data) else Stream([], false, s.errors + 1, s.frames)
    decreases |data|
  {
    if data == [] {
      assert s.buf + data == s.buf;
    } else {
      var t := FeedByte(s, data[0]);
      if |s.buf| > BUF_LIMIT {
        Ignored(t, data[1..]);
      } else {
        Collects(t, data[1..]);
        assert s.buf + [data[0]] + data[1..] == s.buf + data;
      }
    }
  }

  /** Ready for a frame: nothing collected. */
  predicate Clean(s: Stream) {
    s.buf == []
  }

  /** Whether the packetizer passes a frame on; the decoders' limit is four bytes lower. */
  predicate Passes(data: seq<Octet>) {
    |data| + Specials(data) <= 334
  }

  function AfterFrame(s: Stream, data: seq<Octet>): Stream {
    if Passes(data) then Stream([], false, s.errors, s.frames + [Body(data)])
    else Stream([], true, s.errors + 1, s.frames)
  }

  /** One encoded frame in a clean state: its body is delivered, or it is discarded and counted. */
  lemma FrameFed(s: Stream, data: seq<Octet>)
    requires Clean(s)
    ensures FeedBytes(s, Framed(data)) == AfterFrame(s, data) && Clean(AfterFrame(s, data))
  {
    hide Escaped, FeedBytes, Specials;
    EscapedLength(data);
    var body := Body(data);
    FeedConcat(s, [FEND] + body, [FEND]);
    FeedConcat(s, [FEND], body);
    FeedOne(s, FEND);
    var started := FeedByte(s, FEND);
    Collects(started, body);
    FeedOne(FeedBytes(started, body), FEND);
    assert [] + body == body;
  }

  function Frames(xs: seq<seq<Octet>>): seq<seq<Octet>> {
    if xs == [] then [] else [Framed(xs[0])] + Frames(xs[1..])
  }

  /** The bodies of the frames that pass, in order. */
  function Passed(xs: seq<seq<Octet>>): seq<seq<Octet>> {
    if xs == [] then [] else (if Passes(xs[0]) then [Body(xs[0])] else []) + Passed(xs[1..])
  }

  function Oversize(xs: seq<seq<Octet>>): nat {
    if xs == [] then 0 else (if Passes(xs[0]) then 0 else 1) + Oversize(xs[1..])
  }

  lemma FramesCons(xs: seq<seq<Octet>>)
    requires xs != []
    ensures Joined(Frames(xs)) == Framed(xs[0]) + Joined(Frames(xs[1..]))
    ensures Passed(xs) == (if Passes(xs[0]) then [Body(xs[0])] else []) + Passed(xs[1..])
    ensures Oversize(xs) == (if Passes(xs[0]) then 0 else 1) + Oversize(xs[1..])
  {
    hide Framed, Body, Passes;
    assert Frames(xs)[1..] == Frames(xs[1..]);
  }

  lemma Regroup(a: seq<seq<Octet>>, b: seq<seq<Octet>>, c: seq<seq<Octet>>)
    ensures a + b + c == a + (b + c) && a + [] == a
  {}

  lemma FirstFed(s: Stream, x: seq<Octet>)
    requires Clean(s)
    ensures var t := AfterFrame(s, x);
      Clean(t) && t.frames == s.frames + (if Passes(x) then [Body(x)] else []) && t.errors == s.errors + if Passes(x) then 0 else 1
  {
    hide Body, Passes;
    Regroup(s.frames, [], []);
  }

  lemma {:induction false} FramesFed(s: Stream, xs: seq<seq<Octet>>)
    requires Clean(s)
    ensures var t := FeedBytes(s, Joined(Frames(xs)));
      Clean(t) && t.frames == s.frames + Passed(xs) && t.errors == s.errors + Oversize(xs)
    decreases |xs|
  {
    if xs == [] {
      Regroup(s.frames, [], []);
    } else {
      FramesCons(xs);
      FrameFed(s, xs[0]);
      FirstFed(s, xs[0]);
      hide FeedBytes, Framed, Body, Passes, AfterFrame, Passed, Oversize, Frames, Joined, Clean;
      var t := AfterFrame(s, xs[0]);
      FeedConcat(s, Framed(xs[0]), Joined(Frames(xs[1..])));
      FramesFed(t, xs[1..]);
      Regroup(s.frames, if Passes(xs[0]) then [Body(xs[0])] else [], Passed(xs[1..]));
    }
  }

  /**
   * The stream law, with no bound on sizes: however the concatenation of encoded frames is cut
   * into pieces, exactly the frames within the buffer limit are delivered, in order, and every
   * other one is discarded and counted once without disturbing its neighbours.
   */
  lemma StreamDelivers(s: Stream, xs: seq<seq<Octet>>, pieces: seq<seq<Octet>>)
    requires Clean(s) && Joined(pieces) == Joined(Frames(xs))
    ensures var t := FeedPieces(s, pieces);
      Clean(t) && t.frames == s.frames + Passed(xs) && t.errors == s.errors + Oversize(xs)
  {
    PiecesJoin(s, pieces);
    FramesFed(s, xs);
  }

  /** When every payload is within the decoders' limit, the i-th delivery decodes to the i-th payload. */
  lemma {:induction false} PassedDecode(xs: seq<seq<Octet>>, i: nat)
    requires forall k :: 0 <= k < |xs| ==> |xs[k]| + Specials(xs[k]) <= MAX_FRAME
    requires i < |xs|
    ensures |Passed(xs)| == |xs| && Decoded(Passed(xs)[i]) == Data(xs[i])
    decreases |xs|
  {
    hide Specials, Decoded, Body;
    assert Passes(xs[0]);
    if |xs| == 1 {
      assert Passed(xs[1..]) == [];
      EncodeDecode(xs[0]);
    } else {
      PassedDecode(xs[1..], if i == 0 then 0 else i - 1);
      EncodeDecode(xs[i]);
    }
  }

  lemma StreamRoundTrip(s: Stream, xs: seq<seq<Octet>>, pieces: seq<seq<Octet>>, i: nat)
    requires Clean(s) && Joined(pieces) == Joined(Frames(xs)) && i < |xs|
    requires forall k :: 0 <= k < |xs| ==> |xs[k]| + Specials(xs[k]) <= MAX_FRAME
    ensures var t := FeedPieces(s, pieces);
      |t.frames| == |s.frames| + |xs| && Decoded(t.frames[|s.frames| + i]) == Data(xs[i])
  {
    hide Decoded, Specials, FeedPieces, Passed;
    StreamDelivers(s, xs, pieces);
    PassedDecode(xs, i);
  }

  /** From any state whatever, an idle FEND makes the next frame arrive; at most one leftover comes before it. */
  lemma Resynchronises(s: Stream, data: seq<Octet>)
    requires Passes(data)
    ensures var t := FeedBytes(s, [FEND] + Framed(data));
      t.frames == s.frames + (if s.inFrame && s.buf != [] then [s.buf] else []) + [Body(data)]
      && t.buf == [] && !t.inFrame && t.errors == s.errors
  {
    hide FeedBytes, Framed, Body, Passes;
    FeedConcat(s, [FEND], Framed(data));
    FeedOne(s, FEND);
    FrameFed(FeedByte(s, FEND), data);
    assert s.frames + [] == s.frames;
  }

  /**
   * Without one, a frame is lost whenever something was being collected: its own leading FEND
   * ends the leftover, and its body falls between frames.
   */
  lemma LostWithoutIdle(s: Stream, data: seq<Octet>)
    requires s.inFrame && s.buf != []
    ensures FeedBytes(s, Framed(data)) == Stream([], true, s.errors, s.frames + [s.buf])
  {
    hide Escaped, FeedBytes;
    EscapedLength(data);
    var body := Body(data);
    FeedConcat(s, [FEND] + body, [FEND]);
    FeedConcat(s, [FEND], body);
    FeedOne(s, FEND);
    var closed := FeedByte(s, FEND);
    Ignored(closed, body);
    FeedOne(closed, FEND);
  }

  /** Two frames that share one delimiter, as KISS allows: the second is lost. */
  lemma SharedDelimiterLosesFrame(s: Stream, x: seq<Octet>, y: seq<Octet>)
    requires Clean(s) && Passes(x)
    ensures var t := FeedBytes(s, Framed(x) + (Body(y) + [FEND]));
      t.frames == s.frames + [Body(x)] && t.inFrame && t.buf == []
  {
    hide FeedBytes, Framed, Passes, Escaped;
    EscapedLength(y);
    FeedConcat(s, Framed(x), Body(y) + [FEND]);
    FrameFed(s, x);
    var t := AfterFrame(s, x);
    FeedConcat(t, Body(y), [FEND]);
    Ignored(t, Body(y));
    FeedOne(t, FEND);
  }
}
