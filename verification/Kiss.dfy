/**
 * KISS framing: what firmware/components/kiss/KissFramer.cpp and the framing half of
 * app/desktop_test/kiss_bridge.py compute, and the laws the two sides need of each other.
 */
module Kiss {
  import opened Bytes

  const FEND: Octet := 0xC0
  const FESC: Octet := 0xDB
  const TFEND: Octet := 0xDC
  const TFESC: Octet := 0xDD
  const CMD_DATA: Octet := 0x00
  const MAX_FRAME := 330

  // ---------------------------------------------------------------- escaping

  function EscapeOne(b: Octet): seq<Octet> {
    if b == FEND then [FESC, TFEND] else if b == FESC then [FESC, TFESC] else [b]
  }

  function Escaped(data: seq<Octet>): seq<Octet> {
    if data == [] then [] else EscapeOne(data[0]) + Escaped(data[1..])
  }

  function Prepend(b: Octet, rest: Option<seq<Octet>>): Option<seq<Octet>> {
    match rest
    case None => None
    case Some(s) => Some([b] + s)
  }

  /** None for a raw FEND, a trailing FESC or an unknown escape sequence. */
  function Unescaped(body: seq<Octet>): Option<seq<Octet>> {
    if body == [] then Some([])
    else if body[0] == FESC then
      if |body| == 1 then None
      else if body[1] == TFEND then Prepend(FEND, Unescaped(body[2..]))
      else if body[1] == TFESC then Prepend(FESC, Unescaped(body[2..]))
      else None
    else if body[0] == FEND then None
    else Prepend(body[0], Unescaped(body[1..]))
  }

  /** How many bytes need an escape. */
  function Specials(data: seq<Octet>): nat {
    if data == [] then 0
    else (if data[0] == FEND || data[0] == FESC then 1 else 0) + Specials(data[1..])
  }

  lemma {:induction false} EscapedLength(data: seq<Octet>)
    ensures |Escaped(data)| == |data| + Specials(data) && Specials(data) <= |data|
    ensures FEND !in Escaped(data)
  {
    if data != [] {
      EscapedLength(data[1..]);
    }
  }

  lemma {:induction false} UnescapeInvertsEscape(data: seq<Octet>)
    ensures Unescaped(Escaped(data)) == Some(data)
  {
    if data != [] {
      UnescapeInvertsEscape(data[1..]);
      var one, rest := EscapeOne(data[0]), Escaped(data[1..]);
      assert (one + rest)[|one|..] == rest;
      assert [data[0]] + data[1..] == data;
    }
  }

  lemma {:induction false} EscapeInvertsUnescape(body: seq<Octet>)
    requires Unescaped(body).Some?
    ensures Escaped(Unescaped(body).value) == body
    decreases |body|
  {
    if body != [] {
      var data := Unescaped(body).value;
      if body[0] == FESC {
        EscapeInvertsUnescape(body[2..]);
        assert data[1..] == Unescaped(body[2..]).value;
      } else {
        EscapeInvertsUnescape(body[1..]);
        assert data[1..] == Unescaped(body[1..]).value;
      }
    }
  }

  /** A body unescapes to data exactly when it is data escaped: nothing else is accepted. */
  lemma UnescapedIff(body: seq<Octet>, data: seq<Octet>)
    ensures Unescaped(body) == Some(data) <==> body == Escaped(data)
  {
    UnescapeInvertsEscape(data);
    if Unescaped(body).Some? {
      EscapeInvertsUnescape(body);
    }
  }

  // ---------------------------------------------------------------- frames

  /** A data frame without its delimiters. */
  function Body(data: seq<Octet>): seq<Octet> {
    [CMD_DATA] + Escaped(data)
  }

  /** What `encode` sends. */
  function Framed(data: seq<Octet>): seq<Octet> {
    [FEND] + Body(data) + [FEND]
  }

  function Fends(n: nat): seq<Octet> {
    if n == 0 then [] else [FEND] + Fends(n - 1)
  }

  function LeadingFends(s: seq<Octet>): (n: nat)
    ensures n <= |s|
  {
    if s == [] || s[0] != FEND then 0 else 1 + LeadingFends(s[1..])
  }

  function TrailingFends(s: seq<Octet>): (n: nat)
    ensures n <= |s|
  {
    if s == [] || s[|s| - 1] != FEND then 0 else 1 + TrailingFends(s[..|s| - 1])
  }

  function Stripped(frame: seq<Octet>): seq<Octet> {
    var rest := frame[LeadingFends(frame)..];
    rest[..|rest| - TrailingFends(rest)]
  }

  datatype Outcome = Malformed | Command(cmd: Octet) | Data(payload: seq<Octet>)

  function DecodedBody(body: seq<Octet>): Outcome {
    if |body| > MAX_FRAME then Malformed
    else
      match Unescaped(body)
      case None => Malformed
      case Some(data) => Data(data)
  }

  /** What a decoder makes of a frame. The limit is on the escaped body. */
  function Decoded(frame: seq<Octet>): Outcome {
    var content := Stripped(frame);
    if content == [] then Malformed
    else if content[0] != CMD_DATA then Command(content[0])
    else DecodedBody(content[1..])
  }

  lemma {:induction false} StripFront(k: nat, s: seq<Octet>)
    requires s != [] && s[0] != FEND
    ensures |Fends(k)| == k && LeadingFends(Fends(k) + s) == k && (Fends(k) + s)[k..] == s
  {
    if k > 0 {
      StripFront(k - 1, s);
      assert (Fends(k) + s)[1..] == Fends(k - 1) + s;
    } else {
      assert Fends(0) + s == s;
    }
  }

  lemma {:induction false} StripBack(s: seq<Octet>, m: nat)
    requires s != [] && s[|s| - 1] != FEND
    ensures |Fends(m)| == m && TrailingFends(s + Fends(m)) == m && (s + Fends(m))[..|s|] == s
  {
    if m > 0 {
      StripBack(s, m - 1);
      FendsSnoc(m - 1);
      assert (s + Fends(m))[..|s| + m - 1] == s + Fends(m - 1);
    } else {
      assert s + Fends(0) == s;
    }
  }

  lemma {:induction false} FendsSnoc(n: nat)
    ensures |Fends(n)| == n
    ensures Fends(n + 1) == Fends(n) + [FEND]
  {
    if n > 0 {
      FendsSnoc(n - 1);
      assert [FEND] + Fends(n) == [FEND] + (Fends(n - 1) + [FEND]);
    }
  }

  lemma {:induction false} FrontIsFends(s: seq<Octet>)
    ensures s[..LeadingFends(s)] == Fends(LeadingFends(s))
    ensures LeadingFends(s) < |s| ==> s[LeadingFends(s)] != FEND
  {
    if s != [] && s[0] == FEND {
      FrontIsFends(s[1..]);
      var n := LeadingFends(s[1..]);
      assert s[..n + 1] == [FEND] + s[1..][..n];
    }
  }

  lemma {:induction false} BackIsFends(s: seq<Octet>)
    ensures var m := TrailingFends(s);
      s[|s| - m..] == Fends(m) && (m < |s| ==> s[|s| - m - 1] != FEND)
  {
    hide Fends;
    FendsSnoc(0);
    if s != [] && s[|s| - 1] == FEND {
      var t := s[..|s| - 1];
      BackIsFends(t);
      var m := TrailingFends(t);
      FendsSnoc(m);
      LastApart(s, m);
    }
  }

  lemma LastApart(s: seq<Octet>, m: nat)
    requires m < |s|
    ensures var t := s[..|s| - 1]; s[|s| - m - 1..] == t[|t| - m..] + [s[|s| - 1]]
  {}

  lemma StripFends(k: nat, content: seq<Octet>, m: nat)
    requires content != [] && content[0] != FEND && content[|content| - 1] != FEND
    ensures Stripped(Fends(k) + content + Fends(m)) == content
  {
    hide *;
    var s := content + Fends(m);
    assert Fends(k) + content + Fends(m) == Fends(k) + s;
    StripFront(k, s);
    StripBack(content, m);
    StrippedIs(Fends(k) + s);
  }

  lemma StrippedFrame(frame: seq<Octet>) returns (k: nat, m: nat)
    requires Stripped(frame) != []
    ensures frame == Fends(k) + Stripped(frame) + Fends(m)
  {
    hide *;
    k := LeadingFends(frame);
    m := TrailingFends(frame[k..]);
    FrontIsFends(frame);
    BackIsFends(frame[k..]);
    StrippedIs(frame);
    ThreeParts(frame, k, m);
  }

  lemma ThreeParts(s: seq<Octet>, k: nat, m: nat)
    requires k + m <= |s|
    ensures var rest := s[k..]; s == s[..k] + rest[..|rest| - m] + rest[|rest| - m..]
  {}

  lemma StrippedIs(frame: seq<Octet>)
    ensures var rest := frame[LeadingFends(frame)..]; Stripped(frame) == rest[..|rest| - TrailingFends(rest)]
  {}

  ghost predicate DelimitedBy(frame: seq<Octet>, content: seq<Octet>, k: nat, m: nat) {
    frame == Fends(k) + content + Fends(m)
  }

  /**
   * A frame decodes to a payload exactly when it is that payload escaped, behind a data command
   * byte and between any numbers of delimiters, and the escaped form fits the limit.
   */
  lemma DecodesTo(frame: seq<Octet>, data: seq<Octet>)
    ensures Decoded(frame) == Data(data)
      <==> |Escaped(data)| <= MAX_FRAME && exists k: nat, m: nat :: DelimitedBy(frame, Body(data), k, m)
  {
    hide Escaped, Unescaped, Stripped, Fends;
    EscapedLength(data);
    if Decoded(frame) == Data(data) {
      var k, m := StrippedFrame(frame);
      UnescapedIff(Stripped(frame)[1..], data);
      assert Stripped(frame) == Body(data);
      assert DelimitedBy(frame, Body(data), k, m);
    }
    if |Escaped(data)| <= MAX_FRAME && exists k: nat, m: nat :: DelimitedBy(frame, Body(data), k, m) {
      var k: nat, m: nat :| DelimitedBy(frame, Body(data), k, m);
      StripFends(k, Body(data), m);
      assert Body(data)[1..] == Escaped(data);
      UnescapedIff(Escaped(data), data);
    }
  }

  /** A frame's content: what is left between the delimiters, not itself ending in one. */
  predicate Content(content: seq<Octet>) {
    content != [] && content[0] != 0xC0 && content[|content| - 1] != 0xC0
  }

  lemma StrippedContent(frame: seq<Octet>)
    requires Stripped(frame) != []
    ensures Content(Stripped(frame))
  {
    var k := LeadingFends(frame);
    var rest := frame[k..];
    FrontIsFends(frame);
    BackIsFends(rest);
    hide Fends, LeadingFends, TrailingFends;
    assert rest[0] == frame[k];
  }

  lemma {:induction false} AllFends(k: nat)
    ensures |Fends(k)| == k && Stripped(Fends(k)) == []
  {
    LeadingAll(k);
    hide Fends, LeadingFends;
    assert Fends(k)[k..] == [];
  }

  lemma {:induction false} LeadingAll(k: nat)
    ensures |Fends(k)| == k && LeadingFends(Fends(k)) == k
  {
    if k > 0 {
      LeadingAll(k - 1);
      assert Fends(k)[1..] == Fends(k - 1);
    }
  }

  lemma NothingStripped(frame: seq<Octet>)
    requires Stripped(frame) == []
    ensures exists k: nat :: frame == Fends(k)
  {
    var k := LeadingFends(frame);
    FrontIsFends(frame);
    BackIsFends(frame[k..]);
    hide Fends, LeadingFends, TrailingFends;
    NotAllTrailing(frame[k..]);
    assert k == |frame|;
    assert frame[..k] == frame;
  }

  lemma NotAllTrailing(s: seq<Octet>)
    ensures s != [] && s[0] != FEND ==> TrailingFends(s) < |s|
  {
    BackIsFends(s);
    var m := TrailingFends(s);
    assert m == |s| ==> s[|s| - m..] == s;
  }

  /**
   * Every frame is either nothing but delimiters, and malformed; or its first byte between them is
   * the command, and any but 0 makes it a command frame; or the rest is the escaped payload.
   */
  lemma OutcomeOf(frame: seq<Octet>)
    ensures Stripped(frame) == [] <==> exists k: nat :: frame == Fends(k)
    ensures (exists k: nat :: frame == Fends(k)) ==> Decoded(frame) == Malformed
    ensures forall content: seq<Octet>, k: nat, m: nat :: (Content(content) && DelimitedBy(frame, content, k, m) ==>
      Stripped(frame) == content
      && (content[0] != 0x00 ==> Decoded(frame) == Command(content[0]))
      && (content[0] == 0x00 ==> Decoded(frame) == DecodedBody(content[1..])))
    ensures Stripped(frame) != [] ==> Content(Stripped(frame)) && exists k: nat, m: nat :: DelimitedBy(frame, Stripped(frame), k, m)
  {
    hide Stripped, Fends, DecodedBody;
    if exists k: nat :: frame == Fends(k) {
      var k: nat :| frame == Fends(k);
      AllFends(k);
    }
    if Stripped(frame) == [] {
      NothingStripped(frame);
    } else {
      StrippedContent(frame);
      var k, m := StrippedFrame(frame);
      assert DelimitedBy(frame, Stripped(frame), k, m);
    }
    forall content: seq<Octet>, k: nat, m: nat | Content(content) && DelimitedBy(frame, content, k, m)
      ensures Stripped(frame) == content
    {
      StripFends(k, content, m);
    }
  }

  /** A data body is refused exactly when it is over 330 bytes long or is not the escaped form of anything. */
  lemma BodyRefused(body: seq<Octet>)
    ensures DecodedBody(body) == Malformed <==> |body| > 330 || forall data :: body != Escaped(data)
    ensures DecodedBody(body) == Malformed || DecodedBody(body).Data?
  {
    forall data ensures Unescaped(body) == Some(data) <==> body == Escaped(data) {
      UnescapedIff(body, data);
    }
    hide Escaped, Unescaped;
    if Unescaped(body).Some? {
      assert body == Escaped(Unescaped(body).value);
    }
  }

  /** The bytes on the wire. */
  lemma WireBytes()
    ensures Framed([0xC0, 0xDB, 0x41]) == [0xC0, 0x00, 0xDB, 0xDC, 0xDB, 0xDD, 0x41, 0xC0]
  {
    assert [0xC0, 0xDB, 0x41][1..] == [0xDB, 0x41] && [0xDB, 0x41][1..] == [0x41] && [0x41][1..] == [];
    assert Escaped([0x41]) == [0x41];
    assert Escaped([0xDB, 0x41]) == [0xDB, 0xDD, 0x41];
  }

  /** With or without its delimiters, a frame decodes to what was encoded if and only if n + specials <= 330. */
  lemma EncodeDecode(data: seq<Octet>)
    ensures Decoded(Framed(data)) == if |data| + Specials(data) <= MAX_FRAME then Data(data) else Malformed
    ensures Decoded(Body(data)) == Decoded(Framed(data))
    ensures |Framed(data)| == |data| + Specials(data) + 3 <= 2 * |data| + 3
  {
    hide Escaped, Unescaped, Stripped, Specials;
    EscapedLength(data);
    assert Fends(1) == [FEND] + Fends(0) == [FEND];
    StripFends(1, Body(data), 1);
    StripFends(0, Body(data), 0);
    assert Fends(0) + Body(data) + Fends(0) == Body(data);
    assert Body(data)[1..] == Escaped(data);
    UnescapeInvertsEscape(data);
  }

  lemma {:induction false} AllSpecial(n: nat)
    ensures |Fends(n)| == n && Specials(Fends(n)) == n
  {
    if n > 0 {
      AllSpecial(n - 1);
    }
  }

  /** The room `encode` asks of its caller, 2n + 3 bytes, is needed for some input of every length. */
  lemma WorstCase(n: nat)
    ensures |Fends(n)| == n && |Framed(Fends(n))| == 2 * n + 3
  {
    AllSpecial(n);
    EscapedLength(Fends(n));
  }

  lemma {:induction false} UnescapedShorter(body: seq<Octet>)
    ensures Unescaped(body).Some? ==> |Unescaped(body).value| <= |body|
    decreases |body|
  {
    if Unescaped(body).Some? {
      EscapeInvertsUnescape(body);
      EscapedLength(Unescaped(body).value);
    }
  }

  /** A decoder's buffer of 330 bytes never overflows. */
  lemma PayloadFits(frame: seq<Octet>)
    ensures Decoded(frame).Data? ==> |Decoded(frame).payload| <= MAX_FRAME
  {
    var content := Stripped(frame);
    if content != [] {
      UnescapedShorter(content[1..]);
    }
  }
}
