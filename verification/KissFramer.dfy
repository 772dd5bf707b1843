/**
 * The firmware's framer: firmware/components/kiss/KissFramer.cpp:18-152. Output goes into the
 * caller's buffer; the C++ pointer and length `out_buf + op, out_len - op - 1` are the offset
 * `at` and `room`. The tests at lines 98 and 136-137 can never hold and have no counterpart.
 */
module KissFramer {
  import opened Bytes
  import opened Kiss

  lemma EscapedRest(input: seq<Octet>, i: nat)
    requires i < |input|
    ensures Escaped(input[i..]) == EscapeOne(input[i]) + Escaped(input[i + 1..])
  {
    assert input[i..][1..] == input[i + 1..];
  }

  lemma OneMore(done: seq<Octet>, one: seq<Octet>, rest: seq<Octet>)
    ensures done + (one + rest) == (done + one) + rest
  {}

  method Escape(input: seq<Octet>, out: array<Octet>, at: nat, room: nat) returns (n: nat)
    requires at + room <= out.Length
    modifies out
    ensures n == if |Escaped(input)| <= room then |Escaped(input)| else 0
    ensures |Escaped(input)| <= room ==> out[at..at + n] == Escaped(input)
    ensures forall k :: 0 <= k < at || at + room <= k < out.Length ==> out[k] == old(out[k])
    ensures |Escaped(input)| <= room ==> forall k :: at + n <= k < out.Length ==> out[k] == old(out[k])
  {
    hide Escaped;
    var op := 0;
    assert input[0..] == input;
    for i := 0 to |input|
      invariant op <= room
      invariant Escaped(input) == out[at..at + op] + Escaped(input[i..])
      invariant forall k :: 0 <= k < at || at + op <= k < out.Length ==> out[k] == old(out[k])
    {
      EscapedRest(input, i);
      OneMore(out[at..at + op], EscapeOne(input[i]), Escaped(input[i + 1..]));
      ghost var done := out[at..at + op];
      if input[i] == FEND {
        if op + 2 > room {
          return 0;
        }
        out[at + op], out[at + op + 1] := FESC, TFEND;
        op := op + 2;
      } else if input[i] == FESC {
        if op + 2 > room {
          return 0;
        }
        out[at + op], out[at + op + 1] := FESC, TFESC;
        op := op + 2;
      } else {
        if op + 1 > room {
          return 0;
        }
        out[at + op] := input[i];
        op := op + 1;
      }
      assert out[at..at + op] == done + EscapeOne(input[i]);
    }
    NothingLeft(input, out[at..at + op]);
    return op;
  }

  lemma NothingLeft(input: seq<Octet>, done: seq<Octet>)
    requires Escaped(input) == done + Escaped(input[|input|..])
    ensures Escaped(input) == done
  {
    assert input[|input|..] == [];
  }

  function After(done: seq<Octet>, rest: Option<seq<Octet>>): Option<seq<Octet>> {
    match rest
    case None => None
    case Some(s) => Some(done + s)
  }

  lemma UnescapedRest(body: seq<Octet>, i: nat, done: seq<Octet>)
    requires i < |body|
    ensures var b := body[i];
      After(done, Unescaped(body[i..])) ==
        if b == FESC then
          if i + 1 == |body| then None
          else if body[i + 1] == TFEND then After(done + [FEND], Unescaped(body[i + 2..]))
          else if body[i + 1] == TFESC then After(done + [FESC], Unescaped(body[i + 2..]))
          else None
        else if b == FEND then None
        else After(done + [b], Unescaped(body[i + 1..]))
  {
    var rest := body[i..];
    assert rest[1..] == body[i + 1..];
    if |rest| > 1 {
      assert rest[2..] == body[i + 2..];
    }
    Regroup(done, FEND, Unescaped(if |rest| > 1 then rest[2..] else []));
    Regroup(done, FESC, Unescaped(if |rest| > 1 then rest[2..] else []));
    Regroup(done, body[i], Unescaped(rest[1..]));
  }

  lemma Regroup(done: seq<Octet>, b: Octet, rest: Option<seq<Octet>>)
    ensures After(done, Prepend(b, rest)) == After(done + [b], rest)
  {
    if rest.Some? {
      assert done + ([b] + rest.value) == done + [b] + rest.value;
    }
  }

  lemma UnescapedEnds(body: seq<Octet>, done: seq<Octet>)
    ensures After([], Unescaped(body[0..])) == Unescaped(body)
    ensures After(done, Unescaped(body[|body|..])) == Some(done)
  {
    assert body[0..] == body && body[|body|..] == [];
    if Unescaped(body).Some? {
      assert [] + Unescaped(body).value == Unescaped(body).value;
    }
    assert done + [] == done;
  }

  /** The result of an unescape into a buffer of the given size. */
  function Fit(r: Option<seq<Octet>>, room: nat): Option<seq<Octet>> {
    if r.Some? && |r.value| <= room then r else None
  }

  method Unescape(input: seq<Octet>, out: array<Octet>) returns (n: int)
    modifies out
    ensures match Fit(Unescaped(input), out.Length)
      case None => n == -1
      case Some(data) => n == |data| && out[..n] == data && forall k :: n <= k < out.Length ==> out[k] == old(out[k])
  {
    hide Unescaped;
    var op, i := 0, 0;
    UnescapedEnds(input, []);
    while i < |input|
      invariant i <= |input| && op <= out.Length
      invariant Unescaped(input) == After(out[..op], Unescaped(input[i..]))
      invariant forall k :: op <= k < out.Length ==> out[k] == old(out[k])
    {
      ghost var done := out[..op];
      UnescapedRest(input, i, done);
      var b := input[i];
      if b == FESC {
        i := i + 1;
        if i >= |input| {
          return -1;
        }
        if input[i] == TFEND {
          if op >= out.Length {
            return -1;
          }
          out[op] := FEND;
        } else if input[i] == TFESC {
          if op >= out.Length {
            return -1;
          }
          out[op] := FESC;
        } else {
          return -1;
        }
        op := op + 1;
        i := i + 1;
      } else {
        if b == FEND || op >= out.Length {
          return -1;
        }
        out[op] := b;
        op := op + 1;
        i := i + 1;
      }
      assert out[..op] == done + [out[op - 1]];
    }
    UnescapedEnds(input, out[..op]);
    return op;
  }

  /** `encode` needs exactly the framed length, and 0 means overflow: no frame is empty. */
  method Encode(data: seq<Octet>, out: array<Octet>) returns (n: nat)
    modifies out
    ensures n == if |Framed(data)| <= out.Length then |Framed(data)| else 0
    ensures n > 0 ==> out[..n] == Framed(data) && forall k :: n <= k < out.Length ==> out[k] == old(out[k])
  {
    hide Escaped;
    if out.Length < 3 {
      return 0;
    }
    out[0], out[1] := FEND, CMD_DATA;
    var escaped := Escape(data, out, 2, out.Length - 3);
    EscapedLength(data);
    if escaped == 0 && |data| > 0 {
      return 0;
    }
    out[2 + escaped] := FEND;
    assert out[2..2 + escaped] == Escaped(data);
    return escaped + 3;
  }

  method StripDelimiters(frame: seq<Octet>) returns (start: nat, end: nat)
    ensures start <= end <= |frame| && frame[start..end] == Stripped(frame)
  {
    start := 0;
    while start < |frame| && frame[start] == FEND
      invariant start <= |frame| && LeadingFends(frame) == start + LeadingFends(frame[start..])
    {
      assert frame[start..][1..] == frame[start + 1..];
      start := start + 1;
    }
    end := |frame|;
    ghost var rest := frame[start..];
    assert rest[..end - start] == rest;
    while end > start && frame[end - 1] == FEND
      invariant start <= end <= |frame|
      invariant TrailingFends(rest) == |frame| - end + TrailingFends(rest[..end - start])
    {
      assert rest[..end - start][..end - start - 1] == rest[..end - 1 - start];
      end := end - 1;
    }
    assert frame[start..end] == rest[..end - start];
  }

  /** `decode`; cmd is what `cmd_out` is set to, None while it is left alone. */
  method Decode(frame: seq<Octet>, out: array<Octet>) returns (n: int, cmd: Option<Octet>)
    modifies out
    ensures match Decoded(frame)
      case Malformed => n == -1
      case Command(c) => n == 0 && cmd == Some(c)
      case Data(payload) =>
        (cmd == Some(CMD_DATA) && if |payload| <= out.Length then n == |payload| && out[..n] == payload else n == -1)
    ensures cmd == None <==> Stripped(frame) == []
  {
    hide Unescaped, Stripped;
    cmd := None;
    var start, end := StripDelimiters(frame);
    if end <= start {
      return -1, cmd;
    }
    cmd := Some(frame[start]);
    if frame[start] != CMD_DATA {
      return 0, cmd;
    }
    var body := frame[start + 1..end];
    assert body == Stripped(frame)[1..];
    if |body| > MAX_FRAME {
      return -1, cmd;
    }
    n := Unescape(body, out);
    return n, cmd;
  }

  /**
   * The firmware's uplink handler, main.cpp:3191-3216: with its 330-byte buffer a frame is
   * handed on exactly when it decodes to a nonempty payload.
   */
  method OnKissTx(frame: seq<Octet>) returns (ax25: Option<seq<Octet>>)
    ensures ax25 == match Decoded(frame) case Data(payload) => (if payload != [] then Some(payload) else None) case _ => None
  {
    hide Decoded;
    PayloadFits(frame);
    var buf := new Octet[MAX_FRAME];
    var n, cmd := Decode(frame, buf);
    if n <= 0 {
      return None;
    }
    return Some(buf[..n]);
  }
}
