/** The transmitter: firmware/components/modem/AfskModulator.cpp. A sample is the tone held. */
module Modulator {
  import opened Bytes
  import opened Hdlc
  import opened Afsk

  class AfskModulator {
    const sampleRate: nat
    var nrziTone: bool
    var stuffCount: nat
    var sampleAcc: nat

    constructor (rate: nat)
      ensures Valid() && sampleRate == rate && State() == RESET && nrziTone && stuffCount == 0 && sampleAcc == 0
    {
      sampleRate := rate;
      nrziTone := true;
      stuffCount := 0;
      sampleAcc := 0;
    }

    ghost predicate Valid()
      reads this
    {
      sampleAcc < BAUD && stuffCount <= 4
    }

    ghost function State(): Line
      reads this
    {
      Line(nrziTone, sampleAcc)
    }

    method Reset()
      modifies this
      ensures Valid() && State() == RESET && nrziTone && stuffCount == 0 && sampleAcc == 0
    {
      nrziTone := true;
      stuffCount := 0;
      sampleAcc := 0;
    }

    /** Writes the samples of one bit period; `truncated` when the buffer was full before the last of them. */
    method EmitBitSamples(out: array<bool>, pos: nat, outMax: nat) returns (truncated: bool, pos': nat)
      requires Valid() && pos <= outMax <= out.Length
      modifies this`sampleAcc, out
      ensures Valid() && sampleAcc == (old(sampleAcc) + sampleRate) % BAUD
      ensures pos <= pos' <= outMax && forall k :: outMax <= k < out.Length ==> out[k] == old(out[k])
      ensures truncated <==> pos + BitSamples(sampleRate, old(sampleAcc)) > outMax
      ensures pos' == if truncated then outMax else pos + BitSamples(sampleRate, old(sampleAcc))
      ensures out[..pos'] == old(out[..pos]) + Hold(nrziTone, pos' - pos)
    {
      sampleAcc := sampleAcc + sampleRate;
      var n := sampleAcc / BAUD;
      sampleAcc := sampleAcc - n * BAUD;
      pos' := pos;
      for i := 0 to n
        invariant sampleAcc == (old(sampleAcc) + sampleRate) % BAUD && Valid()
        invariant pos' == pos + i && pos' <= outMax
        invariant out[..pos'] == old(out[..pos]) + Hold(nrziTone, i)
        invariant forall k :: outMax <= k < out.Length ==> out[k] == old(out[k])
      {
        if pos' >= outMax {
          return true, pos';
        }
        out[pos'] := nrziTone;
        pos' := pos' + 1;
      }
      return false, pos';
    }

    /**
     * After the line bits `sent`, starting on line l0 with an empty buffer: either the buffer
     * holds all their samples and the line state has moved on, or they did not fit and it is
     * full of the first of them.
     */
    ghost predicate Sent(l0: Line, sent: seq<bool>, out: array<bool>, pos: nat, outMax: nat, truncated: bool)
      reads this, out
    {
      Valid() && pos <= outMax <= out.Length
      && (truncated <==> |Sound(sampleRate, l0, sent)| > outMax)
      && (truncated ==> pos == outMax && out[..pos] <= Sound(sampleRate, l0, sent))
      && (!truncated ==> out[..pos] == Sound(sampleRate, l0, sent) && State() == LineAfter(sampleRate, l0, sent))
    }

    lemma SentNothing(out: array<bool>, outMax: nat)
      requires Valid() && outMax <= out.Length
      ensures Sent(State(), [], out, 0, outMax, false)
    {}

    /** What was truncated stays truncated, however much was still to come. */
    lemma SentShort(l0: Line, a: seq<bool>, b: seq<bool>, out: array<bool>, pos: nat, outMax: nat)
      requires Sent(l0, a, out, pos, outMax, true) && a <= b
      ensures Sent(l0, b, out, pos, outMax, true)
    {
      SoundGrows(sampleRate, l0, a, b);
    }

    /** One line bit: a 0 changes the tone, then the bit period's samples follow. */
    method EmitLineBit(bit: bool, out: array<bool>, pos: nat, outMax: nat, ghost l0: Line, ghost sent: seq<bool>)
      returns (truncated: bool, pos': nat)
      requires Sent(l0, sent, out, pos, outMax, false)
      modifies this`nrziTone, this`sampleAcc, out
      ensures Sent(l0, sent + [bit], out, pos', outMax, truncated)
      ensures forall k :: outMax <= k < out.Length ==> out[k] == old(out[k])
    {
      SoundSnoc(sampleRate, l0, sent, bit);
      hide Sound, LineAfter;
      if !bit {
        nrziTone := !nrziTone;
      }
      ghost var before := out[..pos];
      truncated, pos' := EmitBitSamples(out, pos, outMax);
      HoldPrefix(before, nrziTone, pos' - pos, BitSamples(sampleRate, LineAfter(sampleRate, l0, sent).acc));
    }

    /** One data bit, NRZI coded, followed by a stuffed 0 after the fifth 1. */
    method EmitDataBit(bit: bool, out: array<bool>, pos: nat, outMax: nat, ghost l0: Line, ghost sent: seq<bool>)
      returns (truncated: bool, pos': nat)
      requires Sent(l0, sent, out, pos, outMax, false)
      modifies this, out
      ensures Sent(l0, sent + StuffOne(old(stuffCount), bit), out, pos', outMax, truncated)
      ensures stuffCount == StuffNext(old(stuffCount), bit)
      ensures forall k :: outMax <= k < out.Length ==> out[k] == old(out[k])
    {
      hide Sound, LineAfter;
      truncated, pos' := EmitLineBit(bit, out, pos, outMax, l0, sent);
      if bit {
        if stuffCount + 1 == 5 {
          assert sent + [true, false] == (sent + [true]) + [false];
          if truncated {
            SentShort(l0, sent + [true], sent + [true, false], out, pos', outMax);
            nrziTone := !nrziTone;
          } else {
            truncated, pos' := EmitLineBit(false, out, pos', outMax, l0, sent + [true]);
          }
          stuffCount := 0;
        } else {
          stuffCount := stuffCount + 1;
        }
      } else {
        stuffCount := 0;
      }
    }

    /** One flag, not stuffed. */
    method EmitFlag(out: array<bool>, pos: nat, outMax: nat, ghost l0: Line, ghost sent: seq<bool>)
      returns (truncated: bool, pos': nat)
      requires Sent(l0, sent, out, pos, outMax, false)
      modifies this, out
      ensures Sent(l0, sent + Flag(), out, pos', outMax, truncated)
      ensures stuffCount == 0 && forall k :: outMax <= k < out.Length ==> out[k] == old(out[k])
    {
      hide Sound, LineAfter;
      truncated, pos' := false, pos;
      assert sent + Flag()[..0] == sent;
      for i := 0 to 8
        invariant Sent(l0, sent + Flag()[..i], out, pos', outMax, truncated)
        invariant forall k :: outMax <= k < out.Length ==> out[k] == old(out[k])
      {
        var bit := Bit(0x7E, i);
        FlagPrefix(i);
        hide Flag, Bit;
        assert sent + Flag()[..i + 1] == (sent + Flag()[..i]) + [bit];
        if truncated {
          SentShort(l0, sent + Flag()[..i], sent + Flag()[..i + 1], out, pos', outMax);
          if !bit {
            nrziTone := !nrziTone;
          }
        } else {
          truncated, pos' := EmitLineBit(bit, out, pos', outMax, l0, sent + Flag()[..i]);
        }
      }
      assert Flag()[..8] == Flag();
      stuffCount := 0;
    }

    /** A loop of flags that stops at the first truncation. */
    method SendFlags(count: nat, out: array<bool>, pos: nat, outMax: nat, ghost l0: Line, ghost sent: seq<bool>)
      returns (truncated: bool, pos': nat)
      requires Sent(l0, sent, out, pos, outMax, false)
      modifies this, out
      ensures Sent(l0, sent + Flags(count), out, pos', outMax, truncated)
      ensures (count > 0 ==> stuffCount == 0) && forall k :: outMax <= k < out.Length ==> out[k] == old(out[k])
    {
      FlagsGrow(sent, 0, count);
      assert outMax <= out.Length;
      hide Sent, Flags, Flag;
      truncated, pos' := false, pos;
      var i := 0;
      while i < count && !truncated
        invariant i <= count && (i > 0 ==> stuffCount == 0)
        invariant outMax <= out.Length && Sent(l0, sent + Flags(i), out, pos', outMax, truncated)
        invariant forall k :: outMax <= k < out.Length ==> out[k] == old(out[k])
      {
        FlagsGrow(sent, i, count);
        truncated, pos' := EmitFlag(out, pos', outMax, l0, sent + Flags(i));
        i := i + 1;
      }
      if truncated {
        FlagsGrow(sent, i, count);
        SentShort(l0, sent + Flags(i), sent + Flags(count), out, pos', outMax);
      }
    }

    /** The bits of one byte, lowest first, stuffed; stops at the first truncation. */
    method SendByte(byte: Byte, out: array<bool>, pos: nat, outMax: nat, ghost l0: Line, ghost sent: seq<bool>, ghost done: seq<bool>)
      returns (truncated: bool, pos': nat)
      requires Sent(l0, Stuffed(sent, done), out, pos, outMax, false) && stuffCount == StuffCount(0, done)
      modifies this, out
      ensures Sent(l0, Stuffed(sent, done + ByteBits(byte)), out, pos', outMax, truncated)
      ensures !truncated ==> stuffCount == StuffCount(0, done + ByteBits(byte))
      ensures forall k :: outMax <= k < out.Length ==> out[k] == old(out[k])
    {
      assert outMax <= out.Length;
      hide Sent, Stuffed, StuffCount, StuffOne, StuffNext, Bit, Stuff;
      ghost var sofar := done;
      BitsTaken(done, byte, 0);
      hide BitsSoFar, ByteBits;
      truncated, pos' := false, pos;
      var bitIdx := 0;
      while bitIdx < 8 && !truncated
        invariant bitIdx <= 8 && stuffCount == StuffCount(0, sofar) && sofar == BitsSoFar(done, byte, bitIdx)
        invariant outMax <= out.Length && Sent(l0, Stuffed(sent, sofar), out, pos', outMax, truncated)
        invariant forall k :: outMax <= k < out.Length ==> out[k] == old(out[k])
      {
        var bit := Bit(byte, bitIdx);
        NextStuffed(sent, sofar, bit);
        BitsTaken(done, byte, bitIdx);
        truncated, pos' := EmitDataBit(bit, out, pos', outMax, l0, Stuffed(sent, sofar));
        sofar := sofar + [bit];
        bitIdx := bitIdx + 1;
      }
      BitsTaken(done, byte, bitIdx);
      if truncated {
        StuffPrefix(sent, sofar, done + ByteBits(byte));
        SentShort(l0, Stuffed(sent, sofar), Stuffed(sent, done + ByteBits(byte)), out, pos', outMax);
      }
    }

    /** The bytes of the frame; stops at the first truncation. */
    method SendData(data: seq<Byte>, out: array<bool>, pos: nat, outMax: nat, ghost l0: Line, ghost sent: seq<bool>)
      returns (truncated: bool, pos': nat)
      requires Sent(l0, sent, out, pos, outMax, false) && stuffCount == 0
      modifies this, out
      ensures Sent(l0, Stuffed(sent, Bits(data)), out, pos', outMax, truncated)
      ensures forall k :: outMax <= k < out.Length ==> out[k] == old(out[k])
    {
      assert outMax <= out.Length;
      StuffNothing(sent);
      BitsBeforeEnds(data);
      hide Sent, Stuffed, StuffCount, ByteBits, Stuff, Bits, BitsBefore;
      truncated, pos' := false, pos;
      var b := 0;
      while b < |data| && !truncated
        invariant b <= |data| && (!truncated ==> stuffCount == StuffCount(0, BitsBefore(data, b)))
        invariant outMax <= out.Length && Sent(l0, Stuffed(sent, BitsBefore(data, b)), out, pos', outMax, truncated)
        invariant forall k :: outMax <= k < out.Length ==> out[k] == old(out[k])
      {
        NextByte(data, b);
        truncated, pos' := SendByte(data[b], out, pos', outMax, l0, sent, BitsBefore(data, b));
        b := b + 1;
      }
      BitsBeforePrefix(data, b);
      if truncated {
        StuffPrefix(sent, BitsBefore(data, b), Bits(data));
        SentShort(l0, Stuffed(sent, BitsBefore(data, b)), Stuffed(sent, Bits(data)), out, pos', outMax);
      }
    }

    /** A whole transmission. An exact fit succeeds; one sample too few returns 0. */
    method ModulateFrame(data: seq<Byte>, out: array<bool>, outMax: nat) returns (written: nat)
      requires Valid() && outMax <= out.Length
      modifies this, out
      ensures Valid() && forall k :: outMax <= k < out.Length ==> out[k] == old(out[k])
      ensures |data| == 0 || outMax == 0 ==> written == 0 && State() == old(State()) && out[..] == old(out[..])
      ensures |data| > 0 && outMax > 0 ==>
        var sound := Sound(sampleRate, old(State()), Wire(data));
        if |sound| <= outMax
        then written == |sound| && out[..written] == sound
          && State() == LineAfter(sampleRate, old(State()), Wire(data))
        else written == 0 && out[..outMax] == sound[..outMax]
    {
      if |data| == 0 || outMax == 0 {
        return 0;
      }
      ghost var l0, wire := State(), Wire(data);
      ghost var opening := Flags(PREAMBLE_FLAGS + 1);
      WireParts(data);
      SentNothing(out, outMax);
      ghost var sent := Flags(PREAMBLE_FLAGS);
      hide Sound, LineAfter, Stuff, Bits, Flags, Flag, Wire, Sent, Stuffed;
      var truncated, pos := SendFlags(PREAMBLE_FLAGS, out, 0, outMax, l0, []);
      if !truncated {
        truncated, pos := EmitFlag(out, pos, outMax, l0, sent);
        sent := opening;
      }
      if !truncated {
        truncated, pos := SendData(data, out, pos, outMax, l0, sent);
        sent := Stuffed(opening, Bits(data));
      }
      if !truncated {
        truncated, pos := SendFlags(TAIL_FLAGS, out, pos, outMax, l0, sent);
        sent := wire;
      }
      if truncated {
        SentShort(l0, sent, wire, out, pos, outMax);
      }
      SentMeans(l0, wire, out, pos, outMax, truncated);
      return if truncated then 0 else pos;
    }

    lemma SentMeans(l0: Line, sent: seq<bool>, out: array<bool>, pos: nat, outMax: nat, truncated: bool)
      requires Sent(l0, sent, out, pos, outMax, truncated)
      ensures Valid() && pos <= outMax <= out.Length
      ensures truncated <==> |Sound(sampleRate, l0, sent)| > outMax
      ensures truncated ==> out[..outMax] == Sound(sampleRate, l0, sent)[..outMax]
      ensures !truncated ==> out[..pos] == Sound(sampleRate, l0, sent) && State() == LineAfter(sampleRate, l0, sent)
    {}
  }

  lemma HoldPrefix(s: seq<bool>, tone: bool, m: nat, n: nat)
    ensures m <= n ==> s + Hold(tone, m) <= s + Hold(tone, n)
  {}

  lemma SoundSnoc(rate: nat, l: Line, sent: seq<bool>, bit: bool)
    ensures var l1 := LineAfter(rate, l, sent);
      && Sound(rate, l, sent + [bit]) == Sound(rate, l, sent) + Hold(LineStep(rate, l1, bit).tone, BitSamples(rate, l1.acc))
      && LineAfter(rate, l, sent + [bit]) == LineStep(rate, l1, bit)
  {
    hide Sound, LineAfter;
    SoundConcat(rate, l, sent, [bit]);
    SoundOne(rate, LineAfter(rate, l, sent), bit);
  }

  lemma WireParts(data: seq<Byte>)
    ensures var opening := Flags(PREAMBLE_FLAGS + 1);
      && [] + Flags(PREAMBLE_FLAGS) == Flags(PREAMBLE_FLAGS)
      && opening == Flags(PREAMBLE_FLAGS) + Flag()
      && Wire(data) == Stuffed(opening, Bits(data)) + Flags(TAIL_FLAGS)
      && Flags(PREAMBLE_FLAGS) <= opening <= Stuffed(opening, Bits(data)) <= Wire(data)
  {
    FlagsBack(PREAMBLE_FLAGS + 1);
    hide Flags, Flag, Stuff, Bits;
  }

  function BitsBefore(data: seq<Byte>, b: nat): seq<bool>
    requires b <= |data|
  {
    Bits(data[..b])
  }

  lemma BitsBeforeEnds(data: seq<Byte>)
    ensures BitsBefore(data, 0) == [] && BitsBefore(data, |data|) == Bits(data)
  {
    assert data[..|data|] == data;
  }

  lemma BitsBeforePrefix(data: seq<Byte>, b: nat)
    requires b <= |data|
    ensures BitsBefore(data, b) <= Bits(data)
  {
    hide Bits;
    assert data == data[..b] + data[b..];
    BitsConcat(data[..b], data[b..]);
  }

  lemma NextByte(data: seq<Byte>, b: nat)
    requires b < |data|
    ensures BitsBefore(data, b + 1) == BitsBefore(data, b) + ByteBits(data[b])
  {
    hide Bits, ByteBits;
    assert data[..b + 1] == data[..b] + [data[b]];
    BitsConcat(data[..b], [data[b]]);
    BitsOfOne(data[b]);
  }

  function BitsSoFar(done: seq<bool>, byte: Byte, i: nat): seq<bool>
    requires i <= 8
  {
    done + ByteBits(byte)[..i]
  }

  lemma BitsTaken(done: seq<bool>, byte: Byte, i: nat)
    requires i <= 8
    ensures BitsSoFar(done, byte, 0) == done && BitsSoFar(done, byte, 8) == done + ByteBits(byte)
    ensures BitsSoFar(done, byte, i) <= done + ByteBits(byte)
    ensures i < 8 ==> BitsSoFar(done, byte, i + 1) == BitsSoFar(done, byte, i) + [Bit(byte, i)]
  {
    hide Bit;
    assert ByteBits(byte)[..8] == ByteBits(byte);
  }

  /** The line bits `sent`, then data bits stuffed from a clear counter. */
  function Stuffed(sent: seq<bool>, bits: seq<bool>): seq<bool> {
    sent + Stuff(0, bits)
  }

  lemma NextStuffed(sent: seq<bool>, done: seq<bool>, bit: bool)
    ensures Stuffed(sent, done + [bit]) == Stuffed(sent, done) + StuffOne(StuffCount(0, done), bit)
    ensures StuffCount(0, done + [bit]) == StuffNext(StuffCount(0, done), bit)
  {
    hide Stuff, StuffCount, StuffOne, StuffNext;
    StuffSnoc(0, done, bit);
  }

  lemma SoundGrows(rate: nat, l: Line, a: seq<bool>, b: seq<bool>)
    requires a <= b
    ensures Sound(rate, l, a) <= Sound(rate, l, b)
  {
    assert b == a + b[|a|..];
    SoundConcat(rate, l, a, b[|a|..]);
  }

  lemma StuffNothing(sent: seq<bool>)
    ensures Stuffed(sent, []) == sent && StuffCount(0, []) == 0
  {
    assert sent + [] == sent;
  }

  lemma FlagsGrow(sent: seq<bool>, i: nat, count: nat)
    requires i <= count
    ensures sent + Flags(0) == sent && sent + Flags(i + 1) == (sent + Flags(i)) + Flag()
    ensures sent + Flags(i) <= sent + Flags(count)
  {
    FlagsBack(0);
    FlagsBack(i + 1);
    FlagsPrefix(i, count);
    hide Flags, Flag;
    assert sent + (Flags(i) + Flag()) == (sent + Flags(i)) + Flag();
    assert sent + [] == sent;
  }

  lemma {:induction false} FlagsPrefix(i: nat, n: nat)
    requires i <= n
    ensures Flags(i) <= Flags(n)
    decreases n
  {
    if i < n {
      FlagsPrefix(i, n - 1);
    }
  }

  lemma StuffPrefix(sent: seq<bool>, a: seq<bool>, b: seq<bool>)
    requires a <= b
    ensures Stuffed(sent, a) <= Stuffed(sent, b)
  {
    StuffTake(0, b, |a|);
    assert b[..|a|] == a;
  }

  lemma {:induction false} StuffTake(c: nat, bits: seq<bool>, k: nat)
    requires k <= |bits|
    ensures Stuff(c, bits[..k]) <= Stuff(c, bits)
    decreases |bits|
  {
    if k > 0 {
      assert bits[..k][1..] == bits[1..][..k - 1];
      StuffTake(StuffNext(c, bits[0]), bits[1..], k - 1);
    }
  }

  lemma FlagPrefix(i: nat)
    requires i < 8
    ensures Flag()[..i + 1] == Flag()[..i] + [Bit(0x7E, i)]
  {
    assert Bit(0x7E, 1) && Bit(0x7E, 2) && Bit(0x7E, 3) && Bit(0x7E, 4) && Bit(0x7E, 5) && Bit(0x7E, 6);
    assert !Bit(0x7E, 0) && !Bit(0x7E, 7);
  }
}
