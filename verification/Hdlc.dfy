/**
 * The HDLC layer of the modem at the level of bits: what AfskModulator puts on the line
 * (flags and stuffed data, AfskModulator.cpp:57-126) and what AfskDemodulator's bit machine
 * makes of a stream of received bits (AfskDemodulator.cpp:165-248).
 */
module Hdlc {
  import opened Bytes
  import Crc

  const MAX_FRAME_BYTES := 330
  const PREAMBLE_FLAGS := 20
  const TAIL_FLAGS := 3

  // ---------------------------------------------------------------- transmitter

  /** The flag 0x7E, least significant bit first. */
  function Flag(): (bits: seq<bool>)
    ensures |bits| == 8
  {
    [false, true, true, true, true, true, true, false]
  }

  function Flags(n: nat): (bits: seq<bool>)
    ensures |bits| == 8 * n
    decreases n
  {
    if n == 0 then [] else Flags(n - 1) + Flag()
  }

  /** The stuffing counter after one data bit. */
  function StuffNext(c: nat, bit: bool): nat {
    if bit && c + 1 != 5 then c + 1 else 0
  }

  /** The line bits for one data bit: after the fifth 1 in a row a 0 is inserted. */
  function StuffOne(c: nat, bit: bool): seq<bool> {
    if bit && c + 1 == 5 then [true, false] else [bit]
  }

  function Stuff(c: nat, bits: seq<bool>): seq<bool>
    decreases |bits|
  {
    if bits == [] then [] else StuffOne(c, bits[0]) + Stuff(StuffNext(c, bits[0]), bits[1..])
  }

  function StuffCount(c: nat, bits: seq<bool>): nat
    decreases |bits|
  {
    if bits == [] then c else StuffCount(StuffNext(c, bits[0]), bits[1..])
  }

  lemma {:induction false} StuffSnoc(c: nat, bits: seq<bool>, bit: bool)
    ensures Stuff(c, bits + [bit]) == Stuff(c, bits) + StuffOne(StuffCount(c, bits), bit)
    ensures StuffCount(c, bits + [bit]) == StuffNext(StuffCount(c, bits), bit)
    decreases |bits|
  {
    hide StuffOne, StuffNext;
    if bits == [] {
      assert [bit][1..] == [];
    } else {
      assert (bits + [bit])[1..] == bits[1..] + [bit];
      StuffSnoc(StuffNext(c, bits[0]), bits[1..], bit);
    }
  }

  /** The line bits of one call of `modulate_frame`. */
  function Wire(data: seq<Byte>): seq<bool> {
    Flags(PREAMBLE_FLAGS + 1) + Stuff(0, Bits(data)) + Flags(TAIL_FLAGS)
  }

  // ---------------------------------------------------------------- receiver

  /** What the demodulator reports: a delivered frame, or a frame whose check sequence failed. */
  datatype Event = Frame(data: seq<Byte>) | Reject

  /** The bit machine's fields; `frame` is `frame_buf_[..frame_len_]`, `log` the reports so far. */
  datatype Receiver = Receiver(sr: Byte, ones: nat, inFrame: bool, bitBuf: Byte, bitPos: nat,
                               frame: seq<Byte>, flags: nat, log: seq<Event>)
  {
    predicate Valid() {
      bitPos < 8 && |frame| <= MAX_FRAME_BYTES
    }
  }

  const FRESH := Receiver(0, 0, false, 0, 0, [], 0, [])

  function ShiftIn(sr: Byte, bit: bool): Byte {
    (sr >> 1) | (if bit then 0x80 else 0x00)
  }

  /** `dispatch_frame`. */
  function Verdict(frame: seq<Byte>): seq<Event> {
    if |frame| < 4 then [] else if Crc.FcsValid(frame) then [Frame(frame)] else [Reject]
  }

  /** `assemble_bit`. */
  function Assemble(r: Receiver, bit: bool): Receiver
    requires r.Valid()
  {
    var buf := WithBit(r.bitBuf, r.bitPos, bit);
    if r.bitPos + 1 < 8 then r.(bitBuf := buf, bitPos := r.bitPos + 1)
    else if |r.frame| < MAX_FRAME_BYTES then r.(frame := r.frame + [buf], bitBuf := 0, bitPos := 0)
    else r.(inFrame := false, frame := [], bitBuf := 0, bitPos := 0)
  }

  /** `process_bit`. */
  function ProcessBit(r: Receiver, bit: bool): (r': Receiver)
    requires r.Valid()
    ensures r'.Valid()
  {
    var sr := ShiftIn(r.sr, bit);
    if sr == 0x7E then
      var log := if r.inFrame && |r.frame| >= 2 then r.log + Verdict(r.frame) else r.log;
      Receiver(sr, 0, true, 0, 0, [], r.flags + 1, log)
    else if !r.inFrame then r.(sr := sr)
    else if bit then
      if r.ones + 1 >= 7 then r.(sr := sr, ones := r.ones + 1, inFrame := false, frame := [])
      else Assemble(r.(sr := sr, ones := r.ones + 1), true)
    else if r.ones == 5 then r.(sr := sr, ones := 0)
    else Assemble(r.(sr := sr, ones := 0), false)
  }

  function ProcessBits(r: Receiver, bits: seq<bool>): (r': Receiver)
    requires r.Valid()
    ensures r'.Valid()
    decreases |bits|
  {
    if bits == [] then r else ProcessBits(ProcessBit(r, bits[0]), bits[1..])
  }

  lemma {:induction false} ProcessBitsConcat(r: Receiver, a: seq<bool>, b: seq<bool>)
    requires r.Valid()
    ensures ProcessBits(r, a + b) == ProcessBits(ProcessBits(r, a), b)
    decreases |a|
  {
    if a == [] {
      assert a + b == b;
    } else {
      assert (a + b)[1..] == a[1..] + b;
      hide ProcessBit;
      ProcessBitsConcat(ProcessBit(r, a[0]), a[1..], b);
    }
  }

  lemma OneBit(r: Receiver, bit: bool)
    requires r.Valid()
    ensures ProcessBits(r, [bit]) == ProcessBit(r, bit)
  {
    hide ProcessBit;
    assert [bit][1..] == [];
  }

  // ---------------------------------------------------------------- how much can be pending

  /** The bits collected towards the frame in progress. */
  function Pending(r: Receiver): nat {
    if r.inFrame then 8 * |r.frame| + r.bitPos else 0
  }

  /** A report needs 32 collected bits, and a bit collects at most one. */
  lemma PendingStep(r: Receiver, bit: bool)
    requires r.Valid()
    ensures var r' := ProcessBit(r, bit);
      || (r'.log == r.log && Pending(r') <= Pending(r) + 1)
      || (Pending(r) >= 32 && Pending(r') == 0 && exists e :: r'.log == r.log + [e])
  {
    hide Crc.FcsValid, ShiftIn, WithBit;
    var r' := ProcessBit(r, bit);
    if ShiftIn(r.sr, bit) == 0x7E && r.inFrame && |r.frame| >= 2 {
      if |r.frame| >= 4 {
        assert r'.log == r.log + [Verdict(r.frame)[0]];
      } else {
        assert r'.log == r.log + [];
      }
    }
  }

  /** Few bits report little: at most one report in 32 bits, and none while fewer than 32 are collected. */
  lemma {:induction false} FewReports(r: Receiver, bits: seq<bool>) returns (leftover: seq<Event>)
    requires r.Valid()
    ensures ProcessBits(r, bits).log == r.log + leftover
    ensures |bits| <= 32 ==> |leftover| <= 1
    ensures Pending(r) + |bits| <= 32 ==> leftover == []
    decreases |bits|
  {
    hide ProcessBit, Pending;
    if bits == [] {
      leftover := [];
    } else {
      var r1 := ProcessBit(r, bits[0]);
      PendingStep(r, bits[0]);
      var rest := FewReports(r1, bits[1..]);
      if r1.log == r.log {
        leftover := rest;
      } else {
        var e :| r1.log == r.log + [e];
        leftover := [e] + rest;
      }
    }
  }

  // ---------------------------------------------------------------- what is reported

  /** The report a complete frame deserves: delivered with a good check sequence, rejected with a bad one, dropped when too short. */
  predicate Deserved(frame: seq<Byte>, reports: seq<Event>) {
    if |frame| < 4 then reports == []
    else if Crc.Fcs(frame[..|frame| - 2]) == Crc.StoredFcs(frame) then reports == [Frame(frame)]
    else reports == [Reject]
  }

  /** A bit reports only when it completes a flag, and then what the bytes collected so far deserve. */
  lemma BitReports(r: Receiver, bit: bool)
    requires r.Valid()
    ensures var r' := ProcessBit(r, bit);
      r.log <= r'.log && (r'.log != r.log ==> r'.sr == 0x7E && r.inFrame && Deserved(r.frame, r'.log[|r.log|..]))
      && (r'.sr == 0x7E && r.inFrame ==> Deserved(r.frame, r'.log[|r.log|..]))
  {
    if |r.frame| >= 4 {
      Crc.FcsValidIs(r.frame);
    }
    hide Crc.FcsValid, Crc.Fcs, ShiftIn, WithBit;
    assert r.log + [] == r.log;
  }

  /** Every frame delivered has 4 to 330 bytes and a good check sequence. */
  predicate Checked(e: Event) {
    e.Frame? ==> 4 <= |e.data| <= 330 && Crc.FcsValid(e.data)
  }

  lemma BitChecked(r: Receiver, bit: bool)
    requires r.Valid()
    ensures var r' := ProcessBit(r, bit); r.log <= r'.log && forall k :: |r.log| <= k < |r'.log| ==> Checked(r'.log[k])
  {
    BitReports(r, bit);
    if |r.frame| >= 4 {
      Crc.FcsValidIs(r.frame);
    }
    var r' := ProcessBit(r, bit);
    hide ProcessBit, Crc.FcsValid, Crc.Fcs, Crc.StoredFcs;
    forall k | |r.log| <= k < |r'.log| ensures Checked(r'.log[k]) {
      assert r'.log[k] == r'.log[|r.log|..][k - |r.log|];
    }
  }

  /** From any valid state, whatever bits come: nothing is delivered without a good check sequence. */
  lemma {:induction false} OnlyGoodFrames(r: Receiver, bits: seq<bool>)
    requires r.Valid()
    ensures var r' := ProcessBits(r, bits); r.log <= r'.log && forall k :: |r.log| <= k < |r'.log| ==> Checked(r'.log[k])
    decreases |bits|
  {
    hide ProcessBit, Checked;
    if bits != [] {
      BitChecked(r, bits[0]);
      OnlyGoodFrames(ProcessBit(r, bits[0]), bits[1..]);
    }
  }

  // ---------------------------------------------------------------- aborts

  function Ones(n: nat): (bits: seq<bool>)
    ensures |bits| == n
  {
    seq(n, _ => true)
  }

  lemma {:induction false} OnesCount(r: Receiver, n: nat)
    requires r.Valid()
    ensures var r' := ProcessBits(r, Ones(n));
      r'.log == r.log && (r'.inFrame ==> r.inFrame && r.ones + n == r'.ones && (n > 0 ==> r'.ones < 7))
    decreases n
  {
    if n > 0 {
      OneBitIsNoFlag(r.sr);
      assert Ones(n)[1..] == Ones(n - 1);
      assert ProcessBits(r, Ones(n)) == ProcessBits(ProcessBit(r, true), Ones(n - 1));
      hide ShiftIn, WithBit, ProcessBits;
      OnesCount(ProcessBit(r, true), n - 1);
    }
  }

  /** Seven ones in a row give up whatever frame was being received, and nothing is reported of it. */
  lemma SevenOnesAbort(r: Receiver)
    requires r.Valid()
    ensures var r' := ProcessBits(r, Ones(7)); !r'.inFrame && r'.log == r.log
    ensures var r' := ProcessBits(r, Ones(7) + Flag()); r' == Synced(r'.flags, r.log)
  {
    OnesCount(r, 7);
    hide ProcessBit, ProcessBits, Flag;
    ProcessBitsConcat(r, Ones(7), Flag());
    var mid := ProcessBits(r, Ones(7));
    FlagSynchronises(mid);
    var leftover := FewReports(mid, Flag());
    assert r.log + [] == r.log;
  }

  // ---------------------------------------------------------------- flags

  /** The state right after a flag: collecting, nothing collected. */
  function Synced(flags: nat, log: seq<Event>): Receiver {
    Receiver(0x7E, 0, true, 0, 0, [], flags, log)
  }

  /** The newest c bits of the shift register are ones and the bit before them is a zero. */
  predicate OnesTail(sr: Byte, c: nat) {
    if c == 0 then sr & 0x80 == 0x00
    else if c == 1 then sr & 0xC0 == 0x80
    else if c == 2 then sr & 0xE0 == 0xC0
    else if c == 3 then sr & 0xF0 == 0xE0
    else if c == 4 then sr & 0xF8 == 0xF0
    else c == 5 && sr & 0xFC == 0xF8
  }

  /** With at most five ones at the tail, no next bit completes a flag. */
  lemma NoFlag(sr: Byte, c: nat, bit: bool)
    requires OnesTail(sr, c)
    ensures ShiftIn(sr, bit) != 0x7E
    ensures !bit ==> OnesTail(ShiftIn(sr, bit), 0)
    ensures bit && c < 5 ==> OnesTail(ShiftIn(sr, bit), c + 1)
  {}

  lemma OneBitIsNoFlag(sr: Byte)
    ensures ShiftIn(sr, true) != 0x7E
  {}

  function ShiftFlag(sr: Byte): Byte {
    ShiftIn(ShiftIn(ShiftIn(ShiftIn(ShiftIn(ShiftIn(ShiftIn(ShiftIn(sr, false), true), true), true), true), true), true), false)
  }

  lemma FlagRegister(sr: Byte)
    ensures ShiftFlag(sr) == 0x7E
  {}

  lemma SrStep(r: Receiver, bit: bool)
    requires r.Valid()
    ensures ProcessBit(r, bit).sr == ShiftIn(r.sr, bit)
  {}

  lemma DetectingBit(r: Receiver, bit: bool)
    requires r.Valid() && ShiftIn(r.sr, bit) == 0x7E
    ensures ProcessBit(r, bit) == Detected(r)
  {}

  lemma FlagUnrolled(r: Receiver)
    requires r.Valid()
    ensures ProcessBits(r, Flag()) == ProcessBit(ProcessBits(r, Flag()[..7]), false)
  {
    hide ProcessBit;
    assert Flag() == Flag()[..7] + [false];
    ProcessBitsConcat(r, Flag()[..7], [false]);
    OneBit(ProcessBits(r, Flag()[..7]), false);
  }

  lemma {:induction false} SrAfter(r: Receiver, bits: seq<bool>)
    requires r.Valid()
    ensures ProcessBits(r, bits).sr == ShiftAll(r.sr, bits)
    decreases |bits|
  {
    hide ProcessBit;
    if bits != [] {
      SrStep(r, bits[0]);
      SrAfter(ProcessBit(r, bits[0]), bits[1..]);
    }
  }

  function ShiftAll(sr: Byte, bits: seq<bool>): Byte
    decreases |bits|
  {
    if bits == [] then sr else ShiftAll(ShiftIn(sr, bits[0]), bits[1..])
  }

  lemma FlagShiftAll(sr: Byte)
    ensures ShiftIn(ShiftAll(sr, Flag()[..7]), false) == 0x7E
  {
    hide ShiftIn;
    var f := Flag()[..7];
    assert f[1..][1..][1..] == [true, true, true, true];
    assert [true, true, true, true][1..][1..][1..] == [true];
    assert [true][1..] == [];
    FlagRegister(sr);
  }

  /** From any state whatever, the eight bits of a flag end in the state right after a flag. */
  lemma FlagSynchronises(r: Receiver)
    requires r.Valid()
    ensures var r' := ProcessBits(r, Flag()); r' == Synced(r'.flags, r'.log)
  {
    hide ProcessBit, ProcessBits, ShiftIn, Flag, ShiftAll, Verdict;
    FlagUnrolled(r);
    SrAfter(r, Flag()[..7]);
    FlagShiftAll(r.sr);
    DetectingBit(ProcessBits(r, Flag()[..7]), false);
  }

  // ---------------------------------------------------------------- stuffed data

  /** After k data bits: what has been collected of them, or that the frame was given up as too long. */
  predicate Collected(r: Receiver, data: seq<Byte>, k: nat)
    requires k <= 8 * |data|
  {
    if k < 8 * (MAX_FRAME_BYTES + 1) then
      r.inFrame && r.frame == data[..k / 8] && r.bitPos == k % 8
      && r.bitBuf == if k % 8 == 0 then 0 else Low(data[k / 8], k % 8)
    else !r.inFrame
  }

  /** The receiver after the first k data bits; c ones have just been sent in a row. */
  predicate Tracking(r: Receiver, data: seq<Byte>, k: nat, c: nat, flags: nat, log: seq<Event>) {
    r.Valid() && k <= 8 * |data| && r.flags == flags && r.log == log
    && OnesTail(r.sr, c) && (r.inFrame ==> r.ones == c) && Collected(r, data, k)
  }

  predicate DataBit(data: seq<Byte>, k: nat)
    requires k < 8 * |data|
  {
    Bit(data[k / 8], k % 8)
  }

  lemma {:induction false} DataBitIsBit(data: seq<Byte>, k: nat)
    requires k < 8 * |data|
    ensures Bits(data)[k] == DataBit(data, k)
  {
    hide Bit;
    if k >= 8 {
      DataBitIsBit(data[1..], k - 8);
      assert (k - 8) / 8 == k / 8 - 1 && (k - 8) % 8 == k % 8;
    }
  }

  lemma AssembleCollects(r: Receiver, data: seq<Byte>, k: nat)
    requires r.Valid() && k < 8 * |data| && k < 8 * (MAX_FRAME_BYTES + 1) && Collected(r, data, k)
    ensures Collected(Assemble(r, DataBit(data, k)), data, k + 1)
  {
    var b, p := data[k / 8], k % 8;
    LowStep(b, p);
    LowEnds(b);
    hide Bit, Low, WithBit, LowMask, Mask;
    if p == 7 {
      assert (k + 1) / 8 == k / 8 + 1 && (k + 1) % 8 == 0;
      assert data[..k / 8 + 1] == data[..k / 8] + [b];
    } else {
      assert (k + 1) / 8 == k / 8 && (k + 1) % 8 == p + 1;
    }
  }

  /** A data bit is collected as sent; the receiver's ones counter follows the transmitter's. */
  lemma TrackBit(r: Receiver, data: seq<Byte>, k: nat, c: nat, flags: nat, log: seq<Event>)
    requires Tracking(r, data, k, c, flags, log) && c <= 4 && k < 8 * |data|
    ensures Tracking(ProcessBit(r, DataBit(data, k)), data, k + 1, if DataBit(data, k) then c + 1 else 0, flags, log)
  {
    var bit := DataBit(data, k);
    NoFlag(r.sr, c, bit);
    hide ShiftIn, OnesTail, Bit, Low, WithBit;
    if r.inFrame {
      var mid := r.(sr := ShiftIn(r.sr, bit), ones := if bit then r.ones + 1 else 0);
      AssembleCollects(mid, data, k);
    }
  }

  /** The inserted 0 changes nothing but the shift register and the ones counter. */
  lemma TrackStuffed(r: Receiver, data: seq<Byte>, k: nat, flags: nat, log: seq<Event>)
    requires Tracking(r, data, k, 5, flags, log)
    ensures Tracking(ProcessBit(r, false), data, k, 0, flags, log)
  {
    NoFlag(r.sr, 5, false);
    hide ShiftIn, OnesTail, Bit, Low, WithBit;
  }

  lemma TrackOne(r: Receiver, data: seq<Byte>, k: nat, c: nat, flags: nat, log: seq<Event>)
    requires Tracking(r, data, k, c, flags, log) && c <= 4 && k < 8 * |data|
    ensures StuffNext(c, DataBit(data, k)) <= 4
    ensures Tracking(ProcessBits(r, StuffOne(c, DataBit(data, k))), data, k + 1, StuffNext(c, DataBit(data, k)), flags, log)
  {
    var bit := DataBit(data, k);
    TrackBit(r, data, k, c, flags, log);
    TrackingIsValid(r, data, k, c, flags, log);
    hide ProcessBit, ProcessBits, Tracking, DataBit, Bit;
    if bit && c + 1 == 5 {
      TwoBits(r, true, false);
      TrackStuffed(ProcessBit(r, true), data, k + 1, flags, log);
    } else {
      OneBit(r, bit);
    }
  }

  lemma TrackingIsValid(r: Receiver, data: seq<Byte>, k: nat, c: nat, flags: nat, log: seq<Event>)
    requires Tracking(r, data, k, c, flags, log)
    ensures r.Valid()
  {}

  lemma TwoBits(r: Receiver, a: bool, b: bool)
    requires r.Valid()
    ensures ProcessBit(r, a).Valid() && ProcessBits(r, [a, b]) == ProcessBit(ProcessBit(r, a), b)
  {
    hide ProcessBit;
    OneBit(r, a);
    OneBit(ProcessBit(r, a), b);
    assert [a, b] == [a] + [b];
    ProcessBitsConcat(r, [a], [b]);
  }

  /** Stuffed data is collected bit for bit: no flag is seen, nothing is reported. */
  lemma {:induction false} TrackData(r: Receiver, data: seq<Byte>, k: nat, c: nat, flags: nat, log: seq<Event>)
    requires Tracking(r, data, k, c, flags, log) && c <= 4
    ensures StuffCount(c, Bits(data)[k..]) <= 4
    ensures Tracking(ProcessBits(r, Stuff(c, Bits(data)[k..])), data, 8 * |data|, StuffCount(c, Bits(data)[k..]), flags, log)
    decreases 8 * |data| - k
  {
    assert r.Valid() && k <= 8 * |data|;
    hide ProcessBit, Tracking, DataBit, StuffOne, StuffNext, Bits;
    if k < 8 * |data| {
      var rest := Bits(data)[k..];
      assert rest[0] == DataBit(data, k) by { DataBitIsBit(data, k); }
      assert rest[1..] == Bits(data)[k + 1..];
      var c' := StuffNext(c, rest[0]);
      StuffSplit(c, rest);
      hide Stuff, StuffCount, ProcessBits;
      TrackOne(r, data, k, c, flags, log);
      ProcessBitsConcat(r, StuffOne(c, rest[0]), Stuff(c', rest[1..]));
      TrackData(ProcessBits(r, StuffOne(c, rest[0])), data, k + 1, c', flags, log);
    } else {
      assert Bits(data)[k..] == [];
    }
  }

  lemma StuffSplit(c: nat, bits: seq<bool>)
    requires bits != []
    ensures Stuff(c, bits) == StuffOne(c, bits[0]) + Stuff(StuffNext(c, bits[0]), bits[1..])
    ensures StuffCount(c, bits) == StuffCount(StuffNext(c, bits[0]), bits[1..])
  {}

  // ---------------------------------------------------------------- the closing flag

  /** What a frame sent between flags is reported as: overlong frames are dropped without a report. */
  function Report(data: seq<Byte>): seq<Event> {
    if |data| <= MAX_FRAME_BYTES then Verdict(data) else []
  }

  /** Inside a flag, j of its bits seen: they sit in the half-built byte, the collected bytes are untouched. */
  predicate InsideFlag(r: Receiver, start: Receiver, j: nat) {
    r.Valid() && r.flags == start.flags && r.log == start.log && r.inFrame == start.inFrame
    && (r.inFrame ==> r.frame == start.frame && r.ones == j - 1 && r.bitPos == j)
  }

  lemma {:induction false} InsideOnes(r: Receiver, start: Receiver, j: nat, n: nat)
    requires 1 <= j && j + n <= 7 && InsideFlag(r, start, j)
    ensures InsideFlag(ProcessBits(r, seq(n, _ => true)), start, j + n)
    decreases n
  {
    if n > 0 {
      OneBitIsNoFlag(r.sr);
      hide ShiftIn, WithBit;
      assert InsideFlag(ProcessBit(r, true), start, j + 1);
      InsideOnes(ProcessBit(r, true), start, j + 1, n - 1);
      assert seq(n, _ => true)[1..] == seq(n - 1, _ => true);
    }
  }

  lemma FlagBody(r: Receiver, start: Receiver)
    requires r.Valid() && InsideFlag(ProcessBit(r, false), start, 1)
    ensures InsideFlag(ProcessBits(r, Flag()[..7]), start, 7)
  {
    hide ProcessBit, InsideFlag;
    assert Flag()[..7] == [false] + seq(6, _ => true);
    ProcessBitsConcat(r, [false], seq(6, _ => true));
    OneBit(r, false);
    InsideOnes(ProcessBit(r, false), start, 1, 6);
  }

  lemma FlagBodyDetected(r: Receiver)
    requires r.Valid()
    ensures ProcessBits(r, Flag()) == Detected(ProcessBits(r, Flag()[..7]))
  {
    hide *;
    FlagUnrolled(r);
    SrAfter(r, Flag()[..7]);
    FlagShiftAll(r.sr);
    DetectingBit(ProcessBits(r, Flag()[..7]), false);
  }

  function Detected(r: Receiver): Receiver {
    Synced(r.flags + 1, if r.inFrame && |r.frame| >= 2 then r.log + Verdict(r.frame) else r.log)
  }

  /** The flag after the data reports it and leaves the receiver ready for the next frame. */
  lemma ClosingFlag(r: Receiver, data: seq<Byte>, c: nat, flags: nat, log: seq<Event>)
    requires Tracking(r, data, 8 * |data|, c, flags, log) && c <= 4
    ensures ProcessBits(r, Flag()) == Synced(flags + 1, log + Report(data))
  {
    EndOfData(r, data, c, flags, log);
    hide *;
    FlagBody(r, r);
    FlagBodyDetected(r);
    DetectedReport(r, ProcessBits(r, Flag()[..7]), data);
  }

  lemma DetectedReport(r: Receiver, m: Receiver, data: seq<Byte>)
    requires InsideFlag(m, r, 7)
    requires r.inFrame <==> |data| <= MAX_FRAME_BYTES
    requires r.inFrame ==> r.frame == data
    ensures Detected(m) == Synced(r.flags + 1, r.log + Report(data))
  {
    hide Crc.FcsValid;
    assert r.log + [] == r.log;
  }

  lemma EndOfData(r: Receiver, data: seq<Byte>, c: nat, flags: nat, log: seq<Event>)
    requires Tracking(r, data, 8 * |data|, c, flags, log) && c <= 4
    ensures r.flags == flags && r.log == log
    ensures r.inFrame <==> |data| <= MAX_FRAME_BYTES
    ensures r.inFrame ==> r.frame == data
    ensures InsideFlag(ProcessBit(r, false), r, 1)
  {
    NoFlag(r.sr, c, false);
    hide ShiftIn, WithBit, OnesTail, Bit, Low;
    assert data[..8 * |data| / 8] == data;
  }

  lemma SyncedTracks(data: seq<Byte>, flags: nat, log: seq<Event>)
    ensures Tracking(Synced(flags, log), data, 0, 0, flags, log)
  {}

  lemma IdleFlag(flags: nat, log: seq<Event>)
    ensures ProcessBits(Synced(flags, log), Flag()) == Synced(flags + 1, log)
  {
    SyncedTracks([], flags, log);
    hide ProcessBit, ProcessBits, Tracking, Flag;
    ClosingFlag(Synced(flags, log), [], 0, flags, log);
    assert log + [] == log;
  }

  /** Repeated flags report nothing. */
  lemma {:induction false} IdleFlags(n: nat, flags: nat, log: seq<Event>)
    ensures ProcessBits(Synced(flags, log), Flags(n)) == Synced(flags + n, log)
    decreases n
  {
    hide *;
    SyncedIsValid(flags, log);
    FlagsBack(n);
    if n == 0 {
      NoBits(Synced(flags, log));
    } else {
      IdleFlags(n - 1, flags, log);
      ProcessBitsConcat(Synced(flags, log), Flags(n - 1), Flag());
      IdleFlag(flags + (n - 1), log);
      assert flags + (n - 1) + 1 == flags + n;
    }
  }

  lemma SyncedIsValid(flags: nat, log: seq<Event>)
    ensures Synced(flags, log).Valid()
  {}

  lemma FlagsBack(n: nat)
    ensures Flags(n) == if n == 0 then [] else Flags(n - 1) + Flag()
  {}

  lemma NoBits(r: Receiver)
    requires r.Valid()
    ensures ProcessBits(r, []) == r
  {}

  /** A frame between flags, the receiver in step with the flag before it. */
  lemma FrameBetweenFlags(data: seq<Byte>, flags: nat, log: seq<Event>)
    ensures ProcessBits(Synced(flags, log), Stuff(0, Bits(data)) + Flags(TAIL_FLAGS))
      == Synced(flags + TAIL_FLAGS, log + Report(data))
  {
    hide ProcessBit, ProcessBits, Stuff, Tracking, Report;
    SyncedTracks(data, flags, log);
    assert Bits(data)[0..] == Bits(data);
    var r := ProcessBits(Synced(flags, log), Stuff(0, Bits(data)));
    TrackData(Synced(flags, log), data, 0, 0, flags, log);
    ClosingFlag(r, data, StuffCount(0, Bits(data)), flags, log);
    ProcessBitsConcat(Synced(flags, log), Stuff(0, Bits(data)), Flags(TAIL_FLAGS));
    assert Flags(3) == Flag() + Flags(2) by {
      assert Flags(1) == Flag();
      assert Flags(2) == Flag() + Flag();
    }
    ProcessBitsConcat(r, Flag(), Flags(2));
    IdleFlags(2, flags + 1, log + Report(data));
  }

  /**
   * Self-synchronisation on bits: whatever the state and however the bits up to the first
   * good flag are garbled (g, at most 24 of them), the frame is reported last; before it
   * comes at most one report, and none if fewer than 32 bits can have been collected.
   */
  lemma GarbledStart(r: Receiver, g: seq<bool>, n: nat, data: seq<Byte>) returns (leftover: seq<Event>, flags: nat)
    requires r.Valid() && |g| <= 24 && n >= 1
    ensures ProcessBits(r, g + Flags(n) + Stuff(0, Bits(data)) + Flags(TAIL_FLAGS))
      == Synced(flags, r.log + leftover + Report(data))
    ensures |leftover| <= 1
    ensures Pending(r) + |g| <= 24 ==> leftover == []
  {
    hide ProcessBit, ProcessBits, Stuff, Report, Pending, Flag, Flags, Bits;
    var lead, rest := g + Flag(), Stuff(0, Bits(data)) + Flags(TAIL_FLAGS);
    FlagsFront(n);
    Regroup(g, Flag(), Flags(n - 1), Stuff(0, Bits(data)), Flags(TAIL_FLAGS));
    ProcessBitsConcat(r, lead, Flags(n - 1) + rest);
    ProcessBitsConcat(r, g, Flag());
    FlagSynchronises(ProcessBits(r, g));
    var r1 := ProcessBits(r, lead);
    leftover := FewReports(r, lead);
    ProcessBitsConcat(r1, Flags(n - 1), rest);
    IdleFlags(n - 1, r1.flags, r1.log);
    FrameBetweenFlags(data, r1.flags + n - 1, r1.log);
    flags := r1.flags + n - 1 + TAIL_FLAGS;
  }

  lemma Regroup(a: seq<bool>, b: seq<bool>, c: seq<bool>, d: seq<bool>, e: seq<bool>)
    ensures a + (b + c) + d + e == (a + b) + (c + (d + e))
  {}

  lemma {:induction false} FlagsFront(n: nat)
    requires n >= 1
    ensures Flags(n) == Flag() + Flags(n - 1)
    decreases n
  {
    if n > 1 {
      FlagsFront(n - 1);
      assert (Flag() + Flags(n - 2)) + Flag() == Flag() + (Flags(n - 2) + Flag());
    }
  }
}
