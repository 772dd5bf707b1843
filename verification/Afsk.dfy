/**
 * The sample level of the modem. A sample is represented by the tone the modulator held
 * (true = mark), which is also the decision of an ideal slicer on that sample.
 *
 * Times are exact integers. The modulator's fractional accumulator is kept in 1/1200 sample
 * (AfskModulator.cpp:38-55); the demodulator's symbol phase in 1/2400 sample, so that one
 * sample is 2400, one symbol 2 * rate and the midpoint rate (AfskDemodulator.cpp:138-152).
 */
module Afsk {
  import opened Bytes
  import opened Hdlc

  // ---------------------------------------------------------------- transmitter

  const BAUD := 1200

  /** The tone held and the fractional samples owed. */
  datatype Line = Line(tone: bool, acc: nat) {
    predicate Valid() {
      acc < BAUD
    }
  }

  /** `reset()`. */
  const RESET := Line(true, 0)

  function Hold(tone: bool, n: nat): (s: seq<bool>)
    ensures |s| == n
  {
    seq(n, _ => tone)
  }

  /** How many samples the next bit gets, and what is then owed. */
  function BitSamples(rate: nat, acc: nat): nat {
    (acc + rate) / BAUD
  }

  function LineStep(rate: nat, l: Line, bit: bool): (l': Line)
    ensures l'.Valid()
  {
    Line(if bit then l.tone else !l.tone, (l.acc + rate) % BAUD)
  }

  function LineAfter(rate: nat, l: Line, bits: seq<bool>): (l': Line)
    ensures l.Valid() ==> l'.Valid()
    decreases |bits|
  {
    if bits == [] then l else LineAfter(rate, LineStep(rate, l, bits[0]), bits[1..])
  }

  /** The samples of a sequence of line bits: a 0 changes the tone, a 1 keeps it. */
  function Sound(rate: nat, l: Line, bits: seq<bool>): seq<bool>
    decreases |bits|
  {
    if bits == [] then []
    else Hold(LineStep(rate, l, bits[0]).tone, BitSamples(rate, l.acc)) + Sound(rate, LineStep(rate, l, bits[0]), bits[1..])
  }

  lemma {:induction false} SoundConcat(rate: nat, l: Line, a: seq<bool>, b: seq<bool>)
    ensures Sound(rate, l, a + b) == Sound(rate, l, a) + Sound(rate, LineAfter(rate, l, a), b)
    ensures LineAfter(rate, l, a + b) == LineAfter(rate, LineAfter(rate, l, a), b)
    decreases |a|
  {
    if a == [] {
      assert a + b == b;
    } else {
      assert (a + b)[1..] == a[1..] + b;
      SoundConcat(rate, LineStep(rate, l, a[0]), a[1..], b);
    }
  }

  lemma SoundOne(rate: nat, l: Line, bit: bool)
    ensures Sound(rate, l, [bit]) == Hold(LineStep(rate, l, bit).tone, BitSamples(rate, l.acc))
    ensures LineAfter(rate, l, [bit]) == LineStep(rate, l, bit)
  {
    assert [bit][1..] == [];
  }

  /** After k bits exactly floor((acc + k * rate) / 1200) samples have been produced. */
  lemma {:induction false} SoundLength(rate: nat, l: Line, bits: seq<bool>)
    requires l.Valid()
    ensures |Sound(rate, l, bits)| == (l.acc + |bits| * rate) / BAUD
    ensures LineAfter(rate, l, bits).acc == (l.acc + |bits| * rate) % BAUD
    decreases |bits|
  {
    if bits != [] {
      SoundLength(rate, LineStep(rate, l, bits[0]), bits[1..]);
      Carry(l.acc + rate, |bits[1..]| * rate);
      OneMore(|bits[1..]|, rate);
    }
  }

  lemma OneMore(n: nat, rate: nat)
    ensures (n + 1) * rate == rate + n * rate
  {}

  lemma Carry(x: nat, m: nat)
    ensures x / BAUD + (x % BAUD + m) / BAUD == (x + m) / BAUD
    ensures (x % BAUD + m) % BAUD == (x + m) % BAUD
  {}

  function Zeros(bits: seq<bool>): nat {
    if bits == [] then 0 else (if bits[0] then 0 else 1) + Zeros(bits[1..])
  }

  lemma {:induction false} ToneAfter(rate: nat, l: Line, bits: seq<bool>)
    ensures LineAfter(rate, l, bits).tone == (l.tone == (Zeros(bits) % 2 == 0))
    decreases |bits|
  {
    if bits != [] {
      ToneAfter(rate, LineStep(rate, l, bits[0]), bits[1..]);
    }
  }

  /** The samples of bit period i hold the tone at the start, changed once for each 0 up to and including bit i. */
  lemma SampleTone(rate: nat, l: Line, bits: seq<bool>, i: nat, j: nat)
    requires l.Valid() && i < |bits| && (l.acc + i * rate) / 1200 <= j < (l.acc + (i + 1) * rate) / 1200
    ensures j < |Sound(rate, l, bits)|
    ensures Sound(rate, l, bits)[j] == (l.tone == (Zeros(bits[..i + 1]) % 2 == 0))
  {
    var a, rest := bits[..i], bits[i + 1..];
    assert bits == a + ([bits[i]] + rest) && bits[..i + 1] == a + [bits[i]];
    SoundConcat(rate, l, a, [bits[i]] + rest);
    var mid := LineAfter(rate, l, a);
    SoundConcat(rate, mid, [bits[i]], rest);
    SoundOne(rate, mid, bits[i]);
    SoundLength(rate, l, a);
    SoundLength(rate, l, a + [bits[i]]);
    SoundConcat(rate, l, a, [bits[i]]);
    ToneAfter(rate, l, a + [bits[i]]);
    hide Sound, LineAfter, Zeros, LineStep, BitSamples;
    var k := |Sound(rate, l, a)|;
    assert Sound(rate, l, bits)[j] == Sound(rate, mid, [bits[i]])[j - k];
  }

  // ---------------------------------------------------------------- receiver

  datatype Demod = Demod(phase: int, prev: bool, nrzi: bool, rx: Receiver) {
    predicate Valid(rate: nat) {
      0 <= phase < 2 * rate && rx.Valid()
    }
  }

  const FRESH_DEMOD := Demod(0, false, false, FRESH)

  /** `process_symbol`: the same level as before is a 1. */
  function Symbol(d: Demod, mark: bool): Demod
    requires d.rx.Valid()
  {
    d.(nrzi := mark, rx := ProcessBit(d.rx, mark == d.nrzi))
  }

  /** `process_sample` after the slicer: a transition snaps the clock to mid-symbol. */
  function ProcessSample(rate: nat, d: Demod, mark: bool): (d': Demod)
    requires rate >= BAUD && d.Valid(rate)
    ensures d'.Valid(rate)
  {
    var phase := (if mark != d.prev then rate else d.phase) + 2 * BAUD;
    if phase >= 2 * rate then Symbol(d.(phase := phase - 2 * rate, prev := mark), mark)
    else d.(phase := phase, prev := mark)
  }

  function ProcessSamples(rate: nat, d: Demod, samples: seq<bool>): (d': Demod)
    requires rate >= BAUD && d.Valid(rate)
    ensures d'.Valid(rate)
    decreases |samples|
  {
    if samples == [] then d else ProcessSamples(rate, ProcessSample(rate, d, samples[0]), samples[1..])
  }

  /** Cutting the stream into blocks makes no difference. */
  lemma {:induction false} ProcessSamplesConcat(rate: nat, d: Demod, a: seq<bool>, b: seq<bool>)
    requires rate >= BAUD && d.Valid(rate)
    ensures ProcessSamples(rate, d, a + b) == ProcessSamples(rate, ProcessSamples(rate, d, a), b)
    decreases |a|
  {
    hide ProcessSample;
    if a == [] {
      assert a + b == b;
    } else {
      assert (a + b)[1..] == a[1..] + b;
      ProcessSamplesConcat(rate, ProcessSample(rate, d, a[0]), a[1..], b);
    }
  }

  // ---------------------------------------------------------------- the symbol clock

  /** The bits decoded from k symbols of one tone. */
  function RunBits(first: bool, k: nat): (bits: seq<bool>)
    ensures |bits| == k
  {
    if k == 0 then [] else [first] + Hold(true, k - 1)
  }

  /** The phase after n samples and k fired symbols. */
  function PhaseAfter(rate: nat, phase: int, n: nat, k: nat): int {
    phase + 2 * BAUD * n - 2 * rate * k
  }

  lemma PhaseStep(rate: nat, phase: int, n: nat, k: nat)
    ensures PhaseAfter(rate, phase, 0, 0) == phase
    ensures PhaseAfter(rate, phase + 2 * BAUD, n, k) == PhaseAfter(rate, phase, n + 1, k)
    ensures PhaseAfter(rate, phase + 2 * BAUD - 2 * rate, n, k) == PhaseAfter(rate, phase, n + 1, k + 1)
  {
    OneMore(k, 2 * rate);
  }

  /** n samples of the tone already held: the clock runs on and fires k times, with k fixed by the arithmetic. */
  lemma {:induction false} SameTone(rate: nat, d: Demod, n: nat) returns (k: nat)
    requires rate >= BAUD && d.Valid(rate)
    ensures var phase := PhaseAfter(rate, d.phase, n, k);
      0 <= phase < 2 * rate
      && ProcessSamples(rate, d, Hold(d.prev, n))
        == Demod(phase, d.prev, if k > 0 then d.prev else d.nrzi, ProcessBits(d.rx, RunBits(d.nrzi == d.prev, k)))
    decreases n
  {
    hide ProcessBit, ProcessSample, PhaseAfter;
    if n == 0 {
      k := 0;
      PhaseStep(rate, d.phase, 0, 0);
    } else {
      SameToneStep(rate, d);
      assert Hold(d.prev, n)[1..] == Hold(d.prev, n - 1);
      var m := SameTone(rate, ProcessSample(rate, d, d.prev), n - 1);
      PhaseStep(rate, d.phase, n - 1, m);
      if d.phase + 2 * BAUD >= 2 * rate {
        k := m + 1;
        RunBitsCons(d.nrzi == d.prev, m);
      } else {
        k := m;
      }
    }
  }

  lemma SameToneStep(rate: nat, d: Demod)
    requires rate >= BAUD && d.Valid(rate)
    ensures ProcessSample(rate, d, d.prev)
      == if d.phase + 2 * BAUD >= 2 * rate
         then Demod(d.phase + 2 * BAUD - 2 * rate, d.prev, d.prev, ProcessBit(d.rx, d.nrzi == d.prev))
         else d.(phase := d.phase + 2 * BAUD)
  {
    hide ProcessBit;
  }

  lemma RunBitsCons(first: bool, m: nat)
    ensures RunBits(first, m + 1)[1..] == RunBits(true, m)
  {}

  /** The clocks may differ as long as seven symbols' drift plus one sample stays within half a symbol. */
  predicate ClockOk(rx: nat, tx: nat) {
    14 * tx + 2 * BAUD <= 15 * rx && 13 * rx + 2 * BAUD <= 14 * tx
  }

  lemma ClockOkMeans(rx: nat, tx: nat)
    ensures ClockOk(rx, tx) <==> 14 * (if tx > rx then tx - rx else rx - tx) + 2 * BAUD <= rx
  {}

  /** The receiver's phase at the end of the j-th bit period since a transition made with a0 owed. */
  function Expected(rx: int, tx: int, a0: int, acc: int, j: int): int {
    rx + 2 * (a0 - acc) + 2 * j * (tx - rx)
  }

  /** The demodulator at a bit boundary, j bit periods after the last transition. */
  predicate InStep(rx: nat, tx: nat, d: Demod, l: Line, a0: nat, j: nat) {
    d.prev == l.tone && d.nrzi == l.tone && a0 < BAUD && l.Valid() && d.rx.Valid()
    && 1 <= j <= 7 && d.phase == Expected(rx, tx, a0, l.acc, j)
  }

  lemma ExpectedBounds(rx: nat, tx: nat, a0: nat, acc: nat, j: nat)
    requires ClockOk(rx, tx) && a0 < BAUD && acc < BAUD && j <= 7
    ensures 0 <= Expected(rx, tx, a0, acc, j) < 2 * rx
    ensures rx >= BAUD && tx >= BAUD
  {
    if tx >= rx {
      assert 0 <= j * (tx - rx) <= 7 * (tx - rx);
    } else {
      assert 7 * (tx - rx) <= j * (tx - rx) <= 0;
    }
  }

  /** One bit period of samples moves the expected phase on by exactly one symbol. */
  lemma ExpectedStep(rx: nat, tx: nat, a0: nat, acc: nat, j: nat)
    ensures PhaseAfter(rx, Expected(rx, tx, a0, acc, j), BitSamples(tx, acc), 1)
      == Expected(rx, tx, a0, (acc + tx) % BAUD, j + 1)
  {
    assert (j + 1) * (tx - rx) == j * (tx - rx) + (tx - rx);
  }

  lemma OneSymbol(rate: nat, phase: int, n: nat, k: nat)
    requires 0 <= PhaseAfter(rate, phase, n, 1) < 2 * rate && 0 <= PhaseAfter(rate, phase, n, k) < 2 * rate
    ensures k == 1
  {
    Multiples(rate, k);
  }

  lemma Multiples(rx: nat, k: nat)
    ensures k == 0 ==> rx * k == 0
    ensures k >= 2 ==> rx * k >= rx * 2
  {}

  /** A 1 received in step: one symbol fires and decodes to 1. */
  lemma HoldBit(rx: nat, tx: nat, d: Demod, l: Line, a0: nat, j: nat)
    requires ClockOk(rx, tx) && InStep(rx, tx, d, l, a0, j) && j < 7
    ensures rx >= BAUD && d.Valid(rx)
    ensures var d' := ProcessSamples(rx, d, Sound(tx, l, [true]));
      InStep(rx, tx, d', LineStep(tx, l, true), a0, j + 1) && d'.rx == ProcessBit(d.rx, true)
  {
    hide ProcessBit, ProcessSamples, Expected;
    var l' := LineStep(tx, l, true);
    ExpectedBounds(rx, tx, a0, l.acc, j);
    ExpectedBounds(rx, tx, a0, l'.acc, j + 1);
    ExpectedStep(rx, tx, a0, l.acc, j);
    SoundOne(tx, l, true);
    SingleSymbol(rx, d, BitSamples(tx, l.acc), Expected(rx, tx, a0, l'.acc, j + 1));
  }

  /** A change of tone puts the clock in step and fires one symbol, whatever the clock was doing before. */
  lemma TransitionBit(rx: nat, tx: nat, d: Demod, l: Line)
    requires ClockOk(rx, tx) && rx >= BAUD && d.Valid(rx) && l.Valid() && d.prev == l.tone
    ensures var d' := ProcessSamples(rx, d, Sound(tx, l, [false]));
      InStep(rx, tx, d', LineStep(tx, l, false), l.acc, 1) && d'.rx == ProcessBit(d.rx, d.nrzi != l.tone)
  {
    hide ProcessBit, ProcessSamples, Expected;
    var l' := LineStep(tx, l, false);
    var n := BitSamples(tx, l.acc);
    ExpectedBounds(rx, tx, l.acc, l'.acc, 1);
    ExpectedStep(rx, tx, l.acc, l.acc, 0);
    SoundOne(tx, l, false);
    AtLeastOne(tx, l.acc);
    Snap(rx, d, l'.tone, n);
    SingleSymbol(rx, d.(phase := rx, prev := l'.tone), n, Expected(rx, tx, l.acc, l'.acc, 1));
  }

  lemma AtLeastOne(tx: nat, acc: nat)
    requires tx >= BAUD
    ensures BitSamples(tx, acc) >= 1
    ensures forall rx: int :: Expected(rx, tx, acc, acc, 0) == rx
  {}

  /** Samples that carry the phase past exactly one threshold fire exactly one symbol. */
  lemma SingleSymbol(rate: nat, d: Demod, n: nat, phase: int)
    requires rate >= BAUD && d.Valid(rate)
    requires PhaseAfter(rate, d.phase, n, 1) == phase && 0 <= phase < 2 * rate
    ensures ProcessSamples(rate, d, Hold(d.prev, n)) == Demod(phase, d.prev, d.prev, ProcessBit(d.rx, d.nrzi == d.prev))
  {
    hide ProcessBit, ProcessSamples, PhaseAfter;
    var k := SameTone(rate, d, n);
    OneSymbol(rate, d.phase, n, k);
    OneBit(d.rx, d.nrzi == d.prev);
    assert RunBits(d.nrzi == d.prev, 1) == [d.nrzi == d.prev];
  }

  /** The first sample of a new tone acts as if the clock had stood at mid-symbol. */
  lemma Snap(rate: nat, d: Demod, tone: bool, n: nat)
    requires rate >= BAUD && d.Valid(rate) && tone != d.prev && n >= 1
    ensures ProcessSamples(rate, d, Hold(tone, n)) == ProcessSamples(rate, d.(phase := rate, prev := tone), Hold(tone, n))
  {
    hide ProcessBit;
    assert ProcessSample(rate, d, tone) == ProcessSample(rate, d.(phase := rate, prev := tone), tone);
  }

  // ---------------------------------------------------------------- runs of at most seven bit periods

  /** Counting bit periods since the last transition, no count exceeds seven. */
  predicate RunsOk(j: nat, bits: seq<bool>)
    decreases |bits|
  {
    bits == [] || (if bits[0] then j < 7 && RunsOk(j + 1, bits[1..]) else RunsOk(1, bits[1..]))
  }

  function RunAfter(j: nat, bits: seq<bool>): nat
    decreases |bits|
  {
    if bits == [] then j else RunAfter(if bits[0] then j + 1 else 1, bits[1..])
  }

  lemma {:induction false} RunsConcat(j: nat, a: seq<bool>, b: seq<bool>)
    ensures RunsOk(j, a + b) <==> RunsOk(j, a) && RunsOk(RunAfter(j, a), b)
    ensures RunAfter(j, a + b) == RunAfter(RunAfter(j, a), b)
    decreases |a|
  {
    if a == [] {
      assert a + b == b;
    } else {
      assert (a + b)[1..] == a[1..] + b;
      RunsConcat(if a[0] then j + 1 else 1, a[1..], b);
    }
  }

  /** In step, the receiver decodes exactly the bits sent, and stays in step. */
  lemma {:induction false} ReceiveBits(rx: nat, tx: nat, d: Demod, l: Line, a0: nat, j: nat, bits: seq<bool>) returns (a1: nat)
    requires ClockOk(rx, tx) && InStep(rx, tx, d, l, a0, j) && RunsOk(j, bits)
    ensures rx >= BAUD && d.Valid(rx)
    ensures var d' := ProcessSamples(rx, d, Sound(tx, l, bits));
      InStep(rx, tx, d', LineAfter(tx, l, bits), a1, RunAfter(j, bits)) && d'.rx == ProcessBits(d.rx, bits)
    decreases |bits|
  {
    ExpectedBounds(rx, tx, a0, l.acc, j);
    hide ProcessBit, Expected, InStep, ProcessSample, LineStep;
    assert d.Valid(rx) && l.Valid() && d.prev == l.tone && d.nrzi == l.tone by { InStepMeans(rx, tx, d, l, a0, j); }
    if bits == [] {
      a1 := a0;
    } else {
      assert bits == [bits[0]] + bits[1..];
      SoundConcat(tx, l, [bits[0]], bits[1..]);
      SoundOne(tx, l, bits[0]);
      ProcessSamplesConcat(rx, d, Sound(tx, l, [bits[0]]), Sound(tx, LineStep(tx, l, bits[0]), bits[1..]));
      var d1 := ProcessSamples(rx, d, Sound(tx, l, [bits[0]]));
      if bits[0] {
        HoldBit(rx, tx, d, l, a0, j);
        a1 := ReceiveBits(rx, tx, d1, LineStep(tx, l, true), a0, j + 1, bits[1..]);
      } else {
        TransitionBit(rx, tx, d, l);
        a1 := ReceiveBits(rx, tx, d1, LineStep(tx, l, false), l.acc, 1, bits[1..]);
      }
    }
  }

  lemma InStepMeans(rx: nat, tx: nat, d: Demod, l: Line, a0: nat, j: nat)
    requires ClockOk(rx, tx) && InStep(rx, tx, d, l, a0, j)
    ensures d.Valid(rx) && l.Valid() && d.prev == l.tone && d.nrzi == l.tone
  {
    ExpectedBounds(rx, tx, a0, l.acc, j);
  }

  // ---------------------------------------------------------------- one burst

  lemma FlagRuns(j: nat)
    ensures RunsOk(j, Flag()) && RunAfter(j, Flag()) == 1
  {
    var f := Flag();
    assert f[1..] == [true, true, true, true, true, true, false];
    assert f[1..][1..] == [true, true, true, true, true, false];
    assert f[1..][1..][1..] == [true, true, true, true, false];
    assert [true, true, true, true, false][1..] == [true, true, true, false];
    assert [true, true, true, false][1..] == [true, true, false];
    assert [true, true, false][1..] == [true, false];
    assert [true, false][1..] == [false];
  }

  lemma {:induction false} FlagsRuns(j: nat, n: nat)
    ensures RunsOk(j, Flags(n)) && RunAfter(j, Flags(n)) == if n == 0 then j else 1
    decreases n
  {
    assert RunsOk(j, []) && RunAfter(j, []) == j;
    hide *;
    FlagsBack(n);
    if n > 0 {
      FlagsRuns(j, n - 1);
      FlagRuns(RunAfter(j, Flags(n - 1)));
      RunsConcat(j, Flags(n - 1), Flag());
    }
  }

  lemma {:induction false} StuffRuns(c: nat, bits: seq<bool>)
    requires c <= 4
    ensures RunsOk(c + 1, Stuff(c, bits))
    decreases |bits|
  {
    if bits != [] {
      RunsConcat(c + 1, StuffOne(c, bits[0]), Stuff(StuffNext(c, bits[0]), bits[1..]));
      StuffRuns(StuffNext(c, bits[0]), bits[1..]);
      assert [bits[0]][1..] == [];
      assert [true, false][1..] == [false];
      assert [false][1..] == [];
    }
  }

  /** Inside a burst no tone is held for more than seven bit periods. */
  lemma BurstRuns(n: nat, data: seq<Byte>)
    ensures RunsOk(1, Flags(n) + (Stuff(0, Bits(data)) + Flags(TAIL_FLAGS)))
  {
    hide Flags, Stuff, Bits, RunsOk, RunAfter;
    var body := Stuff(0, Bits(data));
    FlagsRuns(1, n);
    StuffRuns(0, Bits(data));
    FlagsRuns(RunAfter(1, body), TAIL_FLAGS);
    RunsConcat(1, body, Flags(TAIL_FLAGS));
    RunsConcat(1, Flags(n), body + Flags(TAIL_FLAGS));
  }

  /** Ones leave the tone alone. */
  lemma {:induction false} LongHold(rate: nat, l: Line, n: nat)
    requires l.Valid()
    ensures Sound(rate, l, Hold(true, n)) == Hold(l.tone, |Sound(rate, l, Hold(true, n))|)
    ensures LineAfter(rate, l, Hold(true, n)).tone == l.tone
    decreases n
  {
    if n > 0 {
      assert Hold(true, n)[1..] == Hold(true, n - 1);
      LongHold(rate, LineStep(rate, l, true), n - 1);
    }
  }

  /** The first seven bits of a flag: one change of tone and then one long hold. */
  function FlagHead(): seq<bool> {
    [false] + Hold(true, 6)
  }

  lemma FlagHeadSound(rate: nat, l: Line)
    requires l.Valid()
    ensures Sound(rate, l, FlagHead()) == Hold(!l.tone, (l.acc + 7 * rate) / BAUD)
    ensures LineAfter(rate, l, FlagHead()).tone == !l.tone
  {
    SoundConcat(rate, l, [false], Hold(true, 6));
    SoundOne(rate, l, false);
    LongHold(rate, LineStep(rate, l, false), 6);
    SoundLength(rate, l, FlagHead());
  }

  /** From any state, the first flag of a burst makes at most nine symbols and leaves the clock in step. */
  lemma FirstFlag(rx: nat, tx: nat, d: Demod, l: Line) returns (g: seq<bool>, a0: nat)
    requires ClockOk(rx, tx) && rx >= BAUD && d.Valid(rx) && l.Valid()
    ensures |g| <= 9
    ensures var d' := ProcessSamples(rx, d, Sound(tx, l, Flag()));
      InStep(rx, tx, d', LineAfter(tx, l, Flag()), a0, 1) && d'.rx == ProcessBits(d.rx, g)
  {
    hide ProcessBit, ProcessSample, LineStep, InStep;
    var n := (l.acc + 7 * tx) / BAUD;
    ExpectedBounds(rx, tx, 0, 0, 0);
    FlagHeadSound(tx, l);
    assert Flag() == FlagHead() + [false];
    SoundConcat(tx, l, FlagHead(), [false]);
    var l1 := LineAfter(tx, l, FlagHead());
    assert n >= 1;
    var k, d1 := FirstHold(rx, tx, d, !l.tone, n);
    ProcessSamplesConcat(rx, d, Hold(!l.tone, n), Sound(tx, l1, [false]));
    TransitionBit(rx, tx, d1, l1);
    SoundOne(tx, l1, false);
    a0 := l1.acc;
    var first := d.nrzi == !l.tone;
    g := RunBits(first, k) + [d1.nrzi != l1.tone];
    ProcessBitsConcat(d.rx, RunBits(first, k), [d1.nrzi != l1.tone]);
    OneBit(d1.rx, d1.nrzi != l1.tone);
  }

  lemma FirstHold(rx: nat, tx: nat, d: Demod, tone: bool, n: nat) returns (k: nat, d1: Demod)
    requires ClockOk(rx, tx) && rx >= BAUD && d.Valid(rx)
    requires 1 <= n && BAUD * n < BAUD + 7 * tx
    ensures k <= 8
    ensures d1 == ProcessSamples(rx, d, Hold(tone, n)) && d1.prev == tone
    ensures d1.rx == ProcessBits(d.rx, RunBits(d.nrzi == tone, k))
  {
    hide ProcessBit, ProcessSample, ProcessSamples, PhaseAfter;
    var d0 := if tone != d.prev then d.(phase := rx, prev := tone) else d;
    if tone != d.prev {
      Snap(rx, d, tone, n);
    }
    k := SameTone(rx, d0, n);
    d1 := ProcessSamples(rx, d, Hold(tone, n));
    AtMostEight(rx, tx, d0.phase, n, k);
  }

  lemma AtMostEight(rx: nat, tx: nat, phase: int, n: nat, k: nat)
    requires ClockOk(rx, tx) && phase < 2 * rx && BAUD * n < BAUD + 7 * tx
    requires 0 <= PhaseAfter(rx, phase, n, k)
    ensures k <= 8
  {
    NineSymbols(rx, k);
  }

  lemma NineSymbols(rx: nat, k: nat)
    ensures k >= 9 ==> rx * k >= 9 * rx
  {}

  /**
   * One burst from any state: the frame sent is reported last; before it comes at most one
   * report left over from what was half-received, and none if under 16 bits were pending.
   */
  lemma BurstReceived(rx: nat, tx: nat, d: Demod, l: Line, data: seq<Byte>) returns (leftover: seq<Event>, a0: nat, j: nat)
    requires ClockOk(rx, tx) && rx >= BAUD && d.Valid(rx) && l.Valid()
    ensures var d' := ProcessSamples(rx, d, Sound(tx, l, Wire(data)));
      d'.rx == Synced(d'.rx.flags, d.rx.log + leftover + Report(data))
      && InStep(rx, tx, d', LineAfter(tx, l, Wire(data)), a0, j)
    ensures |leftover| <= 1
    ensures Pending(d.rx) <= 15 ==> leftover == []
  {
    hide ProcessBit, ProcessSample, ProcessSamples, ProcessBits, InStep, LineStep, Stuff, Flags, Flag, Report, Pending, RunsOk, Sound, LineAfter, Bits;
    var rest := Flags(PREAMBLE_FLAGS) + (Stuff(0, Bits(data)) + Flags(TAIL_FLAGS));
    FlagsFront(PREAMBLE_FLAGS + 1);
    assert Wire(data) == Flag() + rest;
    SoundConcat(tx, l, Flag(), rest);
    var l1 := LineAfter(tx, l, Flag());
    ProcessSamplesConcat(rx, d, Sound(tx, l, Flag()), Sound(tx, l1, rest));
    var g, a := FirstFlag(rx, tx, d, l);
    var d1 := ProcessSamples(rx, d, Sound(tx, l, Flag()));
    BurstRuns(PREAMBLE_FLAGS, data);
    a0 := ReceiveBits(rx, tx, d1, l1, a, 1, rest);
    j := RunAfter(1, rest);
    ProcessBitsConcat(d.rx, g, rest);
    var flags;
    leftover, flags := GarbledStart(d.rx, g, PREAMBLE_FLAGS, data);
    assert g + rest == g + Flags(PREAMBLE_FLAGS) + Stuff(0, Bits(data)) + Flags(TAIL_FLAGS);
  }

  // ---------------------------------------------------------------- many bursts

  /** One call of `modulate_frame`, on the running modulator or on a freshly reset one. */
  datatype Job = Job(reset: bool, data: seq<Byte>)

  function StartLine(l: Line, job: Job): Line {
    if job.reset then RESET else l
  }

  /** All the samples of the bursts, one after another. */
  function Air(tx: nat, l: Line, jobs: seq<Job>): seq<bool>
    decreases |jobs|
  {
    if jobs == [] then []
    else
      var l0 := StartLine(l, jobs[0]);
      Sound(tx, l0, Wire(jobs[0].data)) + Air(tx, LineAfter(tx, l0, Wire(jobs[0].data)), jobs[1..])
  }

  function Reports(jobs: seq<Job>): seq<Event> {
    if jobs == [] then [] else Report(jobs[0].data) + Reports(jobs[1..])
  }

  /** With nothing much pending, every burst is reported as it was sent, in order, and nothing else is. */
  lemma {:induction false} ChannelReports(rx: nat, tx: nat, d: Demod, l: Line, jobs: seq<Job>)
    requires ClockOk(rx, tx) && rx >= BAUD && d.Valid(rx) && l.Valid() && Pending(d.rx) <= 15
    ensures ProcessSamples(rx, d, Air(tx, l, jobs)).rx.log == d.rx.log + Reports(jobs)
    decreases |jobs|
  {
    hide ProcessSample, InStep, Sound, Wire, Report, LineStep, ClockOk;
    if jobs == [] {
      assert d.rx.log + [] == d.rx.log;
    } else {
      var l0 := StartLine(l, jobs[0]);
      var l1 := LineAfter(tx, l0, Wire(jobs[0].data));
      var burst := Sound(tx, l0, Wire(jobs[0].data));
      var leftover, a0, j := BurstReceived(rx, tx, d, l0, jobs[0].data);
      var d1 := ProcessSamples(rx, d, burst);
      hide ProcessSamples;
      assert d.rx.log + [] == d.rx.log;
      ChannelReports(rx, tx, d1, l1, jobs[1..]);
      ProcessSamplesConcat(rx, d, burst, Air(tx, l1, jobs[1..]));
      assert (d.rx.log + Report(jobs[0].data)) + Reports(jobs[1..]) == d.rx.log + (Report(jobs[0].data) + Reports(jobs[1..]));
    }
  }

  /** A frame a receiver accepts: 4 to 330 bytes, the last two its check sequence. */
  predicate Deliverable(data: seq<Byte>) {
    4 <= |data| <= MAX_FRAME_BYTES && Crc.FcsValid(data)
  }

  function Delivered(log: seq<Event>): seq<seq<Byte>> {
    if log == [] then []
    else (if log[0].Frame? then [log[0].data] else []) + Delivered(log[1..])
  }

  function Rejected(log: seq<Event>): nat {
    if log == [] then 0 else (if log[0].Reject? then 1 else 0) + Rejected(log[1..])
  }

  lemma {:induction false} DeliveredConcat(a: seq<Event>, b: seq<Event>)
    ensures Delivered(a + b) == Delivered(a) + Delivered(b)
  {
    if a == [] {
      assert a + b == b;
    } else {
      assert (a + b)[1..] == a[1..] + b;
      DeliveredConcat(a[1..], b);
    }
  }

  lemma {:induction false} RejectedConcat(a: seq<Event>, b: seq<Event>)
    ensures Rejected(a + b) == Rejected(a) + Rejected(b)
  {
    if a == [] {
      assert a + b == b;
    } else {
      assert (a + b)[1..] == a[1..] + b;
      RejectedConcat(a[1..], b);
    }
  }

  /** What was sent with 4 to 330 bytes and a good check sequence, in order. */
  function GoodFrames(jobs: seq<Job>): seq<seq<Byte>> {
    if jobs == [] then [] else (if Deliverable(jobs[0].data) then [jobs[0].data] else []) + GoodFrames(jobs[1..])
  }

  /** How many were sent with 4 to 330 bytes and a bad one. */
  function BadFrames(jobs: seq<Job>): nat {
    if jobs == [] then 0
    else (if 4 <= |jobs[0].data| <= 330 && !Crc.FcsValid(jobs[0].data) then 1 else 0) + BadFrames(jobs[1..])
  }

  function Frames(jobs: seq<Job>): (frames: seq<seq<Byte>>)
    ensures |frames| == |jobs|
  {
    seq(|jobs|, i requires 0 <= i < |jobs| => jobs[i].data)
  }

  lemma {:induction false} AllGood(jobs: seq<Job>)
    requires forall i :: 0 <= i < |jobs| ==> Deliverable(jobs[i].data)
    ensures GoodFrames(jobs) == Frames(jobs) && BadFrames(jobs) == 0
  {
    hide Crc.FcsValid;
    if jobs != [] {
      assert Deliverable(jobs[0].data);
      AllGood(jobs[1..]);
      assert Frames(jobs) == [jobs[0].data] + Frames(jobs[1..]);
    }
  }

  /** One report for what was sent: delivered when good, rejected when bad, none when too short or too long. */
  function Outcome(data: seq<Byte>): seq<Event> {
    if Deliverable(data) then [Frame(data)] else if 4 <= |data| <= 330 then [Reject] else []
  }

  lemma ReportIs(data: seq<Byte>)
    ensures Report(data) == Outcome(data)
  {
    hide Crc.FcsValid;
  }

  lemma {:induction false} ReportsAre(jobs: seq<Job>)
    ensures Delivered(Reports(jobs)) == GoodFrames(jobs) && Rejected(Reports(jobs)) == BadFrames(jobs)
  {
    if jobs != [] {
      var data := jobs[0].data;
      ReportIs(data);
      ReportsAre(jobs[1..]);
      DeliveredConcat(Report(data), Reports(jobs[1..]));
      RejectedConcat(Report(data), Reports(jobs[1..]));
      assert [Frame(data)][1..] == [] && [Reject][1..] == [];
      hide Crc.FcsValid, Report;
    }
  }

  /**
   * The modem round trip, for any data whatever: a fresh demodulator delivers exactly what was
   * sent with a good check sequence and a legal length, in order, and rejects once each frame of
   * legal length with a bad one.
   */
  lemma ModemRoundTrip(rx: nat, tx: nat, l: Line, jobs: seq<Job>)
    requires ClockOk(rx, tx) && rx >= BAUD && l.Valid()
    ensures var log := ProcessSamples(rx, FRESH_DEMOD, Air(tx, l, jobs)).rx.log;
      Delivered(log) == GoodFrames(jobs) && Rejected(log) == BadFrames(jobs)
  {
    hide ProcessSample, ProcessSamples, Air, Reports, ClockOk;
    ChannelReports(rx, tx, FRESH_DEMOD, l, jobs);
    ReportsAre(jobs);
    assert [] + Reports(jobs) == Reports(jobs);
  }

  /** Self-synchronisation: from any state what is sent has its outcome last, after at most one leftover report. */
  lemma SelfSynchronising(rx: nat, tx: nat, d: Demod, l: Line, data: seq<Byte>)
    requires ClockOk(rx, tx) && rx >= BAUD && d.Valid(rx) && l.Valid()
    ensures var log := ProcessSamples(rx, d, Sound(tx, l, Wire(data))).rx.log;
      log == d.rx.log + Outcome(data) || exists e :: log == d.rx.log + [e] + Outcome(data)
  {
    hide ProcessSample, ProcessSamples, Sound, Wire, ClockOk, Crc.FcsValid, InStep;
    var leftover, a0, j := BurstReceived(rx, tx, d, l, data);
    ReportIs(data);
    if leftover == [] {
      assert d.rx.log + [] == d.rx.log;
    } else {
      assert leftover == [leftover[0]];
    }
  }

  lemma SampleChecked(rx: nat, d: Demod, mark: bool)
    requires rx >= BAUD && d.Valid(rx)
    ensures var log := ProcessSample(rx, d, mark).rx.log;
      d.rx.log <= log && forall k :: |d.rx.log| <= k < |log| ==> Checked(log[k])
  {
    BitChecked(d.rx, mark == d.nrzi);
    hide ProcessBit, Checked;
  }

  /** From any valid state and for any samples whatever: nothing is delivered without a good check sequence. */
  lemma {:induction false} OnlyGoodDelivered(rx: nat, d: Demod, samples: seq<bool>)
    requires rx >= BAUD && d.Valid(rx)
    ensures var log := ProcessSamples(rx, d, samples).rx.log;
      d.rx.log <= log && forall k :: |d.rx.log| <= k < |log| && log[k].Frame? ==> Deliverable(log[k].data)
    decreases |samples|
  {
    if samples != [] {
      var d1 := ProcessSample(rx, d, samples[0]);
      SampleChecked(rx, d, samples[0]);
      hide Crc.FcsValid, ProcessSample;
      OnlyGoodDelivered(rx, d1, samples[1..]);
      var log, log1 := ProcessSamples(rx, d, samples).rx.log, d1.rx.log;
      forall k | |d.rx.log| <= k < |log| && log[k].Frame? ensures Deliverable(log[k].data) {
        if k < |log1| {
          assert log[k] == log1[k] && Checked(log1[k]);
        }
      }
    }
  }

  // ---------------------------------------------------------------- buffer sizing

  /** Stuffing adds one bit for each five ones: never more than a fifth. */
  lemma {:induction false} StuffLength(c: nat, bits: seq<bool>)
    requires c <= 4
    ensures |bits| <= |Stuff(c, bits)| <= |bits| + (c + |bits|) / 5
    ensures 5 * (|Stuff(c, bits)| - |bits|) + StuffCount(c, bits) <= c + |bits|
    decreases |bits|
  {
    if bits != [] {
      StuffLength(StuffNext(c, bits[0]), bits[1..]);
    }
  }

  lemma {:induction false} OnesStuffLength(c: nat, n: nat)
    requires c <= 4
    ensures |Stuff(c, Hold(true, n))| == n + (c + n) / 5
    decreases n
  {
    if n > 0 {
      assert Hold(true, n)[1..] == Hold(true, n - 1);
      OnesStuffLength(StuffNext(c, true), n - 1);
    }
  }

  /** A frame of n bytes occupies at most 192 + 8n + floor(8n/5) bit periods. */
  lemma WireLength(data: seq<Byte>)
    ensures 8 * 24 + 8 * |data| <= |Wire(data)| <= 8 * 24 + 8 * |data| + 8 * |data| / 5
  {
    hide Stuff;
    StuffLength(0, Bits(data));
  }

  const PCM_BUFFER := 60000

  /** At 16 kHz every legal frame fits the transmit buffer, needing at most 44 800 samples from any line state. */
  lemma BufferSuffices(l: Line, data: seq<Byte>)
    requires l.Valid() && |data| <= MAX_FRAME_BYTES
    ensures |Sound(16000, l, Wire(data))| <= 44800 <= PCM_BUFFER
  {
    hide Wire, Sound;
    WireLength(data);
    SoundLength(16000, l, Wire(data));
  }

  lemma {:induction false} AllOnesBits(n: nat)
    ensures Bits(seq(n, _ => 0xFF)) == Hold(true, 8 * n)
    decreases n
  {
    if n > 0 {
      var data: seq<Byte> := seq(n, _ => 0xFF);
      assert data[1..] == seq(n - 1, _ => 0xFF);
      AllOnesBits(n - 1);
      assert ByteBits(0xFF) == Hold(true, 8);
    }
  }

  /** The bound is reached: 330 bytes of ones need exactly 44 800 samples. */
  lemma BufferBoundIsTight()
    ensures |Sound(16000, RESET, Wire(seq(MAX_FRAME_BYTES, _ => 0xFF)))| == 44800
  {
    var data: seq<Byte> := seq(MAX_FRAME_BYTES, _ => 0xFF);
    AllOnesBits(MAX_FRAME_BYTES);
    OnesStuffLength(0, 8 * MAX_FRAME_BYTES);
    assert |Wire(data)| == 3360;
    hide Wire, Sound;
    SoundLength(16000, RESET, Wire(data));
  }
}
