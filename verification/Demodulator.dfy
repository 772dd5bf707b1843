/**
 * The receiver: firmware/components/modem/AfskDemodulator.cpp after the slicer. `Process` is
 * given the slicer's decisions; `delivered` records the calls of the frame callback.
 */
module Demodulator {
  import opened Bytes
  import Crc
  import opened Pieces
  import opened Uint32
  import Hdlc
  import opened Afsk

  datatype DemodStats = DemodStats(flags: nat, fcsRejects: nat, decoded: nat)

  class AfskDemodulator {
    const sampleRate: nat
    var symbolPhase: int
    var prevDecision: bool
    var nrziPrev: bool
    var sr: Byte
    var onesCount: nat
    var inFrame: bool
    var bitBuf: Byte
    var bitPos: nat
    const frameBuf: array<Byte>
    var frameLen: nat
    var statFlags: nat
    var statFcsRejects: nat
    var statDecoded: nat
    var delivered: seq<seq<Byte>>
    ghost var flags: nat
    ghost var log: seq<Hdlc.Event>

    ghost predicate Valid()
      reads this, frameBuf
    {
      sampleRate >= BAUD && frameBuf.Length == Hdlc.MAX_FRAME_BYTES && frameLen <= frameBuf.Length && bitPos < 8
      && 0 <= symbolPhase < 2 * sampleRate
      && StatsOk()
    }

    /** The counters are the log's totals modulo 2^32; the callback saw the delivered frames. */
    ghost predicate StatsOk()
      reads this`statFlags, this`flags, this`statDecoded, this`statFcsRejects, this`log, this`delivered
    {
      statFlags == flags % U32 && statDecoded == |Delivered(log)| % U32
      && statFcsRejects == Rejected(log) % U32 && delivered == Delivered(log)
    }

    ghost function Rx(): Hdlc.Receiver
      reads this, frameBuf
      requires frameLen <= frameBuf.Length
    {
      Hdlc.Receiver(sr, onesCount, inFrame, bitBuf, bitPos, frameBuf[..frameLen], flags, log)
    }

    ghost function State(): Demod
      reads this, frameBuf
      requires frameLen <= frameBuf.Length
    {
      Demod(symbolPhase, prevDecision, nrziPrev, Rx())
    }

    constructor (rate: nat)
      requires rate >= BAUD
      ensures Valid() && sampleRate == rate && State() == FRESH_DEMOD && fresh(frameBuf)
    {
      sampleRate := rate;
      symbolPhase, prevDecision, nrziPrev := 0, false, false;
      sr, onesCount, inFrame, bitBuf, bitPos := 0, 0, false, 0, 0;
      frameBuf := new Byte[Hdlc.MAX_FRAME_BYTES];
      frameLen := 0;
      statFlags, statFcsRejects, statDecoded := 0, 0, 0;
      delivered, flags, log := [], 0, [];
    }

    /** Everything but the counters goes back to the fresh state. */
    method Reset()
      requires Valid()
      modifies this
      ensures Valid() && delivered == old(delivered)
      ensures State() == FRESH_DEMOD.(rx := Hdlc.FRESH.(flags := old(flags), log := old(log)))
    {
      hide StatsOk;
      symbolPhase, prevDecision, nrziPrev := 0, false, false;
      sr, onesCount, inFrame, bitBuf, bitPos := 0, 0, false, 0, 0;
      frameLen := 0;
    }

    /** Frames of four bytes and more are checked; good ones go to the callback. */
    method DispatchFrame()
      requires Valid()
      modifies this`statDecoded, this`statFcsRejects, this`delivered, this`log
      ensures Valid() && log == old(log) + Hdlc.Verdict(frameBuf[..frameLen])
    {
      hide Crc.FcsValid, Delivered, Rejected;
      if frameLen < 4 {
        assert log + [] == log;
        return;
      }
      var frame := frameBuf[..frameLen];
      var fcs := Crc.ComputeFcs(frame[..frameLen - 2]);
      Crc.FcsValidIs(frame);
      var ok := fcs == Crc.StoredFcs(frame);
      LogOne(log, if ok then Hdlc.Frame(frameBuf[..frameLen]) else Hdlc.Reject);
      if ok {
        WrapSucc(|Delivered(log)|);
        statDecoded := (statDecoded + 1) % U32;
        delivered := delivered + [frameBuf[..frameLen]];
        log := log + [Hdlc.Frame(frameBuf[..frameLen])];
      } else {
        WrapSucc(Rejected(log));
        statFcsRejects := (statFcsRejects + 1) % U32;
        log := log + [Hdlc.Reject];
      }
    }

    method AssembleBit(bit: bool)
      requires Valid()
      modifies this`bitBuf, this`bitPos, this`inFrame, this`frameLen, frameBuf
      ensures Valid() && Rx() == Hdlc.Assemble(old(Rx()), bit)
    {
      bitBuf := WithBit(bitBuf, bitPos, bit);
      bitPos := bitPos + 1;
      if bitPos == 8 {
        if frameLen < Hdlc.MAX_FRAME_BYTES {
          frameBuf[frameLen] := bitBuf;
          frameLen := frameLen + 1;
          assert frameBuf[..frameLen] == old(frameBuf[..frameLen]) + [bitBuf];
        } else {
          inFrame := false;
          frameLen := 0;
        }
        bitBuf := 0;
        bitPos := 0;
      }
    }

    method CountFlag()
      requires Valid()
      modifies this`statFlags, this`flags
      ensures Valid() && flags == old(flags) + 1
    {
      hide Delivered, Rejected;
      WrapSucc(flags);
      statFlags := (statFlags + 1) % U32;
      flags := flags + 1;
    }

    /** The shift register holds a flag: close the frame in progress and begin the next. */
    method FlagSeen()
      requires Valid() && sr == 0x7E
      modifies this`statFlags, this`flags, this`statDecoded, this`statFcsRejects, this`delivered, this`log
      modifies this`inFrame, this`bitBuf, this`bitPos, this`frameLen, this`onesCount
      ensures Valid() && Rx() == Hdlc.Detected(old(Rx()))
    {
      hide Hdlc.Verdict, StatsOk;
      CountFlag();
      if inFrame && frameLen >= 2 {
        DispatchFrame();
      }
      inFrame := true;
      bitBuf := 0;
      bitPos := 0;
      frameLen := 0;
      onesCount := 0;
    }

    method ProcessBit(bit: bool)
      requires Valid()
      modifies this, frameBuf
      ensures Valid() && Rx() == Hdlc.ProcessBit(old(Rx()), bit)
      ensures symbolPhase == old(symbolPhase) && prevDecision == old(prevDecision) && nrziPrev == old(nrziPrev)
    {
      hide Hdlc.Verdict, Hdlc.ShiftIn, Hdlc.Assemble, Delivered, Rejected;
      sr := Hdlc.ShiftIn(sr, bit);
      if sr == 0x7E {
        FlagSeen();
        return;
      }
      if !inFrame {
        return;
      }
      if bit {
        onesCount := onesCount + 1;
        if onesCount >= 7 {
          inFrame := false;
          frameLen := 0;
          return;
        }
      } else {
        if onesCount == 5 {
          onesCount := 0;
          return;
        }
        onesCount := 0;
      }
      AssembleBit(bit);
    }

    method ProcessSymbol(mark: bool)
      requires Valid()
      modifies this, frameBuf
      ensures Valid() && State() == Symbol(old(State()), mark)
    {
      hide Hdlc.ProcessBit;
      var bit := mark == nrziPrev;
      nrziPrev := mark;
      ProcessBit(bit);
    }

    /** One sample after the slicer: a transition snaps the symbol clock to mid-symbol. */
    method ProcessSample(decision: bool)
      requires Valid()
      modifies this, frameBuf
      ensures Valid() && State() == Afsk.ProcessSample(sampleRate, old(State()), decision)
    {
      hide Hdlc.ProcessBit;
      if decision != prevDecision {
        symbolPhase := sampleRate;
      }
      prevDecision := decision;
      symbolPhase := symbolPhase + 2 * BAUD;
      if symbolPhase >= 2 * sampleRate {
        symbolPhase := symbolPhase - 2 * sampleRate;
        ProcessSymbol(decision);
      }
    }

    /** A block of samples, of any size. */
    method Process(samples: seq<bool>)
      requires Valid()
      modifies this, frameBuf
      ensures Valid() && State() == ProcessSamples(sampleRate, old(State()), samples)
      ensures delivered == Delivered(log) && old(log) <= log
      ensures forall k :: |old(log)| <= k < |log| && log[k].Frame? ==> Deliverable(log[k].data)
    {
      ghost var d0 := State();
      OnlyGoodDelivered(sampleRate, d0, samples);
      hide Afsk.ProcessSample, Deliverable;
      for i := 0 to |samples|
        invariant Valid() && State() == ProcessSamples(sampleRate, d0, samples[..i])
      {
        assert samples[..i + 1] == samples[..i] + [samples[i]];
        ProcessSamplesConcat(sampleRate, d0, samples[..i], [samples[i]]);
        assert [samples[i]][1..] == [];
        ProcessSample(samples[i]);
      }
      assert samples[..|samples|] == samples;
    }

    method Stats() returns (s: DemodStats)
      requires Valid()
      ensures s == DemodStats(flags % U32, Rejected(log) % U32, |Delivered(log)| % U32)
    {
      s := DemodStats(statFlags, statFcsRejects, statDecoded);
    }
  }

  lemma WrapSucc(n: nat)
    ensures (n % U32 + 1) % U32 == (n + 1) % U32
  {}

  lemma LogOne(log: seq<Hdlc.Event>, e: Hdlc.Event)
    ensures Delivered(log + [e]) == Delivered(log) + if e.Frame? then [e.data] else []
    ensures Rejected(log + [e]) == Rejected(log) + if e.Reject? then 1 else 0
  {
    DeliveredConcat(log, [e]);
    RejectedConcat(log, [e]);
    assert [e][1..] == [];
  }

  /** A fresh demodulator fed a whole transmission in any blocks delivers exactly the good frames of it and counts the bad ones. */
  method ReceiveAll(rx: nat, tx: nat, jobs: seq<Job>, l: Line, blocks: seq<seq<bool>>)
    returns (delivered: seq<seq<Byte>>, stats: DemodStats)
    requires rx >= BAUD && ClockOk(rx, tx) && l.Valid()
    requires Joined(blocks) == Air(tx, l, jobs)
    ensures delivered == GoodFrames(jobs)
    ensures stats.decoded == |GoodFrames(jobs)| % U32 && stats.fcsRejects == BadFrames(jobs) % U32
  {
    hide ClockOk, Air, GoodFrames, BadFrames;
    var demod := new AfskDemodulator(rx);
    for i := 0 to |blocks|
      invariant demod.Valid() && fresh(demod) && fresh(demod.frameBuf) && demod.sampleRate == rx
      invariant demod.State() == ProcessSamples(rx, FRESH_DEMOD, Joined(blocks[..i]))
    {
      JoinedSnoc(blocks, i);
      ProcessSamplesConcat(rx, FRESH_DEMOD, Joined(blocks[..i]), blocks[i]);
      demod.Process(blocks[i]);
    }
    assert blocks[..|blocks|] == blocks;
    ModemRoundTrip(rx, tx, l, jobs);
    stats := demod.Stats();
    return demod.delivered, stats;
  }
}
