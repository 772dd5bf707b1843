/**
 * The whole air path in one place: encode, modulate, demodulate, decode, as the firmware's
 * loopback stage does it (firmware/main/main.cpp:1990-2060).
 */
module Loopback {
  import opened Bytes
  import Ax25
  import Crc
  import opened Hdlc
  import opened Afsk
  import opened Modulator
  import opened Demodulator

  /**
   * Every frame the codec accepts fits the transmit buffer at 16 kHz, comes back from the
   * demodulator as the only delivery, and decodes to its canonical form.
   */
  method SendAndReceive(frame: Ax25.Frame) returns (received: Option<Ax25.Frame>)
    requires frame.Valid() && frame.Encodable()
    ensures received == Some(Ax25.CanonicalFrame(frame))
  {
    hide Ax25.Encoded, Crc.FcsValid, Sound, Wire, LineAfter, Air, Ax25.CanonicalFrame, Ax25.Decoded;
    var buffer := new Byte[Ax25.MAX_ENCODED];
    Ax25.EncodedIsDeliverable(frame);
    var n := Ax25.Encode(frame, buffer, buffer.Length);
    var data := buffer[..n];
    assert data == Ax25.Encoded(frame);
    var pcm := new bool[PCM_BUFFER];
    var modulator := new AfskModulator(16000);
    BufferSuffices(RESET, data);
    var written := modulator.ModulateFrame(data, pcm, pcm.Length);
    var samples := pcm[..written];
    assert samples == Sound(16000, RESET, Wire(data));
    var jobs := [Job(true, data)];
    OneBurst(16000, jobs[0]);
    AllGood(jobs);
    var blocks := [samples];
    assert blocks[1..] == [] && samples + [] == samples;
    var delivered, stats := ReceiveAll(16000, 16000, jobs, RESET, blocks);
    assert delivered[0] == data;
    Ax25.EncodeDecode(frame);
    received := Ax25.Decode(delivered[0]);
  }

  lemma OneBurst(tx: nat, job: Job)
    ensures Air(tx, RESET, [job]) == Sound(tx, RESET, Wire(job.data))
  {
    assert [job][1..] == [];
  }
}
