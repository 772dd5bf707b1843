# PAKT: a verified model of the packet-radio protocol stack

PAKT is an APRS packet-radio TNC: firmware for the radio side and a desktop client, joined by
Bluetooth LE. This project models the protocol logic of both and proves what the pieces promise
each other. `dafny verify dfyconfig.toml` checks everything.

## What is modelled

**The modem** (`Bytes`, `Crc`, `Hdlc`, `Afsk`, `Modulator`, `Demodulator`, `Loopback`).
Transmitter and receiver as two separate state machines, from frame bytes to samples and back.
A sample is the tone the transmitter held and the receiver's slicer is ideal, so the filters and
the sine are not there; the two sample clocks are exact integers, the transmitter's in 1/1200 of
a sample and the receiver's in 1/2400, where the code has doubles. `Hdlc` holds the bit machine,
`Afsk` the clocks and the simulation between the two sides, the classes the code's own loops.

**AX.25** (`Ax25`, `Ax25Octets`, `Crc`, `CrcOrder`). Frame codec and check sequence (AX.25 v2.2, sections
3.6 to 3.12), octet by octet, with the error-detection power of the check sequence at every length.

**Concurrency by steps** (`RingIndex`, `SpscRing`, `SpscProgress`, `WatchdogSteps`, `WatchdogProgress`;
`PttWatchdog` is the object run by one caller at a time). Each atomic load, store, copy and compare-and-swap is a step; any interleaving
of the threads is a run. Loads may be stale but do not go back behind what the thread has seen.

**The transmit scheduler** (`TxScheduler`, `TxTrace`, `TxRuns`, `TxCounts`, `TxDeadline`,
`TxContent`, `TxQueue`, `AprsTask`, `Uint32`). The specification functions, an automaton for the trace of one
message, and laws over all runs; `TxQueue` and `AprsTask` hold the objects.

**INT-002 chunking** (`Chunking`, `ChunkRules`, `ChunkHistory`, `ChunkMask`, `BleChunker`,
`DesktopChunker`, `ChunkersAgree`, `Sets`). Splitting and reassembly in C++ and in Python, and exactly when the two agree.

**KISS** (`Kiss`, `KissFramer`, `KissPacketizer`, `KissBridge`, `KissReassembly`, `KissDelivery`,
`KissStale`, `KissLink`, `Pieces`). Escaping, the C++ and the Python codec, the serial stream
packetizer, and both directions over BLE, from every state of the bridge's table.

**JSON** (`JsonText`, `PayloadValidator`, `PayloadRules`) and **GPS time** (`Timestamp`).

History (ghost or extra fields such as `log`, `events`, `delivered`, `ops`, order numbers and
unbounded times) is there to state laws about whole runs; the code's uint8 and uint32 fields wrap
as in the code.

## Where the code differs from its documentation

- PttWatchdog.h:10-11 and 38 promise that safe_fn runs exactly once per timeout event. A caller that
  has won the swap may be held up across a heartbeat, so safe_fn can run more than once between two
  clears: it runs at most once if and only if no winner was waiting at the first
  (`WatchdogSteps.AtMostOnceExactly`, `WatchdogSteps.TwoRunsInOneEpisode`).
- PttWatchdog.h:4 and 34 say it fires when no heartbeat came within the timeout. A tick can also fire
  on a fresh heartbeat, exactly when that one was stored after the tick's load or the tick's clock was
  read before it, so that the unsigned age wraps below zero (`WatchdogSteps.FiresOnFreshExactly`,
  `WatchdogSteps.FreshHeartbeatStillFires`, `WatchdogSteps.EarlierClockFires`).
- A cancelled or finished record hides a later message of the same client from `cancel`
  (`TxCounts.CancelShadowed`, `TxCounts.CancelExactly`), and an ack also completes a message that
  was never sent (`TxCounts.AckMatchesAnyActive`).
- `decode` reads the destination's C bit as `has_been_repeated` (`Ax25.EncodeDecode`).
- chunker.py:3 says it mirrors BleChunker exactly. On a running clock it does so, for chunks of up to
  252 bytes, if and only if no message in progress is of exactly the timeout's age and the firmware
  has room (`ChunkersAgree.RunsMirrorExactly`); a longer chunk is refused by the firmware alone
  (`ChunkersAgree.LongChunkDiffers`).
- The bridge has no timeout, so a frame can arrive mixed with an earlier one of the same id that was
  left incomplete, or not at all (`KissStale.ArrivesExactly`, `KissStale.StaleFrameMixes`).
- The KISS documents give 330 bytes as the size of a frame after reassembly; both decoders limit
  the escaped body to 330 (`Kiss.EncodeDecode`). KissFramer.h:70-71 says a data frame for another
  port is an error; the code treats every other command byte as a valid non-data frame, and its
  port test can never fail. BleServer.cpp:726 says message id 0 is skipped on wrap; it is not.
- kiss_bridge.py:207 says frames are delivered with their FENDs; they are delivered without.
- The field rules say that ssid is an integer; `3.7` is accepted as 3 (`PayloadValidator.FractionIgnored`).
  They say that text is printable; any 67 bytes without a NUL are accepted (`PayloadRules.TxRequestRules`).

## Model

| member | source | states |
|---|---|---|
| `Crc.ComputeFcs` | firmware/components/ax25/Ax25.cpp:17-27 | The byte-wise loop (XOR a byte in, eight conditional shifts) equals the bit-serial register fed the bits in transmission order, complemented |
| `Crc.ByteRound` | firmware/components/ax25/Ax25.cpp:20-25 | Eight shifts after XORing in a byte are eight bit-serial steps, lowest bit first |
| `Crc.ShiftLinear` | firmware/components/ax25/Ax25.cpp:23 | The 0x8408 step is linear over XOR |
| `Crc.ShiftNonzero` | firmware/components/ax25/Ax25.cpp:23 | The 0x8408 step is invertible: only the zero register goes to zero |
| `Crc.FeedLinear` | firmware/components/ax25/Ax25.cpp:17-27 | The register is linear in start value and input together, for every length |
| `Crc.AppendedFcsIsValid` | firmware/components/ax25/Ax25.cpp:102-105 | Any data followed by its own check sequence, low byte first, passes the check of decode and of the demodulator |
| `Crc.ValidIffResidue` | firmware/components/ax25/Ax25.cpp:117-121 | The receiver's comparison holds if and only if the register over the whole frame ends at the residue 0xF0B8, that is if fcs over data plus FCS is 0x0F47 |
| `Crc.ErrorSyndrome` | firmware/components/ax25/Ax25.cpp:117-121 | A frame received in place of a valid one is itself valid if and only if the error pattern alone leaves a zero register zero |
| `Crc.BurstDetected` | firmware/components/ax25/Ax25.cpp:112-121 | Every nonempty error confined to sixteen consecutive transmitted bits, FCS included, is caught, for frames of every length |
| `Crc.OddErrorsDetected` | firmware/components/ax25/Ax25.cpp:112-121 | Every odd number of flipped bits is caught, wherever they are |
| `CrcOrder.OrderExactly` | firmware/components/ax25/Ax25.cpp:23 | The 0x8408 step returns to where it was after exactly the multiples of 32767 steps |
| `CrcOrder.DoubleErrorExactly` | firmware/components/ax25/Ax25.cpp:112-121 | Two flipped bits go unnoticed if and only if their distance is a multiple of 32767 |
| `CrcOrder.DoubleErrorsDetected` | firmware/components/ax25/Ax25.cpp:112-121 | So every double bit error in a frame of at most 4095 bytes, and with it in every legal frame, is caught |
| `Hdlc.ProcessBitsConcat` | firmware/components/modem/AfskDemodulator.cpp:165-212 | The bit machine depends only on the bit stream, not on how it is cut |
| `Hdlc.FewReports` | firmware/components/modem/AfskDemodulator.cpp:165-248 | At most one report per 32 bits, and none while fewer than 32 bits have been collected |
| `Hdlc.NoFlag` | firmware/components/modem/AfskDemodulator.cpp:170-172 | With at most five ones at the tail of the shift register no next bit makes it 0x7E: stuffed data never looks like a flag |
| `Hdlc.FlagSynchronises` | firmware/components/modem/AfskDemodulator.cpp:165-185 | From any state whatever, the eight bits of a flag end in the state right after a flag |
| `Hdlc.TrackData` | firmware/components/modem/AfskDemodulator.cpp:187-231 | Stuffed data is collected bit for bit, data ending in five ones included: no flag is seen, no abort fires and nothing is reported on the way |
| `Hdlc.ClosingFlag` | firmware/components/modem/AfskDemodulator.cpp:172-185 | The flag after the data reports exactly the data sent (or nothing when it is overlong) and leaves the receiver ready for the next frame |
| `Hdlc.IdleFlags` | firmware/components/modem/AfskDemodulator.cpp:172-185 | Repeated flags between frames report nothing |
| `Hdlc.FrameBetweenFlags` | firmware/components/modem/AfskModulator.cpp:82-126 | Stuffed data and tail flags sent to a receiver in step give exactly one report of that data |
| `Hdlc.GarbledStart` | firmware/components/modem/AfskDemodulator.cpp:155-248 | Self-synchronisation on bits: from any state and with up to 24 garbled bits before the first good flag, the frame is reported last, after at most one leftover report |
| `Hdlc.BitReports` | firmware/components/modem/AfskDemodulator.cpp:165-248 | A received bit reports something exactly when it completes a flag inside a frame, and then: nothing for fewer than four bytes, the frame if its check sequence is good, one reject if it is bad |
| `Hdlc.OnlyGoodFrames` | firmware/components/modem/AfskDemodulator.cpp:233-248 | From any valid state and for any bits whatever, everything delivered has 4 to 330 bytes and a good check sequence |
| `Hdlc.SevenOnesAbort` | firmware/components/modem/AfskDemodulator.cpp:187-204 | From any state seven ones in a row give up the frame in progress: a flag after them reports nothing |
| `Afsk.SoundLength` | firmware/components/modem/AfskModulator.cpp:38-55 | After k bits exactly floor((acc + k * rate) / 1200) samples have been produced and the remainder is carried |
| `Afsk.SampleTone` | firmware/components/modem/AfskModulator.cpp:38-78 | Every sample of bit period i holds the tone at the start, changed once for each 0 among the bits up to i |
| `Afsk.ClockOkMeans` | firmware/components/modem/AfskDemodulator.cpp:138-152 | The condition on the two sample clocks is that seven symbols of drift plus one sample stay within half a symbol: 7|T - R| + 1 <= R/2 |
| `Afsk.SameTone` | firmware/components/modem/AfskDemodulator.cpp:147-152 | While a tone is held the symbol clock fires a number of times fixed by the arithmetic of the phase, and decodes each firing as the same bit |
| `Afsk.HoldBit` | firmware/components/modem/AfskDemodulator.cpp:142-161 | A 1 received in step fires exactly one symbol, which decodes to 1, and the clocks stay in step |
| `Afsk.TransitionBit` | firmware/components/modem/AfskDemodulator.cpp:142-161 | A change of tone puts the clock in step whatever it was doing before, and fires exactly one symbol |
| `Afsk.BurstRuns` | firmware/components/modem/AfskModulator.cpp:96-126 | Inside a burst no tone is held for more than seven bit periods |
| `Afsk.ReceiveBits` | firmware/components/modem/AfskDemodulator.cpp:130-161 | In step, the receiver decodes exactly the bits sent, never slipping or doubling one, for sender and receiver clocks that may differ |
| `Afsk.FirstFlag` | firmware/components/modem/AfskDemodulator.cpp:130-161 | From any demodulator state the first flag of a burst makes at most nine symbols and leaves the clock in step |
| `Afsk.BurstReceived` | firmware/components/modem/AfskDemodulator.cpp:130-248 | One burst from any state: the frame sent is reported last, after at most one leftover report, and after none when under 16 bits were pending |
| `Afsk.ChannelReports` | firmware/components/modem/AfskDemodulator.cpp:130-248 | Any list of bursts is reported as sent, in order, and nothing else is |
| `Afsk.ProcessSamplesConcat` | firmware/components/modem/AfskDemodulator.cpp:123-153 | Cutting the sample stream into blocks makes no difference |
| `Afsk.ModemRoundTrip` | firmware/components/modem/AfskDemodulator.cpp:123-248 | Whole-modem round trip at sample level, for any data: a fresh demodulator delivers exactly what was sent with 4 to 330 bytes and a good check sequence, in order, and rejects exactly the frames of that size with a bad one |
| `Afsk.SelfSynchronising` | firmware/components/modem/AfskDemodulator.cpp:155-248 | From any well-formed demodulator state one burst of any data has its outcome (delivered, rejected or nothing) last, after at most one leftover report |
| `Afsk.OnlyGoodDelivered` | firmware/components/modem/AfskDemodulator.cpp:123-248 | From any well-formed state and for any samples whatever, nothing is delivered without 4 to 330 bytes and a good check sequence |
| `Afsk.StuffLength` | firmware/components/modem/AfskModulator.cpp:66-77 | Stuffing adds one bit for each five ones and never more than a fifth |
| `Afsk.WireLength` | firmware/components/modem/AfskModulator.cpp:96-126 | A frame of n bytes takes between 192 + 8n and 192 + 8n + floor(8n/5) bit periods |
| `Afsk.BufferSuffices` | firmware/main/main.cpp:177-181 | At 16 kHz, from any line state, every frame of at most 330 bytes needs at most 44 800 samples, which fits kAfskMaxPcmSamples |
| `Afsk.BufferBoundIsTight` | firmware/main/main.cpp:177-181 | 330 bytes of ones need exactly 44 800 samples |
| `Modulator.AfskModulator.Reset` | firmware/components/modem/AfskModulator.cpp:22-28 | The line state goes back to mark, no ones counted, nothing carried |
| `Modulator.AfskModulator.EmitBitSamples` | firmware/components/modem/AfskModulator.cpp:38-55 | Writes one bit period of the held tone, or as much of it as there is room for; truncated exactly when the buffer was full before the last of its samples |
| `Modulator.AfskModulator.EmitDataBit` | firmware/components/modem/AfskModulator.cpp:59-78 | Extends the transmission by one NRZI-coded data bit and, after the fifth 1, a stuffed 0; a truncated one leaves the buffer filled with the front of it |
| `Modulator.AfskModulator.EmitFlag` | firmware/components/modem/AfskModulator.cpp:82-94 | Extends the transmission by one unstuffed flag and clears the stuffing counter; truncation as for a data bit |
| `Modulator.AfskModulator.ModulateFrame` | firmware/components/modem/AfskModulator.cpp:96-126 | The buffer holds exactly the samples of flags, stuffed data and tail flags; the count is returned if and only if it is at most out_max (an exact fit succeeds), otherwise 0 with the buffer filled with the front of the transmission |
| `Demodulator.AfskDemodulator.Reset` | firmware/components/modem/AfskDemodulator.cpp:96-119 | Everything but the counters goes back to the fresh state |
| `Demodulator.AfskDemodulator.DispatchFrame` | firmware/components/modem/AfskDemodulator.cpp:233-248 | Frames of four bytes and more are checked; good ones are counted and delivered, bad ones counted as rejects: what BitReports says of them |
| `Demodulator.AfskDemodulator.AssembleBit` | firmware/components/modem/AfskDemodulator.cpp:214-231 | Collects a bit, a byte every eight bits, and gives up a frame longer than the buffer |
| `Demodulator.AfskDemodulator.ProcessBit` | firmware/components/modem/AfskDemodulator.cpp:165-212 | The object follows the specified bit machine: flag, abort at seven ones, discarding of stuffed zeros |
| `Demodulator.AfskDemodulator.ProcessSymbol` | firmware/components/modem/AfskDemodulator.cpp:155-161 | NRZI decoding in front of the bit machine |
| `Demodulator.AfskDemodulator.ProcessSample` | firmware/components/modem/AfskDemodulator.cpp:130-153 | The snapping symbol clock after the slicer |
| `Demodulator.AfskDemodulator.Process` | firmware/components/modem/AfskDemodulator.cpp:123-128 | A block of samples of any size; whatever it delivers has 4 to 330 bytes and a good check sequence |
| `Demodulator.AfskDemodulator.Stats` | firmware/components/modem/AfskDemodulator.cpp:250-253 | The counters are the totals of what happened, modulo 2^32 |
| `Demodulator.ReceiveAll` | firmware/components/modem/AfskDemodulator.cpp:123-248 | A fresh object fed a whole transmission of any data in any blocks delivers exactly the frames with 4 to 330 bytes and a good check sequence; stat_decoded_ is their number and stat_fcs_rejects_ that of the frames of that size with a bad one, modulo 2^32 |
| `Ax25.EncodeAddress` | firmware/components/ax25/Ax25.cpp:34-50 | Seven bytes: shifted upper-case padded callsign, C/H bit, reserved bits, SSID modulo 16, extension bit |
| `Ax25.Encode` | firmware/components/ax25/Ax25.cpp:73-108 | Writes the encoding at the front of the buffer, or refuses exactly on a bad address count, long info or short buffer and leaves the buffer alone |
| `Ax25.DecodeAddress` | firmware/components/ax25/Ax25.cpp:54-69 | Seven bytes back to an address: shifted down, trailing spaces cut, SSID, H bit, extension bit |
| `Ax25.ParseAddresses` | firmware/components/ax25/Ax25.cpp:123-133 | The address loop stops at the extension bit, at ten addresses or at the end of the payload |
| `Ax25.Decode` | firmware/components/ax25/Ax25.cpp:112-148 | The whole decoder, every rejection included, equals the specification function |
| `Ax25.EncodeDecode` | firmware/components/ax25/Ax25.cpp:73-148 | Round trip: every frame that encodes decodes to itself up to upper-casing and trimming, SSID modulo 16, and the destination reading as has_been_repeated |
| `Ax25.CallsignArrives` | firmware/components/ax25/Ax25.cpp:34-69 | A zero-padded callsign arrives as its upper-case form if and only if its characters are seven-bit and it does not end in a space |
| `Ax25.ExtensionBitEndsField` | firmware/components/ax25/Ax25.cpp:43-49 | In the whole encoded address field the extension bit is set in the last octet and nowhere else |
| `Ax25Octets.CallsignOctets` | firmware/components/ax25/Ax25.cpp:34-42 | On the air every callsign octet is twice the character, NUL read as 0x20 and 0x61 to 0x7A lowered by 0x20 |
| `Ax25Octets.SsidOctets` | firmware/components/ax25/Ax25.cpp:43-49 | On the air every seventh address octet has both reserved bits set, the SSID in bits 1 to 4, bit 7 for the destination and for what has been repeated, bit 0 in the last entry only |
| `Ax25Octets.OtherOctets` | firmware/components/ax25/Ax25.cpp:86-107 | Behind the addresses: control, PID, information, and the check sequence of all that, low octet first |
| `Ax25Octets.DecodesExactly` | firmware/components/ax25/Ax25.cpp:112-148 | decode accepts exactly the frames of at least 18 octets with a good check sequence whose address field ends, at the first extension bit, after 2 to 10 entries, with control, PID and at most 256 octets of information behind it; and returns just those parts |
| `Ax25Octets.AddressRead` | firmware/components/ax25/Ax25.cpp:54-69 | How an address entry is read: characters shifted down, a NUL at the first trailing space, SSID from bits 1 to 4, mark from bit 7 |
| `Ax25Octets.EncodableExactly` | firmware/components/ax25/Ax25.cpp:73-85 | encode accepts a frame with any addresses if and only if decode would accept the encoding, and refuses one with none |
| `Ax25.EncodedIsDeliverable` | firmware/components/ax25/Ax25.cpp:73-108 | Every encoding is at most 330 bytes long and passes the FCS check |
| `Ax25.BurstMakesDecodeFail` | firmware/components/ax25/Ax25.cpp:112-121 | A decodable frame hit by a burst of at most sixteen transmitted bits does not decode |
| `Ax25.OddErrorsMakeDecodeFail` | firmware/components/ax25/Ax25.cpp:112-121 | Nor does one with an odd number of flipped bits |
| `Loopback.SendAndReceive` | firmware/main/main.cpp:1990-2060 | Encode, modulate at 16 kHz, demodulate, decode: every encodable frame comes back in its canonical form |
| `SpscRing.StepInv` | firmware/components/aprs_fsm/AprsTaskContext.cpp:30-101 | Every atomic or memory step of producer or consumer keeps the ring invariant, with a stale tail on the producer side and indices modulo 2^32 |
| `SpscRing.FifoUnderEveryInterleaving` | firmware/components/aprs_fsm/AprsTaskContext.cpp:30-101 | Under every interleaving the consumer got exactly the first pushed entries, whole and in order; at most depth are pending and each is in its slot |
| `SpscRing.ReadEntryNeverOverwritten` | firmware/components/aprs_fsm/AprsTaskContext.cpp:40-43 | While an entry is being read a concurrent push writes another slot, and what has been read so far is a prefix of what was pushed |
| `SpscRing.RefusedOnlyWhenFull` | firmware/components/aprs_fsm/AprsTaskContext.cpp:35-39 | A push is refused if and only if, for the tail it loaded, a full ring was pending |
| `SpscProgress.EnterExactly` | firmware/components/aprs_fsm/AprsTaskContext.cpp:69-72 | The loop test ends the visit if and only if everything seen published has been taken; otherwise the next entry is read |
| `SpscProgress.AwayMeansDrained` | firmware/components/aprs_fsm/AprsTaskContext.cpp:67-101 | In every reachable state a draining consumer that is not in a visit has taken everything it has seen published |
| `SpscProgress.NeverStuck` | firmware/components/aprs_fsm/AprsTaskContext.cpp:30-101 | In every reachable state each thread inside a call has a step it can take |
| `SpscProgress.EveryStepCounts` | firmware/components/aprs_fsm/AprsTaskContext.cpp:67-84 | Each step of the consumer inside a visit brings its end nearer, and no step of the producer puts it off |
| `SpscProgress.VisitEnds` | firmware/components/aprs_fsm/AprsTaskContext.cpp:67-84 | So a visit takes at most depth * (maxLen + 4) + 1 steps of the consumer, under every interleaving |
| `SpscProgress.VisitTakesAll` | firmware/components/aprs_fsm/AprsTaskContext.cpp:67-101 | From any reachable state a visit run on its own takes everything published (tick), or the oldest entry if there is one (pop) |
| `SpscProgress.PushGoesThrough` | firmware/components/aprs_fsm/AprsTaskContext.cpp:30-63 | From any reachable state with room a push of any legal entry, run on its own, publishes that entry whole |
| `SpscRing.DrainBounded` | firmware/components/aprs_fsm/AprsTaskContext.cpp:69-84 | A visit of the drain loop starts with at most depth entries to take, and each one taken brings it one nearer its end |
| `SpscRing.VisitStep` | firmware/components/aprs_fsm/AprsTaskContext.cpp:69-84 | No step of either thread inside a visit adds to what the visit has left to take |
| `SpscRing.VisitBounded` | firmware/components/aprs_fsm/AprsTaskContext.cpp:69-84 | One visit takes at most depth entries, however long it goes on and whatever the producer does meanwhile |
| `RingIndex.DepthMustDivide` | firmware/components/aprs_fsm/AprsTaskContext.cpp:60 | Free-running uint32 indices pick the right slot for ever if and only if the depth divides 2^32 |
| `RingIndex.WrappedSlot` | firmware/components/aprs_fsm/AprsTaskContext.cpp:40 | The wrapped uint32 index picks the slot the unbounded one would |
| `RingIndex.DistinctSlots` | firmware/components/aprs_fsm/AprsTaskContext.cpp:35-40 | Entries less than a depth apart are in different slots |
| `SpscRing.FirmwareRings` | firmware/main/main.cpp:199-238 | The request ring, the KISS ring and Ax25RxQueue (depths 8, 4, 8) are instances |
| `AprsTask.Ring.Push` | firmware/components/aprs_fsm/AprsTaskContext.cpp:52-63 | Refuses exactly when full; otherwise the pending entries grow by this one at the end |
| `AprsTask.Ring.Pop` | firmware/main/main.cpp:222-231 | Takes the oldest pending entry, or reports that there is none |
| `AprsTask.AprsTaskContext.PushTxRequest` | firmware/components/aprs_fsm/AprsTaskContext.cpp:52-63 | A request joins the pending ones in order unless the ring is full |
| `AprsTask.AprsTaskContext.PushKissAx25` | firmware/components/aprs_fsm/AprsTaskContext.cpp:30-45 | Empty and oversize frames are refused before the ring is looked at; a frame joins in order unless the ring is full |
| `AprsTask.AprsTaskContext.DrainRequests` | firmware/components/aprs_fsm/AprsTaskContext.cpp:67-84 | Pending requests reach the scheduler oldest first, client ids counting up modulo 256 across ticks, refused ones dropped |
| `AprsTask.AprsTaskContext.DrainKiss` | firmware/components/aprs_fsm/AprsTaskContext.cpp:88-100 | Every pending raw frame is sent once, oldest first |
| `AprsTask.AprsTaskContext.TickAll` | firmware/components/aprs_fsm/AprsTaskContext.cpp:65-101 | Requests to the scheduler, one scheduler tick, then the raw frames: the scheduler's events come before the frames in what goes out |
| `AprsTask.AprsTaskContext.NotifyAck` | firmware/components/aprs_fsm/AprsTaskContext.cpp:103-106 | An ack is the scheduler's ack |
| `AprsTask.DrainIsRun` | firmware/components/aprs_fsm/AprsTaskContext.cpp:67-84 | Draining the ring is a run of enqueue operations |
| `AprsTask.ContextTickIsRun` | firmware/components/aprs_fsm/AprsTaskContext.cpp:65-86 | A context tick is a run of the scheduler, so whatever holds of all runs holds behind the ring |
| `AprsTask.DrainOpsAre` | firmware/components/aprs_fsm/AprsTaskContext.cpp:72-83 | The i-th request drained is enqueued with its own destination, ssid and text under the i-th next client id, modulo 256 |
| `AprsTask.SendsWhatWasPushed` | firmware/components/aprs_fsm/AprsTaskContext.cpp:65-106 | Over every run of a context, everything handed to the radio is the destination, ssid and text of one pushed request, with the client id it was given |
| `TxQueue.Queue.FindFreeSlot` | firmware/components/aprs_fsm/TxScheduler.cpp:131-142 | The first empty slot, else the first terminal one, else -1 |
| `TxQueue.Queue.Enqueue` | firmware/components/aprs_fsm/TxScheduler.cpp:22-66 | Every check and field of enqueue; the new state equals the specification function, of which Enqueued and CarriesTheRequest say what it holds |
| `TxQueue.Queue.Complete` | firmware/components/aprs_fsm/TxScheduler.cpp:154-162 | The record stays and its terminal state is reported once |
| `TxQueue.Queue.TransmitNow` | firmware/components/aprs_fsm/TxScheduler.cpp:164-179 | One attempt: on success count, time stamp, PENDING, and TIMED_OUT at the fifth |
| `TxQueue.Queue.Tick` | firmware/components/aprs_fsm/TxScheduler.cpp:68-93 | Every ready slot is attempted once; the result is the number of successes |
| `TxQueue.Queue.OnAckReceived` | firmware/components/aprs_fsm/TxScheduler.cpp:95-109 | The first active message with this id becomes ACKED |
| `TxQueue.Queue.Cancel` | firmware/components/aprs_fsm/TxScheduler.cpp:111-118 | Only the first record with the client id is looked at |
| `TxQueue.Queue.CountActive` | firmware/components/aprs_fsm/TxScheduler.cpp:120-127 | The number of occupied slots that are not terminal |
| `TxRuns.RunInv` | firmware/components/aprs_fsm/TxScheduler.cpp:22-179 | The coherence invariant holds in every reachable state: each slot's record agrees with its message's part of the trace |
| `TxRuns.EveryTraceLegal` | firmware/components/aprs_fsm/TxScheduler.cpp:22-179 | In every reachable state every message's trace is legal; it is still open if and only if the message sits active in a slot |
| `TxRuns.LegalTrace` | firmware/components/aprs_fsm/TxScheduler.cpp:68-179 | What a legal trace means: at most five successes, each attempt at least 20 000 ms after every earlier success, nothing after a terminal event, TIMEOUT if and only if there were five successes |
| `TxContent.Enqueued` | firmware/components/aprs_fsm/TxScheduler.cpp:22-66 | BAD_PARAM exactly outside 1-6 and 1-67 characters, QUEUE_FULL exactly when all slots are active; otherwise one slot that was not active gets a QUEUED record with just these four fields and this time, and nothing else changes |
| `TxContent.CarriesTheRequest` | firmware/components/aprs_fsm/TxScheduler.cpp:22-179 | In every reachable state message k is the k-th request taken: its record, everything handed to the radio and every notification carry that request's client id, destination, ssid and text, and the id of k |
| `TxContent.SentAsAsked` | firmware/components/aprs_fsm/TxScheduler.cpp:164-179 | Whatever is handed to the radio was asked for by some enqueue of the run, field by field |
| `TxContent.AckCompletes` | firmware/components/aprs_fsm/TxScheduler.cpp:95-109 | An ack makes the first active message with its id ACKED, reports just that and touches nothing else; without one it changes nothing |
| `TxContent.CancelCompletes` | firmware/components/aprs_fsm/TxScheduler.cpp:111-118 | A successful cancel makes the client's first record CANCELLED, reports just that and touches nothing else |
| `TxContent.EveryReportHasItsCause` | firmware/components/aprs_fsm/TxScheduler.cpp:68-179 | In every run ACKED is reported only by an ack carrying the message's id, CANCELLED only by a cancel of its client, TIMED_OUT only by a tick, and only ticks transmit |
| `TxCounts.MessagesConserved` | firmware/components/aprs_fsm/TxScheduler.cpp:120-179 | In every reachable state accepted = active + terminal reports, and there are at most five successes per accepted message |
| `TxCounts.TickConserves` | firmware/components/aprs_fsm/TxScheduler.cpp:68-93 | A tick keeps the conservation law; the transmissions still allowed to active messages pay for each success |
| `TxCounts.EnqueueKeepsActive` | firmware/components/aprs_fsm/TxScheduler.cpp:22-66 | No active message is ever overwritten; QUEUE_FULL if and only if the parameters are good and all eight slots are active |
| `TxCounts.AckMatchesAnyActive` | firmware/components/aprs_fsm/TxScheduler.cpp:95-109 | An ack is accepted if and only if some active message, queued or pending, has that id |
| `TxCounts.CancelExactly` | firmware/components/aprs_fsm/TxScheduler.cpp:111-118 | With a message of the client active, cancel succeeds if and only if no terminal record of the same client sits in an earlier slot |
| `TxCounts.CancelShadowed` | firmware/components/aprs_fsm/TxScheduler.cpp:144-152 | A reachable state in which cancel fails although the client's message is active |
| `TxDeadline.RunOnTime` | firmware/components/aprs_fsm/TxScheduler.cpp:68-93 | With a working radio and ticks at most P apart every active message is where it should be by then |
| `TxDeadline.TerminalByDeadline` | firmware/components/aprs_fsm/TxScheduler.cpp:68-179 | Then every message is terminal within 4 * (20 000 + P) + P ms of being accepted |
| `TxDeadline.IdOf` | firmware/components/aprs_fsm/TxScheduler.cpp:39-57 | The id of the message with order number k is k modulo 99 999, plus one, in decimal, in every reachable state |
| `TxDeadline.SameIdExactly` | firmware/components/aprs_fsm/TxScheduler.cpp:39-57 | Two messages seen in a slot at any two instants of a run carry the same id if and only if their order numbers agree modulo 99 999 |
| `TxDeadline.LateAckExactly` | firmware/components/aprs_fsm/TxScheduler.cpp:95-109 | An ack for a message, however late, is accepted if and only if some message then active has an order number that agrees modulo 99 999 |
| `TxDeadline.DecimalInjective` | firmware/components/aprs_fsm/TxScheduler.cpp:56-57 | Different counters print differently |
| `PttWatchdog.FiresInTime` | firmware/components/safety_watchdog/PttWatchdog.cpp:12-44 | Run by one caller at a time on a monotone clock: exactly one firing, at a tick no earlier than the timeout after the last heartbeat and less than one tick period late |
| `PttWatchdog.FiresAfterHeartbeat` | firmware/components/safety_watchdog/PttWatchdog.cpp:12-44 | Whatever went before, triggered or never armed: after a heartbeat at h the ticks fire exactly once, between h + timeout and h + timeout + period |
| `PttWatchdog.RunsExactly` | firmware/components/safety_watchdog/PttWatchdog.cpp:12-56 | Over every sequence of calls: a call runs safe_fn if and only if it has not run since the last heartbeat and the call is force_safe, or a tick with a heartbeat before it at least the timeout old in uint32 arithmetic |
| `PttWatchdog.PttWatchdogObject.Beat` | firmware/components/safety_watchdog/PttWatchdog.cpp:12-18 | Stores the time, arms and clears the flag: the transition of FiresAfterHeartbeat and RunsExactly |
| `PttWatchdog.PttWatchdogObject.Tick` | firmware/components/safety_watchdog/PttWatchdog.cpp:20-44 | Fires if and only if armed, not triggered and stale; firing sets the flag |
| `PttWatchdog.PttWatchdogObject.ForceSafe` | firmware/components/safety_watchdog/PttWatchdog.cpp:46-56 | Fires unless triggered |
| `WatchdogSteps.OneWinPerEpisode` | firmware/components/safety_watchdog/PttWatchdog.cpp:12-56 | Under every interleaving at most one compare-and-swap is won between two clears of triggered_, and safe_fn runs at most once more than there were clears |
| `WatchdogSteps.RunsPerEpisode` | firmware/components/safety_watchdog/PttWatchdog.cpp:12-56 | Exactly how often safe_fn has run since the last clear: swaps won since, plus winners waiting at the clear, less winners waiting now |
| `WatchdogSteps.RunsInEpisode` | firmware/components/safety_watchdog/PttWatchdog.cpp:12-56 | From a state with triggered_ clear exactly the numbers up to one more than the winners then waiting can be the number of runs of safe_fn before the next clear |
| `WatchdogSteps.AtMostOnceExactly` | firmware/components/safety_watchdog/PttWatchdog.cpp:12-56 | In every reachable state right after a clear: every continuation up to the next clear runs safe_fn at most once if and only if no winner of an earlier swap was still waiting |
| `WatchdogSteps.TwoRunsInOneEpisode` | firmware/components/safety_watchdog/PttWatchdog.cpp:12-56 | That condition can fail: for every timeout a run with a clear after which safe_fn runs twice before the next |
| `WatchdogSteps.OldEnoughMeans` | firmware/components/safety_watchdog/PttWatchdog.cpp:35-37 | In true time the unsigned age test passes if and only if the heartbeat is at least the timeout old or newer than the tick's clock reading |
| `WatchdogSteps.TickWinsWereStale` | firmware/components/safety_watchdog/PttWatchdog.cpp:29-40 | Every swap won by a tick had read a stored heartbeat whose age modulo 2^32 was at least the timeout |
| `WatchdogSteps.FiresOnFreshExactly` | firmware/components/safety_watchdog/PttWatchdog.cpp:29-40 | When a tick wins, the newest heartbeat is fresh if and only if a fresh one was stored beyond the one the tick had read (after its load, if the load was current), or the one read is newer than the tick's clock reading |
| `WatchdogSteps.HeartbeatComesTooLate` | firmware/components/safety_watchdog/PttWatchdog.cpp:12-44 | No whole heartbeat stops a tick that has passed its age test: in every state it still wins its swap |
| `WatchdogSteps.FreshHeartbeatStillFires` | firmware/components/safety_watchdog/PttWatchdog.cpp:29-40 | For every timeout a reachable state in which a tick with current loads fires right after a heartbeat at its own instant has completed |
| `WatchdogSteps.EarlierClockFires` | firmware/components/safety_watchdog/PttWatchdog.cpp:20-40 | From every armed, clear state a tick whose clock was read before the newest heartbeat fires although all its loads are current |
| `WatchdogProgress.NobodySticks` | firmware/components/safety_watchdog/PttWatchdog.cpp:12-56 | In every reachable state each caller inside a call has a step it can take; no tick looks for a heartbeat that never was |
| `WatchdogProgress.AloneIsSequential` | firmware/components/safety_watchdog/PttWatchdog.cpp:12-56 | From any reachable state the atomic steps of a heartbeat, tick or force_safe run without interruption do what the sequential object does |
| `Chunking.SplitPayload` | firmware/components/ble_services/BleChunker.cpp:13-38 | split makes exactly the specified chunks, or none when the input is empty, the size 0 or the chunks more than 64 |
| `ChunkRules.ChunkOctets` | firmware/components/ble_services/BleChunker.cpp:13-38 | Every chunk byte for byte: id, index, total, and its slice of the payload, full but for the last |
| `ChunkRules.SplitsUnless` | firmware/components/ble_services/BleChunker.cpp:13-24 | Nothing comes of split exactly for an empty payload, a size of 0 or more than 64 times the size |
| `Chunking.FindSlot` | firmware/components/ble_services/BleChunker.cpp:106-112 | The first active slot with this message id |
| `Chunking.Victim` | firmware/components/ble_services/BleChunker.cpp:114-144 | An idle slot if there is one, otherwise one of maximal age |
| `Chunking.NeverMixed` | firmware/components/ble_services/BleChunker.cpp:47-167 | For every sequence of feed, tick and reset and any number of slots, a delivered message is made of accepted chunks 0..total-1 with one id and one total, each fed less than the timeout (modulo 2^32) after the one that opened the slot |
| `ChunkHistory.NoResetInside` | firmware/components/ble_services/BleChunker.cpp:47-167 | Between the chunk that opened a delivered message's slot and each of its chunks there was no reset |
| `ChunkHistory.ServesOnce` | firmware/components/ble_services/BleChunker.cpp:47-167 | No fed chunk serves two deliveries |
| `Chunking.SlotsApart` | firmware/components/ble_services/BleChunker.cpp:47-167 | In every reachable state active slots have different ids and each still misses a chunk |
| `Chunking.EvictsTheOldest` | firmware/components/ble_services/BleChunker.cpp:130-143 | A message is dropped to make room only when every slot is active, and then one of maximal age |
| `Chunking.Reassembles` | firmware/components/ble_services/BleChunker.cpp:13-167 | Feeding the chunks of a split in any order with any duplicates inside the timeout fires the callback exactly when the last missing one arrives, with exactly the payload |
| `Chunking.FeedFirst` | firmware/components/ble_services/BleChunker.cpp:62-83 | Whichever chunk comes first opens a slot holding just that chunk |
| `Chunking.FeedNext` | firmware/components/ble_services/BleChunker.cpp:62-83 | A further chunk inside the timeout, new or duplicate, completes the message exactly when none is missing |
| `ChunkRules.TakesExactly` | firmware/components/ble_services/BleChunker.cpp:47-73 | feed answers true exactly for a chunk of 3 to 255 bytes with a total of 1 to 64 and an index below it whose message, if live, has the same total |
| `ChunkRules.RefusedKeeps` | firmware/components/ble_services/BleChunker.cpp:47-73 | A refused chunk delivers nothing and leaves every live message as it was |
| `ChunkRules.DuplicateKeeps` | firmware/components/ble_services/BleChunker.cpp:74-76 | So does a chunk that its live message already has |
| `ChunkRules.OthersKept` | firmware/components/ble_services/BleChunker.cpp:62-83 | A chunk leaves the live messages of other ids alone as long as it needs no slot or one is free |
| `ChunkRules.TickAndReset` | firmware/components/ble_services/BleChunker.cpp:86-102 | A tick frees exactly the messages of the timeout's age and older, a reset all |
| `Chunking.LongChunksRefused` | firmware/components/ble_services/BleChunker.cpp:13-60 | split has no limit of 252 bytes a chunk and feed has: with longer chunks the first one is refused in every state, so Reassembles needs that condition |
| `Chunking.LateDuplicateReopens` | firmware/components/ble_services/BleChunker.cpp:162-164 | After completion the slot is gone, so a late duplicate of a longer message opens a new one |
| `ChunkMask.AddHas` | firmware/components/ble_services/BleChunker.cpp:75-80 | Setting a chunk's bit in received_mask marks that chunk and no other |
| `ChunkMask.CompleteMeans` | firmware/components/ble_services/BleChunker.cpp:148-153 | The mask test, its special case for 64 included, holds if and only if every chunk below the total has been received |
| `BleChunker.BleChunker.Expire` | firmware/components/ble_services/BleChunker.cpp:86-94 | The loop over the slots frees exactly the stale ones |
| `BleChunker.BleChunker.Tick` | firmware/components/ble_services/BleChunker.cpp:86-94 | The object stays in the state its input leads to |
| `BleChunker.BleChunker.Reset` | firmware/components/ble_services/BleChunker.cpp:96-102 | Every slot is freed |
| `BleChunker.BleChunker.FindSlot` | firmware/components/ble_services/BleChunker.cpp:106-112 | The loop finds the specified slot |
| `BleChunker.BleChunker.AllocSlot` | firmware/components/ble_services/BleChunker.cpp:114-144 | The two loops pick the specified slot and open it empty |
| `BleChunker.BleChunker.TryComplete` | firmware/components/ble_services/BleChunker.cpp:146-167 | Completes exactly on a full mask: the payloads in order to the callback, the slot freed first |
| `BleChunker.BleChunker.Store` | firmware/components/ble_services/BleChunker.cpp:74-83 | A duplicate changes nothing; a new chunk is stored and may complete the message |
| `BleChunker.BleChunker.Feed` | firmware/components/ble_services/BleChunker.cpp:47-84 | The object's slots, answer and deliveries are those of the specification on the input so far, so NeverMixed and Reassembles hold of it |
| `DesktopChunker.SplitsAlike` | app/desktop_test/chunker.py:21-60 | The Python split makes the same chunks as the C++ one for every payload and size, and raises exactly where that returns nothing for too many chunks |
| `DesktopChunker.Reassembler.Expire` | app/desktop_test/chunker.py:137-144 | Drops exactly the messages older than the timeout |
| `DesktopChunker.Reassembler.Feed` | app/desktop_test/chunker.py:90-131 | feed as the specification function; counting the chunks is the same as finding each of them |
| `DesktopChunker.Reassembler.Reset` | app/desktop_test/chunker.py:133-135 | Forgets every message in progress |
| `ChunkersAgree.FeedAgrees` | app/desktop_test/chunker.py:90-131 | One chunk fed to both reassemblers gives the same answer, the same deliveries and the same messages in progress, if it has at most 252 bytes, no message in progress is of exactly the timeout's age, the clock has not wrapped round and the firmware has a slot free |
| `ChunkersAgree.StayInStep` | app/desktop_test/chunker.py:1-5 | Over whole runs on which those conditions hold the Python class mirrors the C++ one exactly |
| `ChunkersAgree.MirrorsExactly` | app/desktop_test/chunker.py:90-131 | On a running clock, a chunk that both look at gets the same answer from both and leaves them in agreement if and only if no message in progress is of exactly the timeout's age and the firmware has room for the chunk's message |
| `ChunkersAgree.RunsMirrorExactly` | app/desktop_test/chunker.py:1-5 | Over whole runs of such chunks: in step all along if and only if that holds at every chunk |
| `ChunkersAgree.StartAgrees` | app/desktop_test/chunker.py:71-88 | Both start in agreement |
| `ChunkersAgree.ExactAgeDiffers` | app/desktop_test/chunker.py:137-144 | With a message of exactly the timeout's age (>= against >) feeding any chunk to both gives different answers or different messages in progress |
| `ChunkersAgree.LongChunkDiffers` | app/desktop_test/chunker.py:106-107 | A chunk of more than 252 bytes is refused by the firmware and accepted by the desktop |
| `ChunkersAgree.FullTableDiffers` | firmware/components/ble_services/BleChunker.cpp:130-143 | With every firmware slot in use a chunk of a new message does so too: it evicts a message that the desktop keeps |
| `Kiss.UnescapedIff` | firmware/components/kiss/KissFramer.cpp:46-73 | A body unescapes to data if and only if it is that data escaped: raw FEND, trailing FESC and unknown escapes are all refused |
| `Kiss.EscapedLength` | firmware/components/kiss/KissFramer.cpp:18-38 | Escaping adds one byte for each FEND or FESC, and no FEND is left |
| `Kiss.DecodesTo` | firmware/components/kiss/KissFramer.cpp:106-152 | A frame decodes to a payload if and only if it is the escaped payload behind a data command byte between any numbers of FENDs, and the escaped form has at most 330 bytes |
| `Kiss.OutcomeOf` | firmware/components/kiss/KissFramer.cpp:106-152 | Every frame is nothing but FENDs, and malformed, or has a content between them whose first byte decides: 0 for data, anything else a command frame with that command |
| `Kiss.BodyRefused` | firmware/components/kiss/KissFramer.cpp:46-73 | A data body is refused exactly when it is over 330 bytes or not the escaped form of anything |
| `Kiss.WireBytes` | firmware/components/kiss/KissFramer.cpp:13-102 | The delimiter, command and escape bytes on the wire |
| `Kiss.EncodeDecode` | firmware/components/kiss/KissFramer.cpp:77-152 | decode inverts encode if and only if n + number of special bytes is at most 330, with or without delimiters; otherwise the frame is refused. The frame takes n + specials + 3 <= 2n + 3 bytes |
| `Kiss.WorstCase` | firmware/components/kiss/KissFramer.cpp:77-102 | 2n + 3 bytes are needed for some payload of every length n |
| `Kiss.PayloadFits` | firmware/components/kiss/KissFramer.cpp:146-151 | No payload exceeds the 330-byte buffer |
| `KissFramer.Escape` | firmware/components/kiss/KissFramer.cpp:18-38 | Writes the escaped bytes, or returns 0 exactly when they do not fit; nothing outside the given room changes |
| `KissFramer.Unescape` | firmware/components/kiss/KissFramer.cpp:46-73 | Writes the unescaped bytes, or returns -1 exactly on malformed input or a short buffer |
| `KissFramer.Encode` | firmware/components/kiss/KissFramer.cpp:77-102 | Writes the frame if and only if it fits the buffer, and otherwise returns 0 |
| `KissFramer.StripDelimiters` | firmware/components/kiss/KissFramer.cpp:112-122 | The two loops strip exactly the leading and trailing FENDs |
| `KissFramer.Decode` | firmware/components/kiss/KissFramer.cpp:106-152 | Result, output and cmd_out for data frames, other commands and malformed frames |
| `KissFramer.OnKissTx` | firmware/main/main.cpp:3191-3216 | An uplink frame is handed on exactly when it decodes to a nonempty payload |
| `KissPacketizer.Encode` | app/desktop_test/kiss_bridge.py:97-118 | The Python encoder makes the same frame |
| `KissPacketizer.DecodeWithCmd` | app/desktop_test/kiss_bridge.py:142-199 | The Python decoder agrees with the C++ one on every input |
| `KissPacketizer.UnescapeBody` | app/desktop_test/kiss_bridge.py:177-199 | The unescaping loop, every refusal included |
| `KissPacketizer.KissPacketizer.Feed` | app/desktop_test/kiss_bridge.py:203-229 | The loop computes the specified stream state |
| `KissPacketizer.KissPacketizer.Reset` | app/desktop_test/kiss_bridge.py:231-234 | Forgets the frame in progress and nothing else |
| `KissPacketizer.StreamDelivers` | app/desktop_test/kiss_bridge.py:203-229 | However the concatenation of any encoded frames is cut into pieces, exactly those within the buffer limit are delivered, in order, and every other one is discarded and counted once without disturbing its neighbours |
| `KissPacketizer.StreamRoundTrip` | app/desktop_test/kiss_bridge.py:97-229 | When all escaped forms fit 330 bytes the i-th delivery decodes to the i-th payload |
| `KissPacketizer.Resynchronises` | app/desktop_test/kiss_bridge.py:203-229 | From any state an idle FEND makes the next frame arrive, after at most one leftover |
| `KissPacketizer.LostWithoutIdle` | app/desktop_test/kiss_bridge.py:210-221 | Without it a frame is lost whenever something was being collected |
| `KissPacketizer.SharedDelimiterLosesFrame` | app/desktop_test/kiss_bridge.py:210-221 | Of two frames sharing one delimiter the second is lost |
| `KissBridge.KissRxNotifier.NotifyKissRx` | firmware/components/ble_services/BleServer.cpp:705-758 | Refuses exactly when not ready, empty or over 255 chunks; otherwise the id advances modulo 256 and the chunks of the frame cut at 17 bytes are sent, but for those the link does not take; true exactly when it takes them all |
| `KissBridge.ChunkableIs` | firmware/components/ble_services/BleServer.cpp:718-724 | It agrees to send exactly frames of 1 to 4335 bytes when ready |
| `KissBridge.ChunkKissFrame` | app/desktop_test/kiss_bridge.py:239-262 | Chunks of mtu - 3 bytes, none when the capacity is 0 or the chunks exceed 255, one empty chunk for an empty frame |
| `KissBridge.ReassembleKissFrame` | app/desktop_test/kiss_bridge.py:265-291 | Sorted by index, refused unless the indices are 0..total-1 |
| `KissReassembly.ReassembledFrame` | app/desktop_test/kiss_bridge.py:265-291 | All chunks of a frame, in whatever order they came, reassemble to the frame |
| `KissReassembly.ReassembledMix` | app/desktop_test/kiss_bridge.py:265-291 | A complete list of chunks some of which belong to another frame reassembles to the slices held, each at its index |
| `KissReassembly.IntactExactly` | app/desktop_test/kiss_bridge.py:265-291 | That is the frame sent if and only if every slice held agrees with the frame's own |
| `KissReassembly.IndexTooLarge` | app/desktop_test/kiss_bridge.py:280-289 | One chunk with an index past the end spoils the list, wherever it stands |
| `KissBridge.KissBridge.OnKissRxNotify` | app/desktop_test/kiss_bridge.py:416-469 | The table, the fast path, eviction of the oldest of four, duplicates and completion |
| `KissBridge.KissBridge.Disconnect` | app/desktop_test/kiss_bridge.py:362-367 | The table is emptied |
| `KissDelivery.NotifyTidy` | app/desktop_test/kiss_bridge.py:444-449 | At most four entries, one per message id, whatever arrives |
| `KissDelivery.IgnoredChunks` | app/desktop_test/kiss_bridge.py:425-458 | A chunk without a whole header, with total 0 or already there changes nothing |
| `KissDelivery.DeliveredWhenComplete` | app/desktop_test/kiss_bridge.py:416-469 | A frame's chunks in any order, with duplicates, among any other traffic with at most three other message ids: delivered intact exactly when the last missing chunk comes |
| `KissDelivery.DeliveredMixed` | app/desktop_test/kiss_bridge.py:416-469 | The same whatever was held under the id before: delivery at the last missing chunk, with the slices held in place of the frame's own |
| `KissDelivery.OneMoreMessageEvicts` | app/desktop_test/kiss_bridge.py:432-449 | Three is the most: with four messages pending a chunk of a fifth drops the oldest, unless it is the whole of a message |
| `KissStale.NotifySound` | app/desktop_test/kiss_bridge.py:416-469 | Every entry of the table has a chunk and none two of one index, whatever arrives |
| `KissStale.ArrivesExactly` | app/desktop_test/kiss_bridge.py:416-469 | For every state of the table, what a frame of two or more chunks arrives as: itself if nothing was held under its id; with the held chunks in place of its own if those have its total and are below it; otherwise nothing |
| `KissStale.IncompleteLeaves` | app/desktop_test/kiss_bridge.py:451-460 | There is no timeout: a frame of which some chunks came and some did not leaves exactly those chunks behind |
| `KissStale.StaleFrameMixes` | app/desktop_test/kiss_bridge.py:451-469 | Then a later frame with that id and total is delivered once, with the old slices where those were held: intact if and only if the two frames agree on them. A frame of another total is not delivered at all |
| `KissStale.SingleChunkArrives` | app/desktop_test/kiss_bridge.py:432-441 | A frame of one chunk is delivered whatever the table holds |
| `KissDelivery.FramedChunks` | firmware/components/ble_services/BleServer.cpp:721-724 | The frame of every payload that fits is one the notifier accepts |
| `KissDelivery.Downlink` | firmware/components/ble_services/BleServer.cpp:705-758 | Firmware to desktop: encode, 17-byte chunks, any such arrival, decode gives the payload back whenever its escaped form fits 330 bytes |
| `KissDelivery.UplinkFits` | app/desktop_test/kiss_bridge.py:377-407 | The frame of every payload that fits is accepted by the firmware's reassembler at every MTU from 9 to 255 |
| `KissDelivery.Uplink` | app/desktop_test/kiss_bridge.py:377-407 | Desktop to firmware: at every MTU at which the firmware accepts the frame's chunks, these, fed in any order inside the timeout, complete a frame that decodes to the payload |
| `KissDelivery.SameChunks` | app/desktop_test/kiss_bridge.py:239-262 | The bridge's chunks are the ones BleChunker::split would make |
| `KissLink.Downlink` | firmware/main/main.cpp:2686-2695 | Encoder, notifier, bridge and decoder in sequence: the frame always arrives; the payload comes back if and only if its escaped form fits |
| `JsonText.StringEndsAndContent` | firmware/components/payload_codec/PayloadValidator.cpp:20-61 | Reading a printed string gives back its content and stops right after its closing quote |
| `JsonText.KeyMatch` | firmware/components/payload_codec/PayloadValidator.cpp:99-100 | The comparison against a key name succeeds if and only if the string is that name |
| `JsonText.PassString` | firmware/components/payload_codec/PayloadValidator.cpp:85-119 | A string value is passed over even when it is the very name looked for |
| `JsonText.FindMember` | firmware/components/payload_codec/PayloadValidator.cpp:85-119 | A member with the name is found, at its value, whatever blanks surround the colon |
| `JsonText.FindField` | firmware/components/payload_codec/PayloadValidator.cpp:85-119 | Whatever the order of the members, a value is found if and only if the object has the key |
| `JsonText.ReadInt` | firmware/components/payload_codec/PayloadValidator.cpp:65-78 | Numbers are read up to a fraction or exponent; strings and words are refused |
| `PayloadValidator.SkipString` | firmware/components/payload_codec/PayloadValidator.cpp:20-36 | The loop finds the end of the string, or refuses |
| `PayloadValidator.ExtractString` | firmware/components/payload_codec/PayloadValidator.cpp:41-61 | The buffer holds the unescaped content cut to its size, NUL-terminated, whenever the string is well formed |
| `PayloadValidator.ExtractInt` | firmware/components/payload_codec/PayloadValidator.cpp:65-78 | The loop computes the decimal value |
| `PayloadValidator.FindValueAt` | firmware/components/payload_codec/PayloadValidator.cpp:85-119 | The nested loops find the specified place |
| `PayloadValidator.IsValidCallsign` | firmware/components/payload_codec/PayloadValidator.cpp:123-137 | One to six letters, digits or dashes |
| `PayloadValidator.ValidateConfigPayload` | firmware/components/payload_codec/PayloadValidator.cpp:141-173 | The config validator equals its specification on every byte string |
| `PayloadValidator.ValidateTxRequestPayload` | firmware/components/payload_codec/PayloadValidator.cpp:175-217 | The TX-request validator equals its specification on every byte string |
| `PayloadValidator.TxRequestAccepts` | firmware/components/payload_codec/PayloadValidator.cpp:175-217 | On every well-formed flat object under 512 bytes it accepts if and only if dest, text and ssid meet the rules on their full unescaped values, and returns exactly those |
| `PayloadValidator.ConfigAccepts` | firmware/components/payload_codec/PayloadValidator.cpp:141-173 | The same for the config validator |
| `PayloadRules.TxRequestRules` | firmware/components/payload_codec/PayloadValidator.cpp:175-217 | In the documented terms: on every well-formed flat object under 512 bytes it accepts exactly when dest is 1-6 characters of A-Z, a-z, 0-9 and dash, text is 1-67 characters, and ssid is absent or reads 0-15 |
| `PayloadRules.ConfigRules` | firmware/components/payload_codec/PayloadValidator.cpp:141-173 | The same for the config validator |
| `PayloadRules.LengthRefused` | firmware/components/payload_codec/PayloadValidator.cpp:141-147 | Both validators refuse the empty payload and every one of 512 bytes or more |
| `PayloadRules.NumeralReadsDecimal` | firmware/components/payload_codec/PayloadValidator.cpp:65-78 | The digits printed for a number are read as that number |
| `PayloadValidator.NeverCutShort` | firmware/components/payload_codec/PayloadValidator.cpp:41-61 | On any bytes whatever, an accepted string was never cut short by its buffer |
| `PayloadValidator.CallsignBuffer` | firmware/components/payload_codec/PayloadValidator.cpp:153-155 | Cutting to seven characters never makes an overlong callsign valid |
| `PayloadValidator.TextBuffer` | firmware/components/payload_codec/PayloadValidator.cpp:194-197 | Nor does cutting to 68 characters for a text |
| `PayloadValidator.FractionIgnored` | firmware/components/payload_codec/PayloadValidator.cpp:65-78 | A fraction or exponent after the digits of ssid is not looked at |
| `PayloadValidator.LineBreakHidesKey` | firmware/components/payload_codec/PayloadValidator.cpp:103-108 | Any JSON white space with a line break in it before the colon makes the scanner take the key for a value |
| `PayloadValidator.LineBreakHidesValue` | firmware/components/payload_codec/PayloadValidator.cpp:103-108 | After the colon it makes the scanner find a value that reads neither as a string nor as a number |
| `Timestamp.MakeTimestamp` | firmware/components/gps/NmeaParser.cpp:235-259 | The two loops compute the day count from which the time stamp is made |
| `Timestamp.DaysAreCounted` | firmware/components/gps/NmeaParser.cpp:248-257 | 1 January 1970 is day 0 and every calendar day is one more than the day before |
| `Timestamp.LoopsAreGregorian` | firmware/components/gps/NmeaParser.cpp:248-257 | From 1970 on the loops equal the closed Gregorian day count |
| `Timestamp.StampsInOrder` | firmware/components/gps/NmeaParser.cpp:235-259 | Time stamps of valid instants are strictly monotone |
| `Timestamp.FitsUint32` | firmware/components/gps/NmeaParser.cpp:146 | The cast to uint32_t loses nothing before the year 2106 |

## Left out

- Filters, envelope detectors, the sine and the DC blocker: the slicer is taken as ideal.
- Rounding of the double-precision sample clocks: exact integers instead.
- Modulator.AfskModulator.ModulateFrame: after a truncated transmission the buffer is described and the line state is only said to be well formed; the code leaves it wherever the buffer ran out.
- Modulator.AfskModulator.EmitDataBit: after truncation the tone and the fractional accumulator are only said to be well formed; every receiving theorem holds from any well-formed line state.
- Modulator.AfskModulator.EmitFlag: likewise.
- Ax25.Decode: what a failing decode leaves in the output frame is not modelled, nor is the seventh byte of a callsign array beyond its use as a terminator.
- `to_tnc2`, telemetry and capability printing, the configuration store and radio commands: formatting with only easy facts.
- The objects `AprsTask.AprsTaskContext` and `AprsTask.Ring` run each method to completion; the interleavings of their atomics are the subject of `SpscRing`.
- Timestamps given to the scheduler are assumed not to run backwards (a run's operations are in order of time); the uint32 wrap of the stored fields is modelled.
- Callbacks that call back into the scheduler or a chunker.
- Null pointers: arguments are never null.
- NimBLE, I2S, UART, GPIO, NVS and RTOS calls: whether the link takes a chunk is a parameter, and the chunks it takes arrive in order or as the theorem says; whether a radio attempt succeeds is a parameter.
- The write side of the desktop bridge beyond its chunking, its asyncio plumbing, and `_rx_packetizer`, which nothing feeds.
- PayloadValidator.ExtractInt: integers are unbounded; the overflow of `int val` on literals beyond 2^31 is undefined behaviour in the code and not modelled.
- Python's `sorted`, dict order and slicing, and C's `strncmp`, `strlen`, `isdigit`, `isalnum` and `toupper` (C locale), are modelled by their documented meaning.
- DesktopChunker.Reassembler.Feed: the clock is in whole milliseconds and read once a call, where the code has float seconds and reads it once for the expiry and again for a new message.
- Timestamp.MakeTimestamp: months above 13 read past the table and are excluded; the parsing of NMEA sentences is not modelled.
- `MessageTracker` in the desktop client.
