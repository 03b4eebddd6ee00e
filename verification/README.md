# Verified models of the debug toolkit and the smart home hub

Two programs are modelled in Dafny. From the embedded debug toolkit: the UART, I2C and SPI decoders, the lock-free
byte ring between sampler and consumer, the logic analyzer above it, and the SUMP server that drives the analyzer over
a socket. From the smart home hub: the block pool, the frame queue and the two video threads, the YUYV conversion, and
the configuration scanner.

Each loop of the C sources is a Dafny method, proved against a specification function; what the program is for is then
proved of the specification as lemmas over all inputs, all runs, or all interleavings. Integers have their C width
wherever it can be seen: ring positions, stamps and counters wrap at 2^64, SUMP registers at 2^32.

## Files

| file | contents |
|---|---|
| `Arith`, `Bits`, `Options` | products and quotients; bits, bytes, `&`, bit order; optional values |
| `Machine`, `Protocol` | folding a step function over a stream, with its general laws; samples and events |
| `I2cDecoder`, `SpiDecoder`, `UartDecoder` | the decoders as loops and as specifications |
| `I2cBus`, `SpiBus`, `UartLine` | what a sender puts on the wire, and the round trips |
| `RingIndex`, `RingBuffer`, `RingSpsc` | positions and masks; the ring as an object; the ring between two threads |
| `SampleCodec`, `TriggerGate`, `LogicAnalyzer` | samples as bytes; the trigger; the analyzer as an object |
| `SamplerGate`, `SampleStream`, `StreamProgress` | the gate between sampler and setters; sampler, consumer and setters as threads; what they achieve undisturbed |
| `SumpProtocol`, `SumpSession`, `SumpServer` | framing; registers and derived settings; socket and command loop |
| `MemoryPool`, `FrameQueue`, `VideoPipeline`, `Yuyv` | blocks; the queue; both video threads; pixels |
| `JsonScan`, `HubConfig` | the scanner; fields, loading and the canonical text |

`dafny verify dfyconfig.toml` checks everything.

## Where the code does less than one would expect

Each of these is a lemma, with the exact condition under which the code does meet the expectation.

- I2C: a byte cut off by STOP or repeated START after its eighth bit, before the ACK clock, is reported with a made-up
  acknowledgement (`I2cBus.RoundTrip`).
- UART: messages are recovered exactly when `9 * (rate mod baud) <= (rate / baud / 2) * baud`
  (`UartLine.ExactTolerance`, with a lost byte in `UartLine.ZeroLost`).
- Ring: rounding up to a power of two ends exactly for sizes up to 2^63 (`RingIndex.DoublingEnds`).
- Trigger: an arming between the sampler's match and its store of 0 is lost, and a value whose test comes after the
  gate was opened and a new trigger written can be discarded; there is no other way for the gate to go wrong
  (`SampleStream.ExactlyNoClash`, with a run of each kind in `SampleStream.LostArming` and `SampleStream.LostValue`).
- Pool: a release is two steps, and an acquire between them can hand out a block that is then marked free
  (`VideoPipeline.ReleaseGap`). Ownership holds throughout exactly the runs without such an acquire
  (`VideoPipeline.GuardedExactly`), which include all runs in which a release is one step
  (`VideoPipeline.OneStepGuarded`); with such an acquire order and queue depth can be lost too, for every pool that has
  a block (`VideoPipeline.GuardNeeded`). That every frame is accounted for and that a stop frees every block hold of
  all runs.
- Queue: with more than eight blocks frames can be dropped from it also in guarded runs (`VideoPipeline.ExactDepth`).
- YUYV: the last pixel of a frame with an odd number of pixels is never written (`Yuyv.FrameReadsBack`).
- SUMP: a divider of 2^32 - 1 cannot be applied (`SumpServer.Client.ApplySession`), and the default capture length is
  kept in 32 bits (`SumpSession.DefaultTarget`).
- Configuration: a string that equals a key name is taken for the key, and the value of the next line for its value
  (`HubConfig.Located`, `HubConfig.OwnLine`, with a lost field in `HubConfig.TopicLost`).

## Model

| member | source | states |
|---|---|---|
| I2cDecoder.Decode | 项目二/embedded_debug_toolkit/src/protocol/protocol_decoder.c:80-150 | fills `events` with the first `max_events` events of the whole capture and leaves the rest of the array alone; no events for a bad channel or an empty capture |
| I2cDecoder.InvNext | 项目二/embedded_debug_toolkit/src/protocol/protocol_decoder.c:106-146 | one sample takes the decoder variables from describing the bits received so far to describing them with this sample, branch by branch; no byte overflows |
| I2cDecoder.PrefixMonotone | 项目二/embedded_debug_toolkit/src/protocol/protocol_decoder.c:100-149 | the events of a prefix of any capture are a prefix of the events of the whole |
| I2cDecoder.OversamplingInvariance | 项目二/embedded_debug_toolkit/src/protocol/protocol_decoder.c:100-147 | repeating any samples of any capture in place leaves the sequence of decoded values unchanged |
| I2cDecoder.EventWords | 项目二/embedded_debug_toolkit/src/protocol/protocol_decoder.c:100-147 | the values of the events depend only on the traces of the two pins, not on the other channels or the clock |
| I2cDecoder.EventTimed | 项目二/embedded_debug_toolkit/src/protocol/protocol_decoder.c:131-132 | each event is an I2C event with the time of the sample at which it first appears |
| I2cBus.BusDecodes | 项目二/embedded_debug_toolkit/src/protocol/protocol_decoder.c:100-147 | on any trace of START, bytes, cut byte and STOP or repeated START, with any hold times, exactly the sent bytes and ACK flags come out, plus one phantom byte for each byte cut after its eighth bit |
| I2cBus.PhantomsCounted | 项目二/embedded_debug_toolkit/src/protocol/protocol_decoder.c:121-146 | the phantoms are the only difference between what was sent and what is decoded |
| I2cBus.RoundTrip | 项目二/embedded_debug_toolkit/src/protocol/protocol_decoder.c:100-147 | decoding returns exactly what was sent if and only if no byte was cut after its eighth bit; the extra SCL rise before STOP or repeated START otherwise leaves no trace |
| I2cBus.CaptureRoundTrip | 项目二/embedded_debug_toolkit/src/protocol/protocol_decoder.c:80-150 | the same if-and-only-if for a capture whose SCL and SDA channels, any two, show the trace |
| SpiDecoder.Decode | 项目二/embedded_debug_toolkit/src/protocol/protocol_decoder.c:152-231 | fills `events` with the first `max_events` events of the whole capture and leaves the rest of the array alone |
| SpiDecoder.InvNext | 项目二/embedded_debug_toolkit/src/protocol/protocol_decoder.c:184-227 | one sample keeps the decoder variables in step with the bit pairs received since CS fell or the last full pair |
| SpiDecoder.SkipReachable | 项目二/embedded_debug_toolkit/src/protocol/protocol_decoder.c:196-208 | at a sampling edge the extra skip of phase 1 is taken exactly for polarities other than 0 and 1, so never in the four modes |
| SpiDecoder.EventWords | 项目二/embedded_debug_toolkit/src/protocol/protocol_decoder.c:178-228 | the values of the events depend only on the traces of the four pins |
| SpiDecoder.EventTimed | 项目二/embedded_debug_toolkit/src/protocol/protocol_decoder.c:215-216 | each event is an SPI event with the time of the sample at which it first appears |
| SpiDecoder.PrefixMonotone | 项目二/embedded_debug_toolkit/src/protocol/protocol_decoder.c:178-230 | the events of a prefix of any capture are a prefix of the events of the whole |
| SpiDecoder.OversamplingInvariance | 项目二/embedded_debug_toolkit/src/protocol/protocol_decoder.c:178-228 | repeating any samples of any capture in place leaves the sequence of decoded values unchanged |
| SpiBus.SamplesOnTheRightEdge | 项目二/embedded_debug_toolkit/src/protocol/protocol_decoder.c:164-200 | in each of the four modes data is sampled on the leading clock edge for phase 0 and on the trailing one for phase 1 |
| SpiBus.RoundTrip | 项目二/embedded_debug_toolkit/src/protocol/protocol_decoder.c:178-228 | for every exchange framed by CS, in all four modes and with any hold times, exactly the MOSI/MISO pairs come out; a pair cut by CS leaves nothing behind |
| SpiBus.CaptureRoundTrip | 项目二/embedded_debug_toolkit/src/protocol/protocol_decoder.c:152-231 | the same for a capture whose clock, CS, MOSI and MISO channels, any four, show the trace |
| UartDecoder.Decode | 项目二/embedded_debug_toolkit/src/protocol/protocol_decoder.c:11-78 | writes the first `max_events` events of a scan of the line that has no early exit and leaves the rest of the array alone; none for a bad channel or fewer than three samples a bit |
| UartDecoder.ReadBits | 项目二/embedded_debug_toolkit/src/protocol/protocol_decoder.c:40-61 | reads the eight data bits at their sample points, least significant first, or stops at the first one outside the capture |
| UartDecoder.CutOff | 项目二/embedded_debug_toolkit/src/protocol/protocol_decoder.c:44-61 | when one frame is cut off by the end of the capture, no later one fits: the early exits lose nothing |
| UartDecoder.FramesGenuine | 项目二/embedded_debug_toolkit/src/protocol/protocol_decoder.c:34-75 | every reported frame has a start edge, a confirmed start bit, the reported data bits and a high stop bit, and reported frames occupy disjoint increasing sample ranges |
| UartDecoder.FramesComplete | 项目二/embedded_debug_toolkit/src/protocol/protocol_decoder.c:34-75 | a good frame is either reported or begins inside an earlier candidate |
| UartDecoder.ScanPrefix | 项目二/embedded_debug_toolkit/src/protocol/protocol_decoder.c:34-77 | the frames of a prefix of any line are a prefix of the frames of the whole line |
| UartDecoder.PrefixMonotone | 项目二/embedded_debug_toolkit/src/protocol/protocol_decoder.c:11-78 | the same for the frames and the events of captures |
| UartLine.SampleInBit | 项目二/embedded_debug_toolkit/src/protocol/protocol_decoder.c:28-58 | within the tolerance every sample point falls inside the bit it is meant for |
| UartLine.RoundTrip | 项目二/embedded_debug_toolkit/src/protocol/protocol_decoder.c:28-76 | frames sent at exact rational bit times, without overlap and at any phase, are decoded to exactly the sent bytes at their first low samples |
| UartLine.ExactTolerance | 项目二/embedded_debug_toolkit/src/protocol/protocol_decoder.c:28-76 | with at least three samples a bit, every message is decoded if and only if `9 * (rate mod baud) <= (rate / baud / 2) * baud` |
| UartLine.ZeroLost | 项目二/embedded_debug_toolkit/src/protocol/protocol_decoder.c:40-71 | beyond the tolerance a single zero byte is lost: its stop bit is sampled while the line is still low |
| UartLine.EnoughSamples | 项目二/embedded_debug_toolkit/src/protocol/protocol_decoder.c:28-76 | eighteen samples a bit, or any whole number from three on, are always enough |
| UartLine.CaptureRoundTrip | 项目二/embedded_debug_toolkit/src/protocol/protocol_decoder.c:11-78 | the events of a capture on any channel are one for each frame sent: a UART event with the byte as first value, 0 as second, and the time of the first sample that shows the frame |
| UartLine.WholeUnits | 项目二/embedded_debug_toolkit/src/protocol/protocol_decoder.c:34-75 | frames that start at real times look, at every sample instant, like frames whose starts are rounded up to a whole unit |
| UartLine.RealRoundTrip | 项目二/embedded_debug_toolkit/src/protocol/protocol_decoder.c:11-78 | the same for frames that start at any real times |
| RingIndex.PowerOfTwoTest | 项目二/embedded_debug_toolkit/src/core/ring_buffer.c:6-9 | `v != 0 && (v & (v - 1)) == 0` holds exactly of the powers of two |
| RingIndex.RoundUpPow2 | 项目二/embedded_debug_toolkit/src/core/ring_buffer.c:11-18 | the smallest power of two not below `v`, computed without overflow, for `v` up to 2^63 |
| RingIndex.DoublingEnds | 项目二/embedded_debug_toolkit/src/core/ring_buffer.c:11-18 | the doubling loop ends if and only if `v` is at most 2^63 |
| RingIndex.DoubledValue | 项目二/embedded_debug_toolkit/src/core/ring_buffer.c:14-16 | in 64 bits the loop variable after `k` rounds is 2^k, and 0 from the 64th round on |
| RingIndex.MaskIsRemainder | 项目二/embedded_debug_toolkit/src/core/ring_buffer.c:95 | masking with capacity minus one is the remainder by the capacity |
| RingIndex.WrapKeepsSlot | 项目二/embedded_debug_toolkit/src/core/ring_buffer.c:90-107 | wrap-around of a position modulo 2^64 does not move its slot |
| RingIndex.ChunkIndexIsSlot | 项目二/embedded_debug_toolkit/src/core/ring_buffer.c:94-104 | the two-chunk copy puts byte `k` of a transfer into the slot of position `pos + k` |
| RingIndex.TrueDistance | 项目二/embedded_debug_toolkit/src/core/ring_buffer.c:61-77 | the 64-bit difference of two wrapped positions is the true difference |
| RingBuffer.Ring.Init | 项目二/embedded_debug_toolkit/src/core/ring_buffer.c:20-37 | fails for fewer than two bytes or without memory; otherwise an empty ring whose capacity is the power of two at or above the request, and below twice the request |
| RingBuffer.Ring.Destroy | 项目二/embedded_debug_toolkit/src/core/ring_buffer.c:39-50 | leaves an empty ring without storage |
| RingBuffer.Ring.Reset | 项目二/embedded_debug_toolkit/src/core/ring_buffer.c:52-59 | empties the ring |
| RingBuffer.Ring.AvailableData | 项目二/embedded_debug_toolkit/src/core/ring_buffer.c:61-69 | the number of unread bytes |
| RingBuffer.Ring.AvailableSpace | 项目二/embedded_debug_toolkit/src/core/ring_buffer.c:71-77 | the capacity less the unread bytes, or 0 without storage |
| RingBuffer.Ring.Write | 项目二/embedded_debug_toolkit/src/core/ring_buffer.c:79-111 | appends as many bytes as fit, the first ones of the source, to the FIFO content |
| RingBuffer.Ring.Read | 项目二/embedded_debug_toolkit/src/core/ring_buffer.c:113-145 | removes as many bytes as asked for and there are, oldest first, into the start of the destination; the rest of the destination keeps its value |
| RingBuffer.Ring.Peek | 项目二/embedded_debug_toolkit/src/core/ring_buffer.c:147-178 | copies the same bytes without removing them |
| RingBuffer.CopyAppends | 项目二/embedded_debug_toolkit/src/core/ring_buffer.c:94-107 | a two-chunk copy to the write position turns the unread bytes into themselves followed by the new ones, wherever the positions stand |
| RingBuffer.ChunksOut | 项目二/embedded_debug_toolkit/src/core/ring_buffer.c:128-141 | the two chunks copied out are the oldest unread bytes |
| RingBuffer.ReadDrops | 项目二/embedded_debug_toolkit/src/core/ring_buffer.c:142-144 | moving the read position drops exactly the bytes taken |
| RingSpsc.StepKeeps | 项目二/embedded_debug_toolkit/src/core/ring_buffer.c:79-145 | every load, byte copy and publication of either thread keeps the invariant that ties the shared array and the wrapped positions to the history |
| RingSpsc.FifoOrder | 项目二/embedded_debug_toolkit/src/core/ring_buffer.c:79-145 | in every interleaving the bytes the reader has obtained, published or not, are a prefix of the bytes the writer has published |
| RingSpsc.UnreadKept | 项目二/embedded_debug_toolkit/src/core/ring_buffer.c:79-111 | no step overwrites a byte that is published and not yet consumed |
| RingSpsc.StaleIsSafe | 项目二/embedded_debug_toolkit/src/core/ring_buffer.c:86-92 | the space and data computed from loaded positions are exact at the load, and an amount fixed earlier never exceeds what is free or unread later |
| RingSpsc.CopiesInBounds | 项目二/embedded_debug_toolkit/src/core/ring_buffer.c:94-107 | every byte copy of either thread stays inside the array |
| RingSpsc.WriteCompletes | 项目二/embedded_debug_toolkit/src/core/ring_buffer.c:79-111 | an uninterrupted write publishes `min(len, free)` bytes, the first ones of its source |
| RingSpsc.ReadCompletes | 项目二/embedded_debug_toolkit/src/core/ring_buffer.c:113-145 | an uninterrupted read consumes `min(len, unread)` bytes, oldest first |
| SampleCodec.DecodeEncode | 项目二/embedded_debug_toolkit/include/logic_analyzer.h:24-27 | a sample survives its 16-byte memory image |
| SampleCodec.DecodeEncodeAll | 项目二/embedded_debug_toolkit/src/logic/logic_analyzer.c:135-137 | a run of samples survives being written as bytes and read back |
| SampleCodec.EncodePrefix | 项目二/embedded_debug_toolkit/src/logic/logic_analyzer.c:138-140 | cutting the bytes of samples at a multiple of 16 cuts the samples there |
| SampleCodec.PrefixOfImages | 项目二/embedded_debug_toolkit/src/logic/logic_analyzer.c:312-316 | bytes that are a prefix of a stream of images, of whole-sample length, are the first samples of the stream |
| TriggerGate.FirstMatch | 项目二/embedded_debug_toolkit/src/logic/logic_analyzer.c:118-131 | the index of the first sample that matches the trigger against its predecessor |
| TriggerGate.GatedAppend | 项目二/embedded_debug_toolkit/src/logic/logic_analyzer.c:118-131 | the gate works on a stream as on its parts, the second part seeing the last raw value of the first |
| TriggerGate.BatchesStoreTheSuffix | 项目二/embedded_debug_toolkit/src/logic/logic_analyzer.c:96-132 | however the raw stream is cut into batches, exactly the suffix from the first match on is stored |
| LogicAnalyzer.Analyzer.constructor | 项目二/embedded_debug_toolkit/src/logic/logic_analyzer.c:153-161 | a fresh ring without storage |
| LogicAnalyzer.Analyzer.Init | 项目二/embedded_debug_toolkit/src/logic/logic_analyzer.c:153-202 | the analyzer has what the configuration asks for, clamped, and succeeds exactly when the ring can be allocated; the ring then holds whole samples, at least as many as asked for and fewer than twice that |
| LogicAnalyzer.Analyzer.Configure | 项目二/embedded_debug_toolkit/src/logic/logic_analyzer.c:163-192 | a rate and a maximum that are possible are kept and others are cut to 1..max or replaced by the defaults; the period is the whole number of nanoseconds of the rate, the trigger is off |
| LogicAnalyzer.Analyzer.SetSampleRate | 项目二/embedded_debug_toolkit/src/logic/logic_analyzer.c:249-263 | rejects 0, else sets the rate cut to the maximum and the matching period |
| LogicAnalyzer.Analyzer.SetTrigger | 项目二/embedded_debug_toolkit/src/logic/logic_analyzer.c:273-288 | rejects a channel beyond 7, else sets the trigger and arms exactly when it has a mode |
| LogicAnalyzer.Analyzer.Arm | 项目二/embedded_debug_toolkit/src/logic/logic_analyzer.c:290-300 | arms unless no trigger is set |
| LogicAnalyzer.Analyzer.CollectBatch | 项目二/embedded_debug_toolkit/src/logic/logic_analyzer.c:97-132 | collects exactly what the gate lets through, 256 samples at 1 MHz and above and 32 below; the first is stamped with the start of the batch, each next one a period later, climbing unless the clock wraps; leaves the gate open and the last raw value up to date |
| LogicAnalyzer.Analyzer.SampleBatch | 项目二/embedded_debug_toolkit/src/logic/logic_analyzer.c:96-142 | what fits of a batch is appended to the stored samples, with the channels the gate let through and stamps a period apart from the start of the batch on; the rest is counted as dropped, exactly |
| LogicAnalyzer.Analyzer.StoreBatch | 项目二/embedded_debug_toolkit/src/logic/logic_analyzer.c:134-142 | as many samples of a batch as fit are stored, whole; the others are counted as dropped |
| LogicAnalyzer.PacedClimbing | 项目二/embedded_debug_toolkit/src/logic/logic_analyzer.c:115 | stamps a period apart strictly increase when the clock does not wrap within the batch |
| LogicAnalyzer.Analyzer.ReadSamples | 项目二/embedded_debug_toolkit/src/logic/logic_analyzer.c:302-317 | returns the oldest stored samples, intact, and removes exactly those |
| LogicAnalyzer.TriggerMatched | 项目二/embedded_debug_toolkit/src/logic/logic_analyzer.c:67-87 | the bit-mask test is the documented condition of each mode, on every channel |
| LogicAnalyzer.PeriodFits | 项目二/embedded_debug_toolkit/src/logic/logic_analyzer.c:257-261 | `period * rate <= 10^9 < (period + 1) * rate`, and the period is at least 10 |
| LogicAnalyzer.RoundedAligned | 项目二/embedded_debug_toolkit/src/logic/logic_analyzer.c:193-194 | the rounded-up ring size is a multiple of the sample size |
| SampleStream.StepKeeps | 项目二/embedded_debug_toolkit/src/logic/logic_analyzer.c:96-142 | every step of sampler, consumer and trigger setter keeps the transfers on sample boundaries, and the counters and the stored samples true to the history |
| SamplerGate.StepTracks | 项目二/embedded_debug_toolkit/src/logic/logic_analyzer.c:118-131 | in every interleaving of the sampler with the setters the last raw value is the sample before, and the values since the last setting are the tail of the raw stream |
| SamplerGate.StepExact | 项目二/embedded_debug_toolkit/src/logic/logic_analyzer.c:118-131 | a step leaves an exact gate exact if and only if it is neither an arming between a match and its store of 0, nor a test that fails although the gate was opened after the load of `armed` |
| SampleStream.SamplesIntact | 项目二/embedded_debug_toolkit/src/logic/logic_analyzer.c:302-343 | in every run the samples returned are a prefix of the samples accepted, and both positions stay multiples of the sample size |
| SampleStream.Accounted | 项目二/embedded_debug_toolkit/src/logic/logic_analyzer.c:126-141 | in every run total = discarded while armed + accepted + dropped + in the current batch, modulo 2^64 |
| SampleStream.GateExact | 项目二/embedded_debug_toolkit/src/logic/logic_analyzer.c:118-142 | in every run without such a step, the samples offered to the ring since the trigger was last set or armed are exactly the suffix of the raw stream from its first match on; of each batch the ring took the first samples, and all when nothing was lost |
| SampleStream.StoredExact | 项目二/embedded_debug_toolkit/src/logic/logic_analyzer.c:118-142 | when no batch since then lost a sample, the accepted samples with the current batch end in exactly that suffix, whatever was lost before |
| SampleStream.ExactlyNoClash | 项目二/embedded_debug_toolkit/src/logic/logic_analyzer.c:118-122 | the gate is exact after every prefix of a run if and only if no arming falls between a match and its store of 0 and no test fails after the gate was opened between load and test |
| SampleStream.LostArming | 项目二/embedded_debug_toolkit/src/logic/logic_analyzer.c:118-122 | a run of the first kind: a trigger set between match and store loses its arming, and a value that does not match it is stored |
| SampleStream.LostValue | 项目二/embedded_debug_toolkit/src/logic/logic_analyzer.c:118-120 | a run of the second kind: the trigger is switched off and the next one written between load and test, and a value that is due is discarded |
| SampleStream.LastRawTracked | 项目二/embedded_debug_toolkit/src/logic/logic_analyzer.c:130 | in every run the last raw value is the preceding sample, 0 before the first |
| SampleStream.CaptureBounded | 项目二/embedded_debug_toolkit/src/logic/logic_analyzer.c:319-344 | a capture never returns more samples than asked for |
| SampleStream.StampsPaced | 项目二/embedded_debug_toolkit/src/logic/logic_analyzer.c:97-142 | in every run the samples of each batch, finished or not, are stamped one period apart from the start of the batch on, and climb unless the clock wraps |
| StreamProgress.CaptureCompletes | 项目二/embedded_debug_toolkit/src/logic/logic_analyzer.c:319-344 | a capture that is not interrupted returns exactly as many of the oldest unread samples as it asks for and there are |
| StreamProgress.BatchCompletes | 项目二/embedded_debug_toolkit/src/logic/logic_analyzer.c:134-142 | a full batch that is written without interruption is accepted as far as there is room, and the rest counted as lost |
| MemoryPool.FirstFree | 项目一/6-7_smart_home_hub/src/core/memory_pool.c:87-100 | the first block with no reference |
| MemoryPool.Pool.Acquire | 项目一/6-7_smart_home_hub/src/core/memory_pool.c:78-118 | takes the first free block with one reference and no used bytes, or fails, changing nothing, when none is free or the pool is shut down |
| MemoryPool.Pool.Retain | 项目一/6-7_smart_home_hub/src/core/memory_pool.c:120-126 | one more reference to that block and no other change |
| MemoryPool.Pool.Release | 项目一/6-7_smart_home_hub/src/core/memory_pool.c:128-143 | one reference less, never below zero, and no other change |
| MemoryPool.Pool.Shutdown | 项目一/6-7_smart_home_hub/src/core/memory_pool.c:46-56 | marks the pool as shut down |
| FrameQueue.PushIsFifo | 项目一/6-7_smart_home_hub/src/video/video_pipeline.c:124-146 | a push appends to the FIFO, and drops its oldest entry exactly when eight are waiting |
| FrameQueue.PopIsFifo | 项目一/6-7_smart_home_hub/src/video/video_pipeline.c:148-179 | a pop takes the oldest entry and leaves its slot as it was |
| FrameQueue.ContentsInSlots | 项目一/6-7_smart_home_hub/src/video/video_pipeline.c:172-176 | every waiting block sits in some slot |
| FrameQueue.CircularQueue.Push | 项目一/6-7_smart_home_hub/src/video/video_pipeline.c:124-146 | the array operations on head, tail and count are that push |
| FrameQueue.CircularQueue.Pop | 项目一/6-7_smart_home_hub/src/video/video_pipeline.c:148-179 | the array operations on head and count are that pop |
| VideoPipeline.StepKeeps | 项目一/6-7_smart_home_hub/src/video/video_pipeline.c:326-426 | every guarded step of the two threads keeps ownership and order |
| VideoPipeline.PoolPartitioned | 项目一/6-7_smart_home_hub/src/video/video_pipeline.c:326-426 | with release as one step, and in every other guarded run, free, waiting, captured and shown blocks partition the pool, each block in use having one reference and one owner |
| VideoPipeline.ShownInOrder | 项目一/6-7_smart_home_hub/src/video/video_pipeline.c:403-424 | in every guarded run delivered sequence numbers strictly increase |
| VideoPipeline.FramesConserved | 项目一/6-7_smart_home_hub/src/video/video_pipeline.c:352-367 | in every run, guarded or not, captured = delivered + dropped for want of a block (camera only) + dropped from the queue + waiting + in hand, at every step of both capture loops |
| VideoPipeline.FramesNumbered | 项目一/6-7_smart_home_hub/src/video/video_pipeline.c:352-367 | frames that got a block are numbered 1, 2, 3, ... without gaps, in every run |
| VideoPipeline.NeverDrops | 项目一/6-7_smart_home_hub/src/video/video_pipeline.c:129-135 | in guarded runs with at most eight blocks the queue never drops a frame |
| VideoPipeline.ExactDepth | 项目一/6-7_smart_home_hub/src/video/video_pipeline.c:129-135 | no guarded run drops a frame from the queue if and only if the pool has at most eight blocks |
| VideoPipeline.ReleaseGap | 项目一/6-7_smart_home_hub/src/core/memory_pool.c:136-138 | an acquire between the two steps of a release breaks ownership if and only if it takes that very block |
| VideoPipeline.GapReached | 项目一/6-7_smart_home_hub/src/core/memory_pool.c:136-138 | for every pool with a block and both ways of capture there is a run in which a block ends without a reference while it is owned |
| VideoPipeline.GuardedExactly | 项目一/6-7_smart_home_hub/src/core/memory_pool.c:136-138 | a run is guarded if and only if, after every prefix, ownership holds and still holds once a half-done release is finished |
| VideoPipeline.OneStepGuarded | 项目一/6-7_smart_home_hub/src/core/memory_pool.c:136-138 | every run in which releases are one step is guarded |
| VideoPipeline.GuardNeeded | 项目一/6-7_smart_home_hub/src/core/memory_pool.c:136-138 | over all runs, guarded or not, ownership holds, numbers increase and the queue drops nothing if and only if the pool has no blocks |
| VideoPipeline.ShownTwice | 项目一/6-7_smart_home_hub/src/core/memory_pool.c:136-138 | an unguarded run can show one frame twice |
| VideoPipeline.DropsAnyway | 项目一/6-7_smart_home_hub/src/core/memory_pool.c:136-138 | an unguarded run can overflow the queue with a single block |
| VideoPipeline.DrainedCount | 项目一/6-7_smart_home_hub/src/video/video_pipeline.c:505-510 | a release for every slot frees exactly the blocks that sit in some slot, however often |
| VideoPipeline.StopFreesAll | 项目一/6-7_smart_home_hub/src/video/video_pipeline.c:480-521 | in every run, guarded or not, after both threads have ended and the drain is done no block of the pool has a reference: stale slots do no harm, and broken counts are repaired |
| VideoPipeline.StopHolds | 项目一/6-7_smart_home_hub/src/video/video_pipeline.c:480-503 | after a stop, in every run, the flag stays down and neither thread begins another round |
| VideoPipeline.StopReached | 项目一/6-7_smart_home_hub/src/video/video_pipeline.c:480-521 | every run can be continued by a stop until both threads have ended, and the drain then frees every block |
| VideoPipeline.ShutdownHolds | 项目一/6-7_smart_home_hub/src/core/memory_pool.c:46-56 | after a shutdown of the pool, in every run, no block is acquired |
| VideoPipeline.Drain | 项目一/6-7_smart_home_hub/src/video/video_pipeline.c:505-510 | the drain loop does that release for every slot and clears it |
| Yuyv.ColourError | 项目一/6-7_smart_home_hub/src/video/video_pipeline.c:78-87 | before clipping, the table sums differ from the exact thousandths formula by less than 1 (red, blue) and 2 (green) |
| Yuyv.TablesTruncated | 项目一/6-7_smart_home_hub/src/video/video_pipeline.c:78-87 | each table entry is the exact value in thousandths cut off toward zero |
| Yuyv.ColourNear | 项目一/6-7_smart_home_hub/src/video/video_pipeline.c:99-121 | the colour of a pixel differs from the exact colour cut to 0..255 by less than 1 (red, blue) and 2 (green) |
| Yuyv.InitTables | 项目一/6-7_smart_home_hub/src/video/video_pipeline.c:78-87 | one loop fills the four tables |
| Yuyv.Clip | 项目一/6-7_smart_home_hub/src/video/video_pipeline.c:67-76 | no byte is nearer to the value than the result |
| Yuyv.UnpackPack | 项目一/6-7_smart_home_hub/src/video/video_pipeline.c:106-111 | a reader of RGB565 gets the top five, six and five bits of the colour |
| Yuyv.PixelsShown | 项目一/6-7_smart_home_hub/src/video/video_pipeline.c:99-121 | every converted pixel is in its place, with its own luma and the chroma of its pair |
| Yuyv.FrameReadsBack | 项目一/6-7_smart_home_hub/src/video/video_pipeline.c:89-122 | the whole frame is written when it has an even number of pixels, all but the last pixel otherwise, and every pixel written reads back as the top bits of its colour |
| Yuyv.FrameNear | 项目一/6-7_smart_home_hub/src/video/video_pipeline.c:89-122 | every pixel of a converted frame is the exact colour of its luma and chroma, to within the bits that RGB565 leaves out and the rounding of the tables |
| Yuyv.Convert | 项目一/6-7_smart_home_hub/src/video/video_pipeline.c:89-122 | writes exactly the macropixels of the frame and leaves the rest of the output alone, or everything when input or output is too short |
| SumpProtocol.RoundTrip | 项目二/embedded_debug_toolkit/src/protocol/sump_server.c:208-269 | for any list of known short and arbitrary long commands the server finds exactly that list and goes on behind it; unknown long opcodes keep the framing |
| SumpProtocol.Framing | 项目二/embedded_debug_toolkit/src/protocol/sump_server.c:208-269 | for any bytes, the commands found are the ones whose serialisation the bytes begin with, and the server stops only at the end, at an unknown short byte or at a cut-off parameter |
| SumpProtocol.ImagesInjective | 项目二/embedded_debug_toolkit/src/protocol/sump_server.c:244-245 | no two command lists have the same serialisation |
| SumpProtocol.ParamRoundTrip | 项目二/embedded_debug_toolkit/src/protocol/sump_server.c:244-245 | four little-endian bytes give back the 32-bit parameter |
| SumpProtocol.Wire | 项目二/embedded_debug_toolkit/src/protocol/sump_server.c:13-21 | the bytes of every command on the wire, and of the reply to ID |
| SumpProtocol.MetadataFields | 项目二/embedded_debug_toolkit/src/protocol/sump_server.c:67-101 | a client finds name, sample memory, maximum rate and version in the metadata block, which fits into its 64 bytes |
| SumpServer.Socket.RecvExact | 项目二/embedded_debug_toolkit/src/protocol/sump_server.c:54-65 | however the bytes arrive, receives exactly the next `len` of them, or fails when the stream ends before |
| SumpServer.Socket.SendAll | 项目二/embedded_debug_toolkit/src/protocol/sump_server.c:41-52 | however the bytes leave, sends all of them in order, or fails with a proper prefix sent |
| SumpServer.Client.HandleOne | 项目二/embedded_debug_toolkit/src/protocol/sump_server.c:208-269 | one round reads the next command of the stream, whatever its pieces, changes the registers and the analyzer as the command says and answers it; or finds no command; or an ARM fails |
| SumpServer.Client.Serve | 项目二/embedded_debug_toolkit/src/protocol/sump_server.c:196-269 | handles exactly the commands of the stream, in order, under the registers and with the analyzer settings the commands before have produced, answers each as the protocol says, and stops early only at an ARM that fails or cannot divide |
| SumpServer.Client.StreamCapture | 项目二/embedded_debug_toolkit/src/protocol/sump_server.c:160-194 | configures the analyzer from the registers, asks for exactly the target number of samples and sends the channel byte of each one that comes |
| SumpServer.Client.ApplySession | 项目二/embedded_debug_toolkit/src/protocol/sump_server.c:119-158 | sets rate and trigger derived from the registers and arms exactly when there is a trigger mode; fails exactly when `divider + 1` wraps to 0 |
| SumpServer.Client.FindChannel | 项目二/embedded_debug_toolkit/src/protocol/sump_server.c:136-146 | the lowest channel set in the mask, or 0 |
| SumpServer.Client.SetRegister | 项目二/embedded_debug_toolkit/src/protocol/sump_server.c:246-264 | sets the register of the opcode, cut to its width, and nothing for other opcodes |
| SumpServer.CaptureSamples | 项目二/embedded_debug_toolkit/src/protocol/sump_server.c:325 | the configured number of samples, or 4096 |
| SumpSession.LastSettingWins | 项目二/embedded_debug_toolkit/src/protocol/sump_server.c:212-264 | a register depends only on the last command that resets the session or sets it |
| SumpSession.Untouched | 项目二/embedded_debug_toolkit/src/protocol/sump_server.c:212-264 | a register that nothing resets or sets keeps its value |
| SumpSession.ResetForgets | 项目二/embedded_debug_toolkit/src/protocol/sump_server.c:212-221 | nothing sent before a RESET shows in the registers after it |
| SumpSession.FreshSession | 项目二/embedded_debug_toolkit/src/protocol/sump_server.c:202-221 | a capture right after a RESET runs at the maximum rate without a trigger |
| SumpSession.RateBounds | 项目二/embedded_debug_toolkit/src/protocol/sump_server.c:126-133 | the rate is in 1..max and is max / (divider + 1) rounded down, or 1 |
| SumpSession.Channel | 项目二/embedded_debug_toolkit/src/protocol/sump_server.c:136-146 | the lowest channel set in a nonzero mask |
| SumpSession.TriggerMeaning | 项目二/embedded_debug_toolkit/src/protocol/sump_server.c:103-155 | what the trigger of a session matches, for every mode byte, mask and value: an edge or level of the lowest masked channel, agreement with the value there, or everything |
| SumpSession.Target | 项目二/embedded_debug_toolkit/src/protocol/sump_server.c:162-174 | every capture target is in 1..2^20 |
| SumpSession.TargetOfSetting | 项目二/embedded_debug_toolkit/src/protocol/sump_server.c:162-174 | a count from the client gives that count plus one up to the limit, except for 2^32 - 1, and for 0 unless the configured number is 1 |
| SumpSession.DefaultTarget | 项目二/embedded_debug_toolkit/src/protocol/sump_server.c:203-206 | without a count the target is the configured number up to the limit if and only if that number fits in 32 bits, or its low 32 bits are 1 or at least 2^20 |
| JsonScan.TokenUnique | 项目一/6-7_smart_home_hub/src/core/hub_config.c:24-25 | a quoted token in the text determines the key that matches there |
| JsonScan.Leftmost | 项目一/6-7_smart_home_hub/src/core/hub_config.c:24-25 | the search ends behind the leftmost occurrence of the pattern, or there is none |
| JsonScan.ValuePlace | 项目一/6-7_smart_home_hub/src/core/hub_config.c:18-37 | the value of a key stands behind the leftmost occurrence of the quoted key, the first colon behind that, and white space; there is none exactly when the key or the colon is missing |
| JsonScan.ValueBehindColon | 项目一/6-7_smart_home_hub/src/core/hub_config.c:29-36 | from a key followed by a colon and a blank the scanner arrives at the value |
| JsonScan.SkipWs | 项目一/6-7_smart_home_hub/src/core/hub_config.c:10-16 | drops leading white space |
| JsonScan.GetString | 项目一/6-7_smart_home_hub/src/core/hub_config.c:39-61 | fills the buffer in place with the quoted text and a NUL, or leaves what was copied when the text is too long or not closed |
| HubConfig.NumberReadBack | 项目一/6-7_smart_home_hub/src/core/hub_config.c:63-80 | a printed number behind a key is read into the field as it was, whatever the field held |
| HubConfig.LargeNumber | 项目一/6-7_smart_home_hub/src/core/hub_config.c:73-79 | a printed number of any size comes back if and only if an `int` holds it; beyond 64 bits it is read as -1 or 0 |
| JsonScan.StringReadBack | 项目一/6-7_smart_home_hub/src/core/hub_config.c:47-60 | a quoted string without quote and NUL that fits is read back whole |
| JsonScan.StringCut | 项目一/6-7_smart_home_hub/src/core/hub_config.c:47-57 | one that does not fit is read back cut to the buffer |
| JsonScan.DecimalReadBack | 项目一/6-7_smart_home_hub/src/core/hub_config.c:73-79 | a printed number is read back, or the nearest one that 64 bits hold |
| HubConfig.Config.SetDefaults | 项目一/6-7_smart_home_hub/src/core/hub_config.c:82-109 | every field holds its default |
| HubConfig.Config.Load | 项目一/6-7_smart_home_hub/src/core/hub_config.c:111-201 | every field is what its key gives, or its default; only an empty file is an error |
| HubConfig.AlwaysInRange | 项目一/6-7_smart_home_hub/src/core/hub_config.c:183-197 | after loading any file QoS values are in 0..2, pool values are positive and numbers fit in an `int`; a field whose key is missing keeps its default |
| HubConfig.Bounds | 项目一/6-7_smart_home_hub/src/core/hub_config.c:183-197 | QoS numbers outside 0..2 and pool numbers below 1 give the defaults 0, 1, 1, 4 and 1920 * 1080 * 2; others are kept |
| HubConfig.Unbounded | 项目一/6-7_smart_home_hub/src/core/hub_config.c:157-197 | no other number is changed |
| HubConfig.Located | 项目一/6-7_smart_home_hub/src/core/hub_config.c:18-37 | in a printed configuration the scanner finds for a key the value of its first line, unless a string before it equals the key; behind such a string it finds the value of the next line |
| HubConfig.OwnLine | 项目一/6-7_smart_home_hub/src/core/hub_config.c:18-37 | a key is found on its own first line if and only if no earlier string equals it, other than on the line just before |
| HubConfig.LoadedPrint | 项目一/6-7_smart_home_hub/src/core/hub_config.c:157-197 | loading a printed configuration gives every field the value found for it, cut to its buffer or clamped, or its default when that is missing or of the wrong kind |
| HubConfig.ConfigRoundTrip | 项目一/6-7_smart_home_hub/src/core/hub_config.c:157-197 | a whole configuration printed in any order and with any white space before the keys comes back if and only if each field receives its own value from the line found for it; when that is its own line, if and only if all strings fit and all numbers are in range |
| HubConfig.TopicLost | 项目一/6-7_smart_home_hub/src/core/hub_config.c:18-37 | a printed configuration that does not come back because a string equals a key |

## Left out

- RingSpsc.Step: atomics are sequentially consistent steps; the acquire and release orders of C11 are not modelled.
- SamplerGate.Step: the two fields of a trigger are written and read in one step; a torn trigger is not modelled.
- SampleStream.Step: one consumer only; a second one is ruled out by the design.
- LogicAnalyzer.Analyzer.SampleBatch: takes the raw values of a finished batch; an armed loop whose trigger never fires does not end, also after a stop, and nothing is claimed about it.
- LogicAnalyzer.Analyzer.Init: does not cover ring sizes above 2^63 bytes, for which the rounding loop never ends.
- SampleStream.StampsPaced: says nothing of the order of stamps across batches; each batch starts again from the clock.
- RingBuffer.Ring.Init: does not cover requests above 2^63 bytes, for the same reason.
- SampleCodec.DecodeEncode: the seven padding bytes of a sample are written as zero; the code leaves them undefined and never reads them.
- SumpServer.Socket.RecvExact: at the end of the stream the code returns `-errno`, which may be 0; here it fails, as if the peer closed only between commands or with an error set.
- SumpServer.Client.StreamCapture: which samples a capture returns is left to the environment; the analyzer's side of it is `SampleStream.SamplesIntact`.
- SumpServer.Client.ApplySession: the division by zero stops the process; here it is an outcome of its own.
- MemoryPool.Pool.Acquire: the waiting of this object is not interleaved with other threads; the interleaved form is `VideoPipeline.Step`. Reference counts are not bounded by `int`.
- MemoryPool.Pool.constructor: allocation of the block memory and its failures.
- VideoPipeline.FramesConserved: the camera's mmap buffers and ioctls are the two outcomes of a poll.
- VideoPipeline.Step: no block is retained by anyone but the two threads.
- HubConfig.Config.Load: the calls for the 23 fields are one loop over the list of fields; file errors other than a missing or an empty file are left out.
- HubConfig.LoadedPrint: nothing is claimed for strings that contain a quote or a NUL.
- Null pointers: the types exclude them, so the checks for them are not modelled.
- Text summaries of events, logging and statistics files, which are text formatting.
- The synthetic wave of the analyzer: raw values are arbitrary.
- Sleeping, timeouts and clocks: a timeout may happen at any step, and no liveness is claimed.
- Listener threads, sockets beyond one connection, camera set-up, audio, MQTT, LED and sensor drivers, plugins and the Qt workbench: foreign calls or user interface.
- The JSON-RPC dispatcher: the same scanner again, and a branch for each method.
