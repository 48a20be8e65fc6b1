# netty-perf in Dafny

A model of the core of netty-perf, a latency benchmark for Netty transports.
It covers three parts:

- **SCTP streaming handlers.** The outbound handler wraps each buffer in an
  SCTP message and picks its stream number round-robin from a configured
  range. The inbound handler decodes only messages of the configured
  protocol on that range, turning each complete one back into its payload;
  any other message is passed on to the next handler undecoded.
- **Latency meters.** In the Netty 4 harness (`NettyLatencyTest`), a
  client meter fires timestamp probes and a final `LAST_PING` (0xBABE)
  frame. A server meter records each probe's latency and answers with a
  fresh timestamp. Both record into one histogram and count a latch of 2
  down when they see `LAST_PING`. The older SCTP harness
  (`sctp/SctpLatencyTest`) has no sentinel and no latch: each handler puts
  the latency it measures into a synchronous queue, and the probe loop
  takes the server's and then the client's value and records both into the
  histogram. That loop stops at the first interrupted wait, and the first
  failure wins.
- **Driver.** `PerfMain` builds the bucket-bound table and runs a benchmark's
  setup, execute and tearDown phases inside try/finally.

Modelling choices:

- Java `int` and `long` are the subset types `int32` and `int64`.
- Overflow is written out: `Int32` for `maxStream + 1` and the `(int)` cast,
  `Int64` for `now - in`.
- Java's `%` truncates toward zero and is modelled by `JavaRem`.
- A buffer that received one `writeLong` is its eight big-endian bytes.
- Exceptions are values: a `Result`, or an `Option<Exception>` on methods
  that change state.
- Objects whose fields the source updates are classes: handlers, meters,
  channels, the histogram and the latch. Each method states its complete
  new state.
- Clock readings (`System.nanoTime`) are parameters.
- In the older harness, the outcome of each blocking `take` is a parameter:
  a sequence of `Take` values, one per queue.
- The phase outcomes of the benchmark that `PerfMain` runs are fields fixed
  when the benchmark is made.

Where the code departs from its own comments, or behaves at an edge in a
way a reader might not expect, the model follows the code:

- The javadoc of the outbound handler says the stream is "selected in a
  round robin fashion from given range". The code takes
  `minStream + counter % (maxStream + 1)`, with a counter that starts at
  `minStream`. It stays inside the range on every call only when
  `minStream` is 0, or when `maxStream` is 0: there the divider is 1 and
  every call selects `minStream`, so no other stream is ever used
  (see Findings).
- `maxStream == -1` makes the divider zero, so every selection throws
  `ArithmeticException`. `maxStream == Integer.MAX_VALUE` makes
  `maxStream + 1` wrap to `Integer.MIN_VALUE`.
- `PerfMain` allocates a 255-entry bound table, although the comment beside
  the allocation says "256 intervals".
- Both meters tell `LAST_PING` apart from a probe only by value equality.
  A probe whose timestamp happened to equal 0xBABE would be taken for the
  sentinel, so the whole-run lemmas assume no timestamp equals it.
- `sctp/SctpLatencyTest` declares `implements NettyLatencyTest`, but in this
  tree `NettyLatencyTest` is an abstract class. The older harness is
  modelled as written, as a separate class.

## Model

| member | source | states |
|---|---|---|
| JavaTypes.Int32 | src/main/java/io/netty/handler/codec/sctp/SctpOutboundStreamingHandler.java:56 | `int` arithmetic: the result is congruent to the exact value modulo 2^32, and equals it when it fits |
| JavaTypes.Int64 | src/main/java/io/netty/perf/NettyLatencyTest.java:128 | `long` arithmetic: the result is congruent to the exact value modulo 2^64, and equals it when it fits |
| JavaTypes.JavaRem | src/main/java/io/netty/handler/codec/sctp/SctpOutboundStreamingHandler.java:65 | Java `%`: it equals the Euclidean remainder for a non-negative dividend; it has the dividend's sign and a magnitude below the divisor's |
| ByteBufs.WriteLong | src/main/java/io/netty/perf/NettyLatencyTest.java:78-79 | a buffer after one `writeLong` holds exactly 8 readable bytes |
| ByteBufs.ReadLong | src/main/java/io/netty/perf/NettyLatencyTest.java:124-125 | `readLong` fails, with IndexOutOfBoundsException, exactly when fewer than 8 bytes are readable |
| ByteBufs.FromToBigEndian | src/main/java/io/netty/perf/NettyLatencyTest.java:124-125 | decoding the n-byte big-endian form of any u < 256^n gives u back |
| ByteBufs.ReadWriteLong | src/main/java/io/netty/perf/NettyLatencyTest.java:124-125 | round trip: `readLong` of a frame written with `writeLong(x)` is x, for every long |
| ByteBufs.WriteLongInjective | src/main/java/io/netty/perf/NettyLatencyTest.java:78-79 | distinct longs give distinct frames |
| SctpMessages.CheckStreamRange | src/main/java/io/netty/handler/codec/sctp/SctpOutboundStreamingHandler.java:47-50 | the constructors' guard: it throws IllegalArgumentException("minStream should be <= maxStream") if and only if minStream > maxStream |
| SctpOutbound.Divider | src/main/java/io/netty/handler/codec/sctp/SctpOutboundStreamingHandler.java:56 | `divider` is maxStream + 1; it wraps to INT_MIN at INT_MAX, and is zero exactly when maxStream is -1 |
| SctpOutbound.Select | src/main/java/io/netty/handler/codec/sctp/SctpOutboundStreamingHandler.java:64-66 | a selection throws ArithmeticException("/ by zero") exactly when maxStream is -1; with a non-negative counter it is never below minStream |
| SctpOutbound.NthSelection | src/main/java/io/netty/handler/codec/sctp/SctpOutboundStreamingHandler.java:64-66 | call k of a handler whose counter started at minStream throws exactly when maxStream is -1; with minStream non-negative it never selects below minStream |
| SctpOutbound.EncodedMessage | src/main/java/io/netty/handler/codec/sctp/SctpOutboundStreamingHandler.java:60-62 | the emitted message carries the configured protocol and the payload unchanged, and it is complete |
| SctpOutbound.SelectionWhenMinZero | src/main/java/io/netty/handler/codec/sctp/SctpOutboundStreamingHandler.java:64-66 | with minStream 0, call k selects k mod (maxStream + 1), which lies inside the range; this includes maxStream = INT_MAX, where divider wraps |
| SctpOutbound.SelectionEscapesRangeWhenMinPositive | src/main/java/io/netty/handler/codec/sctp/SctpOutboundStreamingHandler.java:65 | the formula as written leaves the range: with min 2 and max 5, the third call selects 6 |
| SctpOutbound.SelectionEscapesRangeWhenMinNegative | src/main/java/io/netty/handler/codec/sctp/SctpOutboundStreamingHandler.java:54-65 | a negative starting counter gives a negative remainder: with min -5 and max 3, the first call selects -6 |
| SctpOutbound.SelectionWhenMaxZero | src/main/java/io/netty/handler/codec/sctp/SctpOutboundStreamingHandler.java:54-65 | with maxStream 0 the divider is 1, so every call selects minStream: inside the range even below zero, but never any other stream |
| SctpOutbound.ResiduesDistinctInWindow | src/main/java/io/netty/handler/codec/sctp/SctpOutboundStreamingHandler.java:65 | no two of n consecutive counter values share a remainder mod n |
| SctpOutbound.ResidueInWindow | src/main/java/io/netty/handler/codec/sctp/SctpOutboundStreamingHandler.java:65 | n consecutive counter values contain every remainder mod n |
| SctpOutbound.WindowSelectsEachStreamOnce | src/main/java/io/netty/handler/codec/sctp/SctpOutboundStreamingHandler.java:64-66 | fairness (minStream 0): any maxStream + 1 consecutive calls select each stream of the range exactly once, both existence and uniqueness |
| SctpOutbound.EachStreamEquallyOften | src/main/java/io/netty/handler/codec/sctp/SctpOutboundStreamingHandler.java:64-66 | fairness (minStream 0): from a fresh handler, j full rounds select each stream exactly j times, counted as a multiset |
| SctpOutbound.RoundsFromZero | src/main/java/io/netty/handler/codec/sctp/SctpOutboundStreamingHandler.java:64-66 | with minStream 0, position i of round j is stream i |
| SctpOutbound.TwentySelectionsOverStreamsZeroToNine | src/main/java/io/netty/handler/codec/sctp/SctpOutboundStreamingHandler.java:64-66 | range 0..9: twenty calls give 0..9 twice, in order, starting at 0 |
| SctpOutbound.IntendedSelection | src/main/java/io/netty/handler/codec/sctp/SctpOutboundStreamingHandler.java:38-40 | the documented round robin over the given range; every result lies in [minStream, maxStream] |
| SctpOutbound.IntendedWindowSelectsEachStreamOnce | src/main/java/io/netty/handler/codec/sctp/SctpOutboundStreamingHandler.java:38-40 | the intended selection is fair for every range: each window of range-size calls selects each stream exactly once |
| SctpOutbound.IntendedAgreesWhenMinZero | src/main/java/io/netty/handler/codec/sctp/SctpOutboundStreamingHandler.java:64-66 | for minStream 0, the code as written and the intended selection agree on every call |
| SctpOutbound.SctpOutboundStreamingHandler.constructor | src/main/java/io/netty/handler/codec/sctp/SctpOutboundStreamingHandler.java:51-56 | the fields are assigned, the counter starts at minStream, divider is maxStream + 1 in `int` arithmetic, and no selection has been made |
| SctpOutbound.SctpOutboundStreamingHandler.Create | src/main/java/io/netty/handler/codec/sctp/SctpOutboundStreamingHandler.java:47-57 | `new` fails with IllegalArgumentException exactly when minStream > maxStream; otherwise it returns a fresh handler in its initial state |
| SctpOutbound.SctpOutboundStreamingHandler.SelectStreamByRoundRobin | src/main/java/io/netty/handler/codec/sctp/SctpOutboundStreamingHandler.java:64-66 | call k returns selection k; the counter advances by one even when `%` throws; the log of selections so far is kept |
| SctpOutbound.SctpOutboundStreamingHandler.Encode | src/main/java/io/netty/handler/codec/sctp/SctpOutboundStreamingHandler.java:60-62 | `out` gains exactly one message for call k (protocol, stream narrowed to `int`, payload, complete), or the selector's exception propagates |
| SctpOutbound.HandlerRoundRobinFromZero | src/main/java/io/netty/handler/codec/sctp/SctpOutboundStreamingHandler.java:54-66 | over a handler's whole life with minStream 0, call k selected k mod (maxStream + 1), always inside the range |
| SctpInbound.SctpInboundStreamingHandler.constructor | src/main/java/io/netty/handler/codec/sctp/SctpInboundStreamingHandler.java:43-45 | the three fields are assigned |
| SctpInbound.SctpInboundStreamingHandler.Create | src/main/java/io/netty/handler/codec/sctp/SctpInboundStreamingHandler.java:39-46 | `new` fails with IllegalArgumentException exactly when minStream > maxStream |
| SctpInbound.SctpInboundStreamingHandler.AcceptsSctpMessage | src/main/java/io/netty/handler/codec/sctp/SctpInboundStreamingHandler.java:56-59 | an accepted SCTP message's stream lies within minStream..maxStream, both ends included, so a handler whose range is empty accepts nothing |
| SctpInbound.SctpInboundStreamingHandler.AcceptInboundMessage | src/main/java/io/netty/handler/codec/sctp/SctpInboundStreamingHandler.java:48-54 | only an SCTP message is ever accepted, and only one carrying the handler's protocol on a stream inside the range |
| SctpInbound.SctpInboundStreamingHandler.Decode | src/main/java/io/netty/handler/codec/sctp/SctpInboundStreamingHandler.java:61-68 | decode throws CodecException with the completion-handler message exactly when the message is incomplete; otherwise `out` gains exactly its payload |
| SctpInbound.RefusesNonSctpObjects | src/main/java/io/netty/handler/codec/sctp/SctpInboundStreamingHandler.java:48-54 | an object that is not an SCTP message is refused; an SCTP message is judged by the SCTP predicate alone |
| SctpInbound.RejectsOutsideRangeAndForeignProtocol | src/main/java/io/netty/handler/codec/sctp/SctpInboundStreamingHandler.java:56-59 | both range bounds are inclusive; one stream below, one stream above, and any other protocol are refused |
| SctpInbound.AcceptanceIgnoresPayload | src/main/java/io/netty/handler/codec/sctp/SctpInboundStreamingHandler.java:56-59 | acceptance depends only on protocol and stream, never on payload or completeness |
| SctpPipeline.OutboundAcceptedInboundFromZero | src/main/java/io/netty/handler/codec/sctp/SctpOutboundStreamingHandler.java:60-62 | with range 0..max on both ends, every emitted message is accepted by the inbound handler and is complete, so it decodes to its payload |
| SctpPipeline.ThirdMessageRefusedWhenMinPositive | src/main/java/io/netty/handler/codec/sctp/SctpOutboundStreamingHandler.java:65 | with range 2..5 on both ends, the third emitted message is on stream 6, and the inbound handler refuses it |
| SctpPipeline.IntendedSelectionAccepted | src/main/java/io/netty/handler/codec/sctp/SctpInboundStreamingHandler.java:56-59 | with the intended selection, every message is accepted for any valid range |
| Transport.CountedDown | src/main/java/io/netty/perf/NettyLatencyTest.java:40 | a latch counted down `times` times from `count` is open exactly when times >= count; otherwise it shows count - times |
| Transport.CountDownLatch.CountDown | src/main/java/io/netty/perf/NettyLatencyTest.java:136 | countDown lowers the count by one and never below zero |
| Transport.Histogram.AddObservation | src/main/java/io/netty/perf/NettyLatencyTest.java:128 | the observation is appended after all earlier ones |
| Transport.Channel.Write | src/main/java/io/netty/perf/NettyLatencyTest.java:131 | a write queues its frame after every earlier frame |
| Transport.Channel.Close | src/main/java/io/netty/perf/NettyLatencyTest.java:148 | close is counted |
| NettyLatency.ServerReaction | src/main/java/io/netty/perf/NettyLatencyTest.java:122-138 | the server meter's reaction to a frame; it fails exactly when the frame is shorter than ECHO_FRAME_SIZE |
| NettyLatency.ClientReaction | src/main/java/io/netty/perf/NettyLatencyTest.java:168-178 | the client meter's reaction to a frame; it fails exactly when the frame is shorter than ECHO_FRAME_SIZE |
| NettyLatency.ServerRun | src/main/java/io/netty/perf/NettyLatencyTest.java:122-138 | over a sequence of reads, the server meter fails exactly when some frame is shorter than ECHO_FRAME_SIZE; otherwise it writes one frame per read, and each read either records a latency or counts the latch down |
| NettyLatency.ClientRun | src/main/java/io/netty/perf/NettyLatencyTest.java:168-178 | over a sequence of reads, the client meter fails exactly when some frame is shorter than ECHO_FRAME_SIZE; otherwise it writes nothing, and each read either records a latency or counts the latch down |
| NettyLatency.ExecuteFrames | src/main/java/io/netty/perf/NettyLatencyTest.java:77-86 | `execute` writes count + 1 frames |
| NettyLatency.ExecuteFramesDecode | src/main/java/io/netty/perf/NettyLatencyTest.java:77-86 | probe i decodes to its timestamp, and the last frame decodes to LAST_PING |
| NettyLatency.ServerSentinelByExactValue | src/main/java/io/netty/perf/NettyLatencyTest.java:127-137 | any value other than 0xBABE is recorded as `now - in` and answered with a fresh timestamp; 0xBABE is echoed without a record and counts the latch down once |
| NettyLatency.ClientSentinelByExactValue | src/main/java/io/netty/perf/NettyLatencyTest.java:173-177 | any value other than 0xBABE is recorded as `now - in`; 0xBABE only counts the latch down; the client never writes |
| NettyLatency.ServerAnswersExecute | src/main/java/io/netty/perf/NettyLatencyTest.java:122-138 | over one `execute` run, the server records one latency per probe and answers each with its fresh timestamp; it then echoes LAST_PING and counts down once |
| NettyLatency.ClientReadsAnswers | src/main/java/io/netty/perf/NettyLatencyTest.java:168-178 | over the server's answers, the client records one latency per answer, writes nothing, and counts down once |
| NettyLatency.ClientProbesLeaveLatch | src/main/java/io/netty/perf/NettyLatencyTest.java:173-177 | answers before LAST_PING never touch the latch |
| NettyLatency.CompleteRun | src/main/java/io/netty/perf/NettyLatencyTest.java:74-103 | a whole run adds 2 x count observations; the latch of 2 opens once the client reads the echoed LAST_PING, and not before (it stays at 1) |
| NettyLatency.LatencyServerMeter.constructor | src/main/java/io/netty/perf/NettyLatencyTest.java:113-114 | the meter shares the test's histogram and latch and has no channel yet |
| NettyLatency.LatencyServerMeter.ChannelActive | src/main/java/io/netty/perf/NettyLatencyTest.java:117-119 | the active channel is remembered |
| NettyLatency.LatencyServerMeter.ChannelRead | src/main/java/io/netty/perf/NettyLatencyTest.java:122-138 | ServerReaction applied to the histogram, channel and latch; a short frame throws IndexOutOfBoundsException and changes nothing |
| NettyLatency.LatencyServerMeter.ExceptionCaught | src/main/java/io/netty/perf/NettyLatencyTest.java:145-149 | the failing context's channel is closed, and nothing is written |
| NettyLatency.LatencyClientMeter.constructor | src/main/java/io/netty/perf/NettyLatencyTest.java:152-153 | the meter shares the test's histogram and latch and has no channel yet |
| NettyLatency.LatencyClientMeter.ChannelActive | src/main/java/io/netty/perf/NettyLatencyTest.java:155-158 | the active channel is remembered |
| NettyLatency.LatencyClientMeter.Write | src/main/java/io/netty/perf/NettyLatencyTest.java:160-162 | the buffer is queued on the channel |
| NettyLatency.LatencyClientMeter.WriteAndFlush | src/main/java/io/netty/perf/NettyLatencyTest.java:164-166 | the buffer is queued on the channel |
| NettyLatency.LatencyClientMeter.ChannelRead | src/main/java/io/netty/perf/NettyLatencyTest.java:168-178 | ClientReaction applied to the histogram and latch; nothing is written; a short frame throws and changes nothing |
| NettyLatency.LatencyClientMeter.ExceptionCaught | src/main/java/io/netty/perf/NettyLatencyTest.java:185-189 | the failing context's channel is closed |
| NettyLatency.NettyLatencyTest.constructor | src/main/java/io/netty/perf/NettyLatencyTest.java:32-44 | a fresh, empty histogram over the given bounds; a latch of 2; both meters share them |
| NettyLatency.NettyLatencyTest.Execute | src/main/java/io/netty/perf/NettyLatencyTest.java:74-103 | the client channel receives exactly the count probes, in order, then one LAST_PING; the histogram is returned only when the latch is open |
| SctpLatency.Iterations | src/main/java/io/netty/perf/sctp/SctpLatencyTest.java:76 | the loop asks for count iterations, or none when count is not positive |
| SctpLatency.RunObservations | src/main/java/io/netty/perf/sctp/SctpLatencyTest.java:76-87 | reference definition of the probe loop's histogram: per probe, the server value then the client value, ending at the first interrupted take; at most two values per probe |
| SctpLatency.RunIterations | src/main/java/io/netty/perf/sctp/SctpLatencyTest.java:76-87 | reference definition of how many probes are written: there are never more than count |
| SctpLatency.FirstInterrupted | src/main/java/io/netty/perf/sctp/SctpLatencyTest.java:80-86 | every take before it succeeds, and it is itself interrupted when it is a real probe |
| SctpLatency.RunShape | src/main/java/io/netty/perf/sctp/SctpLatencyTest.java:76-87 | the complete shape of a run: the probes written, the number of observations, and that value 2j comes from the server queue and value 2j+1 from the client queue |
| SctpLatency.UninterruptedRunObservesEveryProbe | src/main/java/io/netty/perf/sctp/SctpLatencyTest.java:76-87 | with no interruption, all count probes are written and 2 x count values are recorded |
| SctpLatency.InterruptedRunLosesAtLeastOneValue | src/main/java/io/netty/perf/sctp/SctpLatencyTest.java:83-86 | an interrupted run stops right after the probe it was interrupted at, with fewer than two values per probe written |
| SctpLatency.ThirdOfFiveProbesInterrupted | src/main/java/io/netty/perf/sctp/SctpLatencyTest.java:76-87 | five probes with the third wait interrupted: three probes written, 4 or 5 values kept, the first four from the two complete probes |
| SctpLatency.AfterFailure | src/main/java/io/netty/perf/sctp/SctpLatencyTest.java:127 | `compareAndSet(null, cause)` always leaves a failure, and never replaces one already there |
| SctpLatency.AfterFailures | src/main/java/io/netty/perf/sctp/SctpLatencyTest.java:124-130 | after a series of failures the slot is set exactly when it was set before or some failure arrived |
| SctpLatency.LaterFailuresIgnored | src/main/java/io/netty/perf/sctp/SctpLatencyTest.java:127-129 | once set, the slot keeps its failure, and later failures close nothing |
| SctpLatency.FirstFailureWins | src/main/java/io/netty/perf/sctp/SctpLatencyTest.java:127-129 | the first failure is kept, and the channel is closed exactly once however many failures follow |
| SctpLatency.LatencyMeterHandler.constructor | src/main/java/io/netty/perf/sctp/SctpLatencyTest.java:98-104 | no channel, no failure, nothing handed over yet |
| SctpLatency.LatencyMeterHandler.ChannelOpen | src/main/java/io/netty/perf/sctp/SctpLatencyTest.java:107-110 | the event's channel is remembered |
| SctpLatency.LatencyMeterHandler.MessageReceived | src/main/java/io/netty/perf/sctp/SctpLatencyTest.java:112-122 | `now - readLong()` is handed over; only a child channel answers, with a fresh timestamp; a short frame throws and changes nothing |
| SctpLatency.LatencyMeterHandler.ExceptionCaught | src/main/java/io/netty/perf/sctp/SctpLatencyTest.java:124-130 | the failure is kept only if none was kept before, and only then is the event's channel closed |
| SctpLatency.SctpLatencyTest.constructor | src/main/java/io/netty/perf/sctp/SctpLatencyTest.java:33-35 | the bounds are kept; no handlers before setup |
| SctpLatency.SctpLatencyTest.Execute | src/main/java/io/netty/perf/sctp/SctpLatencyTest.java:72-89 | the returned fresh histogram holds exactly RunObservations; the client channel received exactly the first RunIterations probes, in order |
| PerfMain.IntervalTable | src/main/java/io/netty/perf/PerfMain.java:22-29 | the loop's table of n entries in closed form: entry i is (i + 1) x 50000 |
| PerfMain.PerfIntervals | src/main/java/io/netty/perf/PerfMain.java:22-29 | main's table has 255 entries, from 50000 to 12750000 ns, strictly ascending in steps of 50000 |
| PerfMain.BuildIntervals | src/main/java/io/netty/perf/PerfMain.java:22-29 | the array filled by the running upper bound equals IntervalTable(255) |
| PerfMain.TryFinally | src/main/java/io/netty/perf/PerfMain.java:35-44 | an exception from the finally clause replaces the try block's; otherwise the try block's stands; none only when neither throws |
| PerfMain.PerfBench.constructor | src/main/java/io/netty/perf/PerfMain.java:31 | the benchmark holds the interval table, and no phase has run |
| PerfMain.PerfBench.Setup | src/main/java/io/netty/perf/PerfMain.java:36 | the setup call is logged and its outcome returned |
| PerfMain.PerfBench.Execute | src/main/java/io/netty/perf/PerfMain.java:39 | the execute call is logged with its count, and its outcome returned |
| PerfMain.PerfBench.TearDown | src/main/java/io/netty/perf/PerfMain.java:43 | the tearDown call is logged and its outcome returned |
| PerfMain.ExecutePerf | src/main/java/io/netty/perf/PerfMain.java:34-45 | setup runs, then execute only if setup did not throw, then tearDown in every case; the exception follows try/finally |
| PerfMain.Run | src/main/java/io/netty/perf/PerfMain.java:21-32 | main hands IntervalTable(255) to the benchmark and runs it for 100000 probes, under executePerf's phase and exception rules |

## Left out

- Histogram bucket search, bucket counts and the printed dump: the Histogram class is not part of this model. Its only modelled part is the sequence of values added to it.
- Setup and tearDown of the test classes, the transport-specific bootstrap variants, and the `tcp` stub: these are socket and event-loop wiring with no logic of their own.
- Concurrency. Meters run on event-loop threads and the probe loop blocks. Every handler call is modelled as one atomic step, and the counter's `getAndIncrement` is one sequential step.
- `System.nanoTime`: each reading is a parameter.
- Buffer allocation, `retain` and reference counting, `flush` and `channelReadComplete`: none of them changes a modelled value. `writeAndFlush` is modelled as a write.
- Printing: banners, stack traces, the "ERROR: Latency Test aborted" line and the write listener's messages.
- SctpOutbound.SctpOutboundStreamingHandler.SelectStreamByRoundRobin: the `long` counter is unbounded, so its wrap-around after 2^63 calls is not modelled.
- NettyLatency.NettyLatencyTest.Execute: `latch.await()` cannot block in the model, so Execute returns None while the latch is still closed, when the Java call would still be waiting. It requires the client meter's channel, which `setup` connects; `executePerf` always calls `setup` first.
- NettyLatency.LatencyServerMeter.ChannelRead: requires a channel. A read before `channelActive` would throw NullPointerException in Java and is not modelled.
- SctpLatency.LatencyMeterHandler.MessageReceived: requires a channel (a NullPointerException before `channelOpen` is not modelled). The blocking `put` and its InterruptedException are not modelled. The reused reply buffer is a fresh frame per write, so aliasing between writes is not captured.
- SctpLatency.SctpLatencyTest.Execute: the values the loop takes are parameters, not tied to what the handlers put. Tying them would need the thread interleaving. The one reused direct buffer is a fresh frame per write. It requires the client handler and its channel, which `setup` creates; `executePerf` always calls `setup` first.
- NettyLatency.LatencyClientMeter.Write: requires the channel that `channelActive` stores. A write before the connection is up would throw NullPointerException in Java and is not modelled.
- NettyLatency.LatencyClientMeter.WriteAndFlush: requires the channel, for the same reason as Write.
- SctpInbound.SctpInboundStreamingHandler.Decode: only the decoding of an accepted message is modelled. Passing a message that is not accepted on to the next handler, unchanged, is done by the Netty decoder superclass, which is not part of this model; AcceptInboundMessage states which messages take that path.
- NettyLatency.ServerRun: a run containing a short frame yields only the exception. The effects of the reads before it, which Java has already applied, are not kept; the per-call ChannelRead methods do keep them.
- NettyLatency.ClientRun: the same as ServerRun, on the client side.
- PerfMain.Run: the concrete benchmark (`NioTcpLatencyTest`) is not part of this model. PerfBench stands for it, with each phase's outcome fixed in advance.
- `Throwable` causes are values of a small Exception datatype. The exception-handler methods take any such value.

## Findings

| source | as written | input that shows it | evidently intended | confidence | as-written member | corrected member |
|---|---|---|---|---|---|---|
| src/main/java/io/netty/handler/codec/sctp/SctpOutboundStreamingHandler.java:65 | stream = `minStream + counter % (maxStream + 1)`, with the counter starting at `minStream` | minStream 2, maxStream 5: the third call selects stream 6. minStream -5, maxStream 3: the first call selects -6. Both fall outside the range, and an inbound handler of the same configuration refuses them | call k selects `minStream + k % (maxStream - minStream + 1)`, always inside the range and fair over every window | high (not executed) | SctpOutbound.SelectionEscapesRangeWhenMinPositive | SctpOutbound.IntendedWindowSelectsEachStreamOnce |

The corrected selection is `SctpOutbound.IntendedSelection`. It agrees with
the code as written whenever `minStream` is 0, which is every configuration
the benchmarks use (`SctpOutbound.IntendedAgreesWhenMinZero`).
`SctpPipeline.IntendedSelectionAccepted` shows that its messages are always
admitted on the inbound side. The handler class keeps the code's own
formula, so that it models what is written.
