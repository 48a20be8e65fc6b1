/**
 * NettyLatencyTest: the client meter fires `count` timestamp probes and a
 * final LAST_PING frame; the server meter records how long each probe took
 * to arrive and answers it with a fresh timestamp, echoing LAST_PING at the
 * end; the client meter records how long each answer took. Both meters add
 * to one histogram, and each counts a shared latch of 2 down when it sees
 * LAST_PING; `execute` returns the histogram once the latch is open.
 *
 * Clock readings (System.nanoTime) are parameters. Meter reactions are
 * specified by pure functions (ServerReaction, ClientReaction) so that whole
 * exchanges can be reasoned about (ServerRun, ClientRun).
 */
module NettyLatency {
  import opened JavaTypes
  import opened ByteBufs
  import opened Transport

  const ECHO_FRAME_SIZE: nat := 8

  /** The end-of-run sentinel, recognised by value equality only. */
  const LAST_PING: int64 := 0xBABE

  /** What handling frames adds: observations, frames written back, latch count-downs. */
  datatype Effects = Effects(observations: seq<int64>, writes: seq<Bytes>, countDowns: nat)

  function Then(first: Effects, rest: Effects): Effects
  {
    Effects(first.observations + rest.observations, first.writes + rest.writes, first.countDowns + rest.countDowns)
  }

  /**
   * LatencyServerMeter.channelRead on one frame, given the clock reading
   * taken for the observation and the one written into the answer.
   */
  function ServerReaction(frame: Bytes, now: int64, ackTime: int64): (r: Result<Effects>)
    ensures r.Failure? <==> |frame| < ECHO_FRAME_SIZE
  {
    match ReadLong(frame)
    case Failure(e) => Failure(e)
    case Success(v) =>
      if v != LAST_PING then Success(Effects([Int64(now - v)], [WriteLong(ackTime)], 0))
      else Success(Effects([], [WriteLong(LAST_PING)], 1))
  }

  /** LatencyClientMeter.channelRead on one frame, given the clock reading. */
  function ClientReaction(frame: Bytes, now: int64): (r: Result<Effects>)
    ensures r.Failure? <==> |frame| < ECHO_FRAME_SIZE
  {
    match ReadLong(frame)
    case Failure(e) => Failure(e)
    case Success(v) =>
      if v != LAST_PING then Success(Effects([Int64(now - v)], [], 0))
      else Success(Effects([], [], 1))
  }

  /**
   * The server meter handling `frames` in arrival order: it fails if any frame
   * is too short; otherwise it has the combined effects of every read.
   */
  function ServerRun(frames: seq<Bytes>, nows: seq<int64>, ackTimes: seq<int64>): (r: Result<Effects>)
    requires |nows| == |frames| && |ackTimes| == |frames|
    ensures r.Failure? <==> exists i :: 0 <= i < |frames| && |frames[i]| < ECHO_FRAME_SIZE
    ensures r.Success? ==> |r.value.writes| == |frames|
    ensures r.Success? ==> |r.value.observations| + r.value.countDowns == |frames|
  {
    if frames == [] then Success(Effects([], [], 0))
    else
      match ServerReaction(frames[0], nows[0], ackTimes[0])
      case Failure(e) => Failure(e)
      case Success(first) =>
        match ServerRun(frames[1..], nows[1..], ackTimes[1..])
        case Failure(e) => Failure(e)
        case Success(rest) => Success(Then(first, rest))
  }

  /**
   * The client meter handling `frames` in arrival order: it fails if any frame
   * is too short; otherwise it has the combined effects of every read.
   */
  function ClientRun(frames: seq<Bytes>, nows: seq<int64>): (r: Result<Effects>)
    requires |nows| == |frames|
    ensures r.Failure? <==> exists i :: 0 <= i < |frames| && |frames[i]| < ECHO_FRAME_SIZE
    ensures r.Success? ==> r.value.writes == []
    ensures r.Success? ==> |r.value.observations| + r.value.countDowns == |frames|
  {
    if frames == [] then Success(Effects([], [], 0))
    else
      match ClientReaction(frames[0], nows[0])
      case Failure(e) => Failure(e)
      case Success(first) =>
        match ClientRun(frames[1..], nows[1..])
        case Failure(e) => Failure(e)
        case Success(rest) => Success(Then(first, rest))
  }

  /** What `execute` writes: the probes, then one LAST_PING frame. */
  function ExecuteFrames(stamps: seq<int64>): (frames: seq<Bytes>)
    ensures |frames| == |stamps| + 1
  {
    ProbeFrames(stamps) + [WriteLong(LAST_PING)]
  }

  /** The latency of each answer: arrival clock minus the timestamp it carried, in `long` arithmetic. */
  function Latencies(nows: seq<int64>, stamps: seq<int64>): (ls: seq<int64>)
    requires |nows| >= |stamps|
    ensures |ls| == |stamps|
  {
    seq(|stamps|, i requires 0 <= i < |stamps| => Int64(nows[i] as int - stamps[i]))
  }

  /**
   * `execute(count)` sends exactly its probes, in order, and a single
   * LAST_PING after them; each probe frame carries its timestamp.
   */
  lemma ExecuteFramesDecode(stamps: seq<int64>)
    ensures forall i :: 0 <= i < |stamps| ==> ReadLong(ExecuteFrames(stamps)[i]) == Success(stamps[i])
    ensures ReadLong(ExecuteFrames(stamps)[|stamps|]) == Success(LAST_PING)
  {
    forall i | 0 <= i < |stamps|
      ensures ReadLong(ExecuteFrames(stamps)[i]) == Success(stamps[i])
    {
      ReadWriteLong(stamps[i]);
    }
    ReadWriteLong(LAST_PING);
  }

  /**
   * The sentinel is told apart by exact equality with 0xBABE: any other
   * value, smaller or larger, is a timestamp that the server records and
   * answers, while LAST_PING is echoed and counts the latch down.
   */
  lemma ServerSentinelByExactValue(v: int64, now: int64, ackTime: int64)
    ensures v != LAST_PING ==>
      ServerReaction(WriteLong(v), now, ackTime) == Success(Effects([Int64(now - v)], [WriteLong(ackTime)], 0))
    ensures v == LAST_PING ==>
      ServerReaction(WriteLong(v), now, ackTime) == Success(Effects([], [WriteLong(LAST_PING)], 1))
  {
    ReadWriteLong(v);
  }

  /** The client side of the same distinction: a timestamp is recorded, LAST_PING only counts down. */
  lemma ClientSentinelByExactValue(v: int64, now: int64)
    ensures v != LAST_PING ==> ClientReaction(WriteLong(v), now) == Success(Effects([Int64(now - v)], [], 0))
    ensures v == LAST_PING ==> ClientReaction(WriteLong(v), now) == Success(Effects([], [], 1))
  {
    ReadWriteLong(v);
  }

  lemma ProbeFramesCons(stamps: seq<int64>)
    requires stamps != []
    ensures ProbeFrames(stamps) == [WriteLong(stamps[0])] + ProbeFrames(stamps[1..])
    ensures ExecuteFrames(stamps) == [WriteLong(stamps[0])] + ExecuteFrames(stamps[1..])
  {
    assert ProbeFrames(stamps) == [WriteLong(stamps[0])] + ProbeFrames(stamps[1..]);
  }

  lemma LatenciesCons(nows: seq<int64>, stamps: seq<int64>)
    requires stamps != [] && |nows| >= |stamps|
    ensures Latencies(nows, stamps) == [Int64(nows[0] as int - stamps[0])] + Latencies(nows[1..], stamps[1..])
  {
  }

  lemma ServerRunCons(frames: seq<Bytes>, nows: seq<int64>, ackTimes: seq<int64>, first: Effects, rest: Effects)
    requires |nows| == |frames| && |ackTimes| == |frames| && frames != []
    requires ServerReaction(frames[0], nows[0], ackTimes[0]) == Success(first)
    requires ServerRun(frames[1..], nows[1..], ackTimes[1..]) == Success(rest)
    ensures ServerRun(frames, nows, ackTimes) == Success(Then(first, rest))
  {
  }

  lemma ClientRunCons(frames: seq<Bytes>, nows: seq<int64>, first: Effects, rest: Effects)
    requires |nows| == |frames| && frames != []
    requires ClientReaction(frames[0], nows[0]) == Success(first)
    requires ClientRun(frames[1..], nows[1..]) == Success(rest)
    ensures ClientRun(frames, nows) == Success(Then(first, rest))
  {
  }

  /**
   * The server meter answering the probes of one `execute` run (no probe
   * stamped 0xBABE): one observation and one fresh timestamp per probe, then
   * LAST_PING echoed and the latch counted down once.
   */
  lemma {:induction false} ServerAnswersExecute(stamps: seq<int64>, nows: seq<int64>, ackTimes: seq<int64>)
    requires |nows| == |stamps| + 1 && |ackTimes| == |stamps| + 1
    requires forall i :: 0 <= i < |stamps| ==> stamps[i] != LAST_PING
    ensures ServerRun(ExecuteFrames(stamps), nows, ackTimes)
         == Success(Effects(Latencies(nows, stamps), ExecuteFrames(ackTimes[..|stamps|]), 1))
  {
    var frames := ExecuteFrames(stamps);
    var acks := ackTimes[..|stamps|];
    if stamps == [] {
      ServerSentinelByExactValue(LAST_PING, nows[0], ackTimes[0]);
      assert frames == [WriteLong(LAST_PING)] && frames[1..] == [];
      ServerRunCons(frames, nows, ackTimes, Effects([], [WriteLong(LAST_PING)], 1), Effects([], [], 0));
      assert ExecuteFrames(acks) == [WriteLong(LAST_PING)];
      assert Latencies(nows, stamps) == [];
      assert Then(Effects([], [WriteLong(LAST_PING)], 1), Effects([], [], 0))
          == Effects(Latencies(nows, stamps), ExecuteFrames(acks), 1);
    } else {
      ServerSentinelByExactValue(stamps[0], nows[0], ackTimes[0]);
      ProbeFramesCons(stamps);
      ServerAnswersExecute(stamps[1..], nows[1..], ackTimes[1..]);
      assert ackTimes[1..][..|stamps| - 1] == acks[1..];
      ProbeFramesCons(acks);
      LatenciesCons(nows, stamps);
      var first := Effects([Int64(nows[0] as int - stamps[0])], [WriteLong(ackTimes[0])], 0);
      var rest := Effects(Latencies(nows[1..], stamps[1..]), ExecuteFrames(acks[1..]), 1);
      ServerRunCons(frames, nows, ackTimes, first, rest);
      assert Then(first, rest) == Effects(Latencies(nows, stamps), ExecuteFrames(acks), 1);
    }
  }

  /**
   * The client meter reading the server's answers: one observation per
   * timestamped answer, nothing written, one count-down for LAST_PING.
   */
  lemma {:induction false} ClientReadsAnswers(acks: seq<int64>, nows: seq<int64>)
    requires |nows| == |acks| + 1
    requires forall i :: 0 <= i < |acks| ==> acks[i] != LAST_PING
    ensures ClientRun(ExecuteFrames(acks), nows) == Success(Effects(Latencies(nows, acks), [], 1))
  {
    var frames := ExecuteFrames(acks);
    if acks == [] {
      ClientSentinelByExactValue(LAST_PING, nows[0]);
      assert frames == [WriteLong(LAST_PING)] && frames[1..] == [];
      ClientRunCons(frames, nows, Effects([], [], 1), Effects([], [], 0));
      assert Latencies(nows, acks) == [];
      assert Then(Effects([], [], 1), Effects([], [], 0)) == Effects(Latencies(nows, acks), [], 1);
    } else {
      ClientSentinelByExactValue(acks[0], nows[0]);
      ProbeFramesCons(acks);
      ClientReadsAnswers(acks[1..], nows[1..]);
      LatenciesCons(nows, acks);
      var first := Effects([Int64(nows[0] as int - acks[0])], [], 0);
      var rest := Effects(Latencies(nows[1..], acks[1..]), [], 1);
      ClientRunCons(frames, nows, first, rest);
      assert Then(first, rest) == Effects(Latencies(nows, acks), [], 1);
    }
  }

  /** Before LAST_PING arrives the client meter has not touched the latch. */
  lemma {:induction false} ClientProbesLeaveLatch(acks: seq<int64>, nows: seq<int64>)
    requires |nows| == |acks|
    requires forall i :: 0 <= i < |acks| ==> acks[i] != LAST_PING
    ensures ClientRun(ProbeFrames(acks), nows) == Success(Effects(Latencies(nows, acks), [], 0))
  {
    if acks == [] {
      assert Latencies(nows, acks) == [];
    } else {
      var frames := ProbeFrames(acks);
      ClientSentinelByExactValue(acks[0], nows[0]);
      ProbeFramesCons(acks);
      ClientProbesLeaveLatch(acks[1..], nows[1..]);
      LatenciesCons(nows, acks);
      var first := Effects([Int64(nows[0] as int - acks[0])], [], 0);
      var rest := Effects(Latencies(nows[1..], acks[1..]), [], 0);
      ClientRunCons(frames, nows, first, rest);
      assert Then(first, rest) == Effects(Latencies(nows, acks), [], 0);
    }
  }

  /**
   * A whole run with no timestamp equal to 0xBABE: the histogram gains
   * `count` server and `count` client observations, and the latch of 2
   * opens exactly when the client has read the echoed LAST_PING, not
   * before (every earlier answer leaves it at 1).
   */
  lemma CompleteRun(stamps: seq<int64>, serverNows: seq<int64>, ackTimes: seq<int64>, clientNows: seq<int64>)
    requires |serverNows| == |stamps| + 1 && |ackTimes| == |stamps| + 1 && |clientNows| == |stamps| + 1
    requires forall i :: 0 <= i < |stamps| ==> stamps[i] != LAST_PING && ackTimes[i] != LAST_PING
    ensures ServerRun(ExecuteFrames(stamps), serverNows, ackTimes).Success?
    ensures var server := ServerRun(ExecuteFrames(stamps), serverNows, ackTimes).value;
      && |server.writes| == |stamps| + 1
      && ClientRun(server.writes, clientNows).Success?
      && var client := ClientRun(server.writes, clientNows).value;
      && |server.observations + client.observations| == 2 * |stamps|
      && CountedDown(2, server.countDowns + client.countDowns) == 0
      && ClientRun(server.writes[..|stamps|], clientNows[..|stamps|]).Success?
      && CountedDown(2, server.countDowns + ClientRun(server.writes[..|stamps|], clientNows[..|stamps|]).value.countDowns) == 1
  {
    var acks := ackTimes[..|stamps|];
    ServerAnswersExecute(stamps, serverNows, ackTimes);
    ClientReadsAnswers(acks, clientNows);
    assert ExecuteFrames(acks)[..|stamps|] == ProbeFrames(acks);
    ClientProbesLeaveLatch(acks, clientNows[..|stamps|]);
  }

  class LatencyServerMeter {
    const histogram: Histogram
    const latch: CountDownLatch
    var channel: Channel?

    constructor (histogram: Histogram, latch: CountDownLatch)
      ensures this.histogram == histogram && this.latch == latch && channel == null
    {
      this.histogram := histogram;
      this.latch := latch;
      channel := null;
    }

    method ChannelActive(ctxChannel: Channel)
      modifies this`channel
      ensures channel == ctxChannel
    {
      channel := ctxChannel;
    }

    /**
     * channelRead: applies ServerReaction to the histogram, the channel and
     * the latch; a frame too short for readLong throws and changes nothing.
     */
    method ChannelRead(msg: Bytes, now: int64, ackTime: int64) returns (thrown: Option<Exception>)
      requires channel != null
      modifies histogram, channel, latch
      ensures thrown.Some? <==> ServerReaction(msg, now, ackTime).Failure?
      ensures thrown.Some? ==> thrown.value == IndexOutOfBoundsException
      ensures thrown.Some? ==>
        histogram.observations == old(histogram.observations) && channel.outbox == old(channel.outbox)
        && latch.count == old(latch.count)
      ensures thrown.None? ==>
        var e := ServerReaction(msg, now, ackTime).value;
        && histogram.observations == old(histogram.observations) + e.observations
        && channel.outbox == old(channel.outbox) + e.writes
        && latch.count == CountedDown(old(latch.count), e.countDowns)
      ensures channel.closeCalls == old(channel.closeCalls)
    {
      var read := ReadLong(msg);
      if read.Failure? {
        return Some(read.error);
      }
      var v := read.value;
      if v != LAST_PING {
        histogram.AddObservation(Int64(now - v));
        var ack := WriteLong(ackTime);
        channel.Write(ack);
      } else {
        var ping := WriteLong(LAST_PING);
        channel.Write(ping);
        latch.CountDown();
      }
      thrown := None;
    }

    /** exceptionCaught: the channel the failure came from is closed. */
    method ExceptionCaught(ctxChannel: Channel, cause: Exception)
      modifies ctxChannel
      ensures ctxChannel.closeCalls == old(ctxChannel.closeCalls) + 1
      ensures ctxChannel.outbox == old(ctxChannel.outbox)
    {
      ctxChannel.Close();
    }
  }

  class LatencyClientMeter {
    const histogram: Histogram
    const latch: CountDownLatch
    var channel: Channel?

    constructor (histogram: Histogram, latch: CountDownLatch)
      ensures this.histogram == histogram && this.latch == latch && channel == null
    {
      this.histogram := histogram;
      this.latch := latch;
      channel := null;
    }

    method ChannelActive(ctxChannel: Channel)
      modifies this`channel
      ensures channel == ctxChannel
    {
      channel := ctxChannel;
    }

    method Write(buf: Bytes)
      requires channel != null
      modifies channel
      ensures channel.outbox == old(channel.outbox) + [buf]
      ensures channel.closeCalls == old(channel.closeCalls)
    {
      channel.Write(buf);
    }

    /** writeAndFlush; flushing is not modelled, so it writes like Write. */
    method WriteAndFlush(buf: Bytes)
      requires channel != null
      modifies channel
      ensures channel.outbox == old(channel.outbox) + [buf]
      ensures channel.closeCalls == old(channel.closeCalls)
    {
      channel.Write(buf);
    }

    /**
     * channelRead: applies ClientReaction to the histogram and the latch;
     * nothing is ever written back.
     */
    method ChannelRead(msg: Bytes, now: int64) returns (thrown: Option<Exception>)
      modifies histogram, latch
      ensures thrown.Some? <==> ClientReaction(msg, now).Failure?
      ensures thrown.Some? ==> thrown.value == IndexOutOfBoundsException
      ensures thrown.Some? ==>
        histogram.observations == old(histogram.observations) && latch.count == old(latch.count)
      ensures thrown.None? ==>
        var e := ClientReaction(msg, now).value;
        && e.writes == []
        && histogram.observations == old(histogram.observations) + e.observations
        && latch.count == CountedDown(old(latch.count), e.countDowns)
    {
      var read := ReadLong(msg);
      if read.Failure? {
        return Some(read.error);
      }
      var v := read.value;
      if v != LAST_PING {
        histogram.AddObservation(Int64(now - v));
      } else {
        latch.CountDown();
      }
      thrown := None;
    }

    /** exceptionCaught: the channel the failure came from is closed. */
    method ExceptionCaught(ctxChannel: Channel, cause: Exception)
      modifies ctxChannel
      ensures ctxChannel.closeCalls == old(ctxChannel.closeCalls) + 1
      ensures ctxChannel.outbox == old(ctxChannel.outbox)
    {
      ctxChannel.Close();
    }
  }

  class NettyLatencyTest {
    const currentHistogram: Histogram
    const latch: CountDownLatch
    const clientMeter: LatencyClientMeter
    const serverMeter: LatencyServerMeter

    /** Both meters share this test's histogram and latch. */
    ghost predicate Valid()
    {
      && clientMeter.histogram == currentHistogram && serverMeter.histogram == currentHistogram
      && clientMeter.latch == latch && serverMeter.latch == latch
    }

    constructor (latencyIntervals: seq<int64>)
      ensures Valid()
      ensures fresh(currentHistogram) && fresh(latch) && fresh(clientMeter) && fresh(serverMeter)
      ensures currentHistogram.bounds == latencyIntervals && currentHistogram.observations == []
      ensures latch.count == 2
      ensures clientMeter.channel == null && serverMeter.channel == null
    {
      var h := new Histogram(latencyIntervals);
      var l := new CountDownLatch(2);
      currentHistogram := h;
      latch := l;
      clientMeter := new LatencyClientMeter(h, l);
      serverMeter := new LatencyServerMeter(h, l);
    }

    /**
     * execute(count): writes the `count` probes, stamped with the given
     * clock readings, and then LAST_PING, on the client channel. The
     * histogram comes back only if the latch is already open; otherwise the
     * call is still blocked in `latch.await()` (None).
     */
    method Execute(count: int32, stamps: seq<int64>) returns (result: Option<seq<int64>>)
      requires Valid() && clientMeter.channel != null
      requires |stamps| == if count < 0 then 0 else count
      modifies clientMeter.channel
      ensures clientMeter.channel.outbox == old(clientMeter.channel.outbox) + ExecuteFrames(stamps)
      ensures clientMeter.channel.closeCalls == old(clientMeter.channel.closeCalls)
      ensures result == if latch.count == 0 then Some(currentHistogram.observations) else None
    {
      var i := 0;
      while i < count
        invariant 0 <= i <= |stamps|
        invariant clientMeter.channel.outbox == old(clientMeter.channel.outbox) + ProbeFrames(stamps[..i])
        invariant clientMeter.channel.closeCalls == old(clientMeter.channel.closeCalls)
      {
        var buffer := WriteLong(stamps[i]);
        clientMeter.Write(buffer);
        assert ProbeFrames(stamps[..i + 1]) == ProbeFrames(stamps[..i]) + [buffer];
        i := i + 1;
      }
      assert stamps[..i] == stamps;
      var last := WriteLong(LAST_PING);
      clientMeter.WriteAndFlush(last);
      result := if latch.count == 0 then Some(currentHistogram.observations) else None;
    }
  }
}
