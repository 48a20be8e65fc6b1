/**
 * The older SCTP latency test (Netty 3 API). A client handler writes a
 * timestamp frame; the server handler hands `now - stamp` to its
 * synchronous queue and, being a child channel, answers with a fresh
 * timestamp; the client handler hands its own `now - stamp` to its queue.
 * The test loop takes one value from each queue per probe and stops at the
 * first interrupted take.
 *
 * Blocking queues are modelled by what flows through them: a handler's
 * `observedLatency` is the sequence of values it has put, and the values
 * the loop takes are given as two sequences of `Take` outcomes, one per
 * queue, in the order the loop asks for them.
 */
module SctpLatency {
  import opened JavaTypes
  import opened ByteBufs
  import opened Transport

  /** The outcome of one blocking `take()` on a synchronous queue. */
  datatype Take = Taken(latency: int64) | Interrupted

  /** The number of loop iterations `for (int i = 0; i < count; i++)` asks for. */
  function Iterations(count: int32): (n: nat)
    ensures count <= 0 ==> n == 0
    ensures 0 <= count ==> n == count as int
  {
    if count < 0 then 0 else count as nat
  }

  /**
   * Reference definition of the loop's observations from probe i on: per
   * probe, the server value then the client value; the first interrupted
   * take ends the run.
   */
  function RunObservations(serverTakes: seq<Take>, clientTakes: seq<Take>, i: nat): (obs: seq<int64>)
    requires |serverTakes| == |clientTakes| && i <= |serverTakes|
    ensures |obs| <= 2 * (|serverTakes| - i)
    decreases |serverTakes| - i
  {
    if i == |serverTakes| then []
    else if serverTakes[i].Interrupted? then []
    else if clientTakes[i].Interrupted? then [serverTakes[i].latency]
    else [serverTakes[i].latency, clientTakes[i].latency] + RunObservations(serverTakes, clientTakes, i + 1)
  }

  /** Reference definition of how many probes the loop writes from probe i on: it writes before it takes. */
  function RunIterations(serverTakes: seq<Take>, clientTakes: seq<Take>, i: nat): (n: nat)
    requires |serverTakes| == |clientTakes| && i <= |serverTakes|
    ensures n <= |serverTakes| - i
    decreases |serverTakes| - i
  {
    if i == |serverTakes| then 0
    else if serverTakes[i].Interrupted? || clientTakes[i].Interrupted? then 1
    else 1 + RunIterations(serverTakes, clientTakes, i + 1)
  }

  /** The first probe from i on at which either take is interrupted, or the number of probes. */
  function FirstInterrupted(serverTakes: seq<Take>, clientTakes: seq<Take>, i: nat): (k: nat)
    requires |serverTakes| == |clientTakes| && i <= |serverTakes|
    ensures i <= k <= |serverTakes|
    ensures forall j :: i <= j < k ==> serverTakes[j].Taken? && clientTakes[j].Taken?
    ensures k < |serverTakes| ==> serverTakes[k].Interrupted? || clientTakes[k].Interrupted?
    decreases |serverTakes| - i
  {
    if i == |serverTakes| then i
    else if serverTakes[i].Interrupted? || clientTakes[i].Interrupted? then i
    else FirstInterrupted(serverTakes, clientTakes, i + 1)
  }

  /** The loop's bookkeeping when probe i yields both of its values. */
  lemma LoopStep(serverTakes: seq<Take>, clientTakes: seq<Take>, i: nat, recorded: seq<int64>)
    requires |serverTakes| == |clientTakes| && i < |serverTakes|
    requires serverTakes[i].Taken? && clientTakes[i].Taken?
    ensures recorded + RunObservations(serverTakes, clientTakes, i) ==
      (recorded + [serverTakes[i].latency]) + [clientTakes[i].latency] + RunObservations(serverTakes, clientTakes, i + 1)
  {
    var rest := RunObservations(serverTakes, clientTakes, i + 1);
    assert RunObservations(serverTakes, clientTakes, i) == [serverTakes[i].latency, clientTakes[i].latency] + rest;
  }

  /**
   * The whole shape of a run from probe i: probes i .. k-1 complete, with
   * the server value of probe j at 2(j-i) and the client value right after
   * it; if probe k is interrupted it was still written, and it contributes
   * its server value exactly when only the client take was interrupted.
   */
  lemma {:induction false} RunShape(serverTakes: seq<Take>, clientTakes: seq<Take>, i: nat)
    requires |serverTakes| == |clientTakes| && i <= |serverTakes|
    ensures var k := FirstInterrupted(serverTakes, clientTakes, i);
      var obs := RunObservations(serverTakes, clientTakes, i);
      && RunIterations(serverTakes, clientTakes, i) == (if k == |serverTakes| then k - i else k + 1 - i)
      && |obs| == 2 * (k - i) + (if k < |serverTakes| && serverTakes[k].Taken? then 1 else 0)
      && (forall j :: i <= j < k ==>
            obs[2 * (j - i)] == serverTakes[j].latency && obs[2 * (j - i) + 1] == clientTakes[j].latency)
      && (k < |serverTakes| && serverTakes[k].Taken? ==> obs[2 * (k - i)] == serverTakes[k].latency)
    decreases |serverTakes| - i
  {
    if i < |serverTakes| && serverTakes[i].Taken? && clientTakes[i].Taken? {
      RunShape(serverTakes, clientTakes, i + 1);
      var k := FirstInterrupted(serverTakes, clientTakes, i + 1);
      assert FirstInterrupted(serverTakes, clientTakes, i) == k;
      var rest := RunObservations(serverTakes, clientTakes, i + 1);
      var obs := RunObservations(serverTakes, clientTakes, i);
      assert obs == [serverTakes[i].latency, clientTakes[i].latency] + rest;
      forall j | i < j < k
        ensures obs[2 * (j - i)] == serverTakes[j].latency && obs[2 * (j - i) + 1] == clientTakes[j].latency
      {
        assert obs[2 * (j - i)] == rest[2 * (j - (i + 1))];
        assert obs[2 * (j - i) + 1] == rest[2 * (j - (i + 1)) + 1];
      }
      if k < |serverTakes| && serverTakes[k].Taken? {
        assert obs[2 * (k - i)] == rest[2 * (k - (i + 1))];
      }
    }
  }

  /** With no take interrupted, every probe is written and yields both of its values. */
  lemma UninterruptedRunObservesEveryProbe(serverTakes: seq<Take>, clientTakes: seq<Take>)
    requires |serverTakes| == |clientTakes|
    requires forall j :: 0 <= j < |serverTakes| ==> serverTakes[j].Taken? && clientTakes[j].Taken?
    ensures RunIterations(serverTakes, clientTakes, 0) == |serverTakes|
    ensures |RunObservations(serverTakes, clientTakes, 0)| == 2 * |serverTakes|
  {
    RunShape(serverTakes, clientTakes, 0);
  }

  /** An interrupted run stops right after the probe it was interrupted at, short of two values per probe. */
  lemma InterruptedRunLosesAtLeastOneValue(serverTakes: seq<Take>, clientTakes: seq<Take>)
    requires |serverTakes| == |clientTakes|
    requires FirstInterrupted(serverTakes, clientTakes, 0) < |serverTakes|
    ensures |RunObservations(serverTakes, clientTakes, 0)| < 2 * RunIterations(serverTakes, clientTakes, 0)
    ensures RunIterations(serverTakes, clientTakes, 0) == FirstInterrupted(serverTakes, clientTakes, 0) + 1
  {
    RunShape(serverTakes, clientTakes, 0);
  }

  /**
   * Five probes whose third wait is interrupted: three probes are written
   * and the histogram keeps between four and five of the ten values.
   */
  lemma ThirdOfFiveProbesInterrupted(serverTakes: seq<Take>, clientTakes: seq<Take>)
    requires |serverTakes| == 5 && |clientTakes| == 5
    requires FirstInterrupted(serverTakes, clientTakes, 0) == 2
    ensures RunIterations(serverTakes, clientTakes, 0) == 3
    ensures 4 <= |RunObservations(serverTakes, clientTakes, 0)| <= 5
    ensures RunObservations(serverTakes, clientTakes, 0)[..4] ==
      [serverTakes[0].latency, clientTakes[0].latency, serverTakes[1].latency, clientTakes[1].latency]
  {
    RunShape(serverTakes, clientTakes, 0);
  }

  /** The value `compareAndSet(null, cause)` leaves in the first-failure slot. */
  function AfterFailure(slot: Option<Exception>, cause: Exception): (s: Option<Exception>)
    ensures s.Some?
    ensures slot.Some? ==> s == slot
  {
    if slot.None? then Some(cause) else slot
  }

  /** The slot after a series of exceptionCaught events, and how many of them closed the channel. */
  function AfterFailures(slot: Option<Exception>, causes: seq<Exception>): (r: (Option<Exception>, nat))
    ensures r.0.Some? <==> slot.Some? || causes != []
    decreases |causes|
  {
    if causes == [] then (slot, 0)
    else
      var next := AfterFailures(AfterFailure(slot, causes[0]), causes[1..]);
      (next.0, next.1 + (if slot.None? then 1 else 0))
  }

  /** Once the slot holds a failure, later failures neither replace it nor close the channel again. */
  lemma {:induction false} LaterFailuresIgnored(first: Exception, causes: seq<Exception>)
    ensures AfterFailures(Some(first), causes) == (Some(first), 0)
  {
    if causes != [] {
      LaterFailuresIgnored(first, causes[1..]);
    }
  }

  /** The first failure wins, and the channel is closed once however many follow. */
  lemma FirstFailureWins(causes: seq<Exception>)
    requires causes != []
    ensures AfterFailures(None, causes) == (Some(causes[0]), 1)
  {
    LaterFailuresIgnored(causes[0], causes[1..]);
  }

  /** A meter at either end of the SCTP association. */
  class LatencyMeterHandler {
    var channel: Channel?
    var exception: Option<Exception>
    /** The values this handler has handed to its synchronous queue, oldest first. */
    var observedLatency: seq<int64>

    constructor ()
      ensures channel == null && exception == None && observedLatency == []
    {
      channel := null;
      exception := None;
      observedLatency := [];
    }

    /** `channelOpen`: remember the channel of the event. */
    method ChannelOpen(eventChannel: Channel)
      modifies this`channel
      ensures channel == eventChannel
    {
      channel := eventChannel;
    }

    /**
     * `messageReceived`: hand `now - readLong()` to the queue, then, on a
     * child channel, write a frame holding `echoTime`. A frame too short for
     * `readLong` throws before anything is handed over or written.
     */
    method MessageReceived(m: Bytes, now: int64, echoTime: int64) returns (thrown: Option<Exception>)
      requires channel != null
      modifies this`observedLatency, channel
      ensures ReadLong(m).Failure? ==>
        && thrown == Some(IndexOutOfBoundsException)
        && observedLatency == old(observedLatency)
        && channel.outbox == old(channel.outbox)
      ensures ReadLong(m).Success? ==>
        && thrown == None
        && observedLatency == old(observedLatency) + [Int64(now as int - ReadLong(m).value)]
        && channel.outbox == old(channel.outbox) + (if channel.hasParent then [WriteLong(echoTime)] else [])
      ensures channel.closeCalls == old(channel.closeCalls)
      ensures exception == old(exception)
    {
      var stamp := ReadLong(m);
      if stamp.Failure? {
        return Some(stamp.error);
      }
      observedLatency := observedLatency + [Int64(now as int - stamp.value)];
      if channel.hasParent {
        var buffer := WriteLong(echoTime);
        channel.Write(buffer);
      }
      thrown := None;
    }

    /** `exceptionCaught`: only the first failure is kept, and only it closes the event's channel. */
    method ExceptionCaught(cause: Exception, eventChannel: Channel)
      modifies this`exception, eventChannel`closeCalls
      ensures exception == AfterFailure(old(exception), cause)
      ensures eventChannel.closeCalls == old(eventChannel.closeCalls) + (if old(exception).None? then 1 else 0)
    {
      if exception.None? {
        exception := Some(cause);
        eventChannel.Close();
      }
    }
  }

  class SctpLatencyTest {
    const latencyIntervals: seq<int64>
    var ch: LatencyMeterHandler?
    var sh: LatencyMeterHandler?

    constructor (latencyIntervals: seq<int64>)
      ensures this.latencyIntervals == latencyIntervals && ch == null && sh == null
    {
      this.latencyIntervals := latencyIntervals;
      ch := null;
      sh := null;
    }

    /**
     * `execute(count)`: probe i is written with timestamp stamps[i]; then
     * the server queue and the client queue are taken, in that order. The
     * histogram holds exactly the run's observations and the client channel
     * got exactly the probes written before the run stopped.
     */
    method Execute(count: int32, stamps: seq<int64>, serverTakes: seq<Take>, clientTakes: seq<Take>)
      returns (currentHistogram: Histogram)
      requires ch != null && ch.channel != null
      requires |stamps| == Iterations(count)
      requires |serverTakes| == |stamps| && |clientTakes| == |stamps|
      modifies ch.channel`outbox
      ensures fresh(currentHistogram) && currentHistogram.bounds == latencyIntervals
      ensures currentHistogram.observations == RunObservations(serverTakes, clientTakes, 0)
      ensures ch.channel.outbox ==
        old(ch.channel.outbox) + ProbeFrames(stamps[..RunIterations(serverTakes, clientTakes, 0)])
    {
      currentHistogram := new Histogram(latencyIntervals);
      var channel := ch.channel;
      var i := 0;
      while i < count
        invariant 0 <= i <= |stamps|
        invariant RunObservations(serverTakes, clientTakes, 0) ==
          currentHistogram.observations + RunObservations(serverTakes, clientTakes, i)
        invariant RunIterations(serverTakes, clientTakes, 0) == i + RunIterations(serverTakes, clientTakes, i)
        invariant channel.outbox == old(channel.outbox) + ProbeFrames(stamps[..i])
      {
        ProbeFramesSnoc(stamps, i);
        var buffer := WriteLong(stamps[i]);
        channel.Write(buffer);
        var fromServer := serverTakes[i];
        if fromServer.Interrupted? {
          break;
        }
        ghost var recorded := currentHistogram.observations;
        currentHistogram.AddObservation(fromServer.latency);
        var fromClient := clientTakes[i];
        if fromClient.Interrupted? {
          break;
        }
        LoopStep(serverTakes, clientTakes, i, recorded);
        currentHistogram.AddObservation(fromClient.latency);
        i := i + 1;
      }
    }
  }
}
