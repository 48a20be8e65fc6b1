/**
 * The collaborators the latency meters touch, reduced to what the meters
 * observe of them: a channel is the list of frames written to it and the
 * number of times it was closed; the histogram is the sequence of values
 * added to it; the latch is a counter that stops at zero.
 */
module Transport {
  import opened JavaTypes
  import opened ByteBufs

  /** One end of a connection. A server-side child channel has a parent. */
  class Channel {
    const hasParent: bool
    var outbox: seq<Bytes>
    var closeCalls: nat

    constructor (hasParent: bool)
      ensures this.hasParent == hasParent && outbox == [] && closeCalls == 0
    {
      this.hasParent := hasParent;
      outbox := [];
      closeCalls := 0;
    }

    /** `write`: the frame is queued after every frame written before it. */
    method Write(frame: Bytes)
      modifies this`outbox
      ensures outbox == old(outbox) + [frame]
    {
      outbox := outbox + [frame];
    }

    method Close()
      modifies this`closeCalls
      ensures closeCalls == old(closeCalls) + 1
    {
      closeCalls := closeCalls + 1;
    }
  }

  /** The latency histogram, as the append-only sequence of its observations. */
  class Histogram {
    const bounds: seq<int64>
    var observations: seq<int64>

    constructor (bounds: seq<int64>)
      ensures this.bounds == bounds && observations == []
    {
      this.bounds := bounds;
      observations := [];
    }

    method AddObservation(value: int64)
      modifies this`observations
      ensures observations == old(observations) + [value]
    {
      observations := observations + [value];
    }
  }

  /** The count a latch shows after `times` calls of countDown from `count`. */
  function CountedDown(count: nat, times: nat): (c: nat)
    ensures c == 0 <==> count <= times
    ensures 0 < c ==> c == count - times
  {
    if times == 0 || count == 0 then count else CountedDown(count - 1, times - 1)
  }

  class CountDownLatch {
    var count: nat

    constructor (count: nat)
      ensures this.count == count
    {
      this.count := count;
    }

    /** `countDown`: one less, never below zero. */
    method CountDown()
      modifies this
      ensures count == CountedDown(old(count), 1)
    {
      if count > 0 {
        count := count - 1;
      }
    }
  }
}
