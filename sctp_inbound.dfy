/**
 * SctpInboundStreamingHandler: decodes only SCTP messages of one
 * application protocol arriving on a range of streams, turning each
 * accepted, fully reassembled message into its payload; any other message
 * is passed on to the next handler undecoded.
 */
module SctpInbound {
  import opened JavaTypes
  import opened ByteBufs
  import opened SctpMessages

  /** What the pipeline hands to `acceptInboundMessage(Object)`. */
  datatype InboundObject = SctpObject(message: SctpMessage) | NonSctpObject

  const INCOMPLETE_ERROR: string :=
    "Received un-complete SctpMessage, please add SctpMessageCompletionHandler in the pipeline before this handler"

  class SctpInboundStreamingHandler {
    const protocolIdentifier: int32
    const minStream: int32
    const maxStream: int32

    ghost predicate Valid() {
      minStream <= maxStream
    }

    /** The constructor past its range check (see Create). */
    constructor (protocolIdentifier: int32, minStream: int32, maxStream: int32)
      requires minStream <= maxStream
      ensures Valid()
      ensures this.protocolIdentifier == protocolIdentifier
      ensures this.minStream == minStream && this.maxStream == maxStream
    {
      this.protocolIdentifier := protocolIdentifier;
      this.minStream := minStream;
      this.maxStream := maxStream;
    }

    /**
     * `new SctpInboundStreamingHandler(...)`: an IllegalArgumentException
     * and no handler when minStream > maxStream.
     */
    static method Create(protocolIdentifier: int32, minStream: int32, maxStream: int32)
      returns (r: Result<SctpInboundStreamingHandler>)
      ensures r.Failure? <==> CheckStreamRange(minStream, maxStream).Some?
      ensures r.Failure? ==> r.error == IllegalArgumentException(RANGE_ERROR)
      ensures r.Success? ==> fresh(r.value) && r.value.Valid()
      ensures r.Success? ==> r.value.protocolIdentifier == protocolIdentifier
      ensures r.Success? ==> r.value.minStream == minStream && r.value.maxStream == maxStream
    {
      var thrown := CheckStreamRange(minStream, maxStream);
      if thrown.Some? {
        return Failure(thrown.value);
      }
      var h := new SctpInboundStreamingHandler(protocolIdentifier, minStream, maxStream);
      r := Success(h);
    }

    /** `acceptInboundMessage(SctpMessage)`: the protocol matches and the stream is in range. */
    predicate AcceptsSctpMessage(msg: SctpMessage)
      ensures AcceptsSctpMessage(msg) ==> minStream <= maxStream
      ensures AcceptsSctpMessage(msg) ==> 0 <= msg.streamIdentifier - minStream <= maxStream - minStream
    {
      && msg.protocolIdentifier == protocolIdentifier
      && msg.streamIdentifier >= minStream
      && msg.streamIdentifier <= maxStream
    }

    /**
     * `acceptInboundMessage(Object)`: the type check of the decoder
     * superclass, then the SCTP predicate; anything else is refused.
     */
    predicate AcceptInboundMessage(msg: InboundObject)
      ensures AcceptInboundMessage(msg) ==>
        msg.SctpObject? && msg.message.protocolIdentifier == protocolIdentifier
      ensures AcceptInboundMessage(msg) ==>
        minStream <= msg.message.streamIdentifier <= maxStream
    {
      match msg
      case SctpObject(m) => AcceptsSctpMessage(m)
      case NonSctpObject => false
    }

    /**
     * decode: a CodecException, with `out` untouched, for a message that is
     * not complete; otherwise `out` gains exactly the message's payload.
     */
    method Decode(msg: SctpMessage, out: seq<Bytes>) returns (r: Result<seq<Bytes>>)
      ensures r.Failure? <==> !msg.isComplete
      ensures r.Failure? ==> r.error == CodecException(INCOMPLETE_ERROR)
      ensures r.Success? ==> r.value == out + [msg.content]
    {
      if !msg.isComplete {
        return Failure(CodecException(INCOMPLETE_ERROR));
      }
      r := Success(out + [msg.content]);
    }
  }

  /** Boundary cases: one below the range, one above it, and a foreign protocol inside it are refused. */
  lemma RejectsOutsideRangeAndForeignProtocol(h: SctpInboundStreamingHandler, content: Bytes, complete: bool)
    requires h.Valid()
    ensures INT_MIN < h.minStream ==>
      !h.AcceptsSctpMessage(SctpMessage(h.protocolIdentifier, h.minStream - 1, content, complete))
    ensures h.maxStream < INT_MAX ==>
      !h.AcceptsSctpMessage(SctpMessage(h.protocolIdentifier, h.maxStream + 1, content, complete))
    ensures forall pid: int32 :: pid != h.protocolIdentifier ==>
      !h.AcceptsSctpMessage(SctpMessage(pid, h.minStream, content, complete))
    ensures h.AcceptsSctpMessage(SctpMessage(h.protocolIdentifier, h.minStream, content, complete))
    ensures h.AcceptsSctpMessage(SctpMessage(h.protocolIdentifier, h.maxStream, content, complete))
  {
  }

  /** Only SCTP messages pass the type check; each is then judged by its addressing alone. */
  lemma RefusesNonSctpObjects(h: SctpInboundStreamingHandler, m: SctpMessage)
    ensures !h.AcceptInboundMessage(NonSctpObject)
    ensures h.AcceptInboundMessage(SctpObject(m)) <==> h.AcceptsSctpMessage(m)
  {
  }

  /** Acceptance depends only on the addressing, never on the payload or completeness. */
  lemma AcceptanceIgnoresPayload(h: SctpInboundStreamingHandler, m1: SctpMessage, m2: SctpMessage)
    requires m1.protocolIdentifier == m2.protocolIdentifier
    requires m1.streamIdentifier == m2.streamIdentifier
    ensures h.AcceptsSctpMessage(m1) == h.AcceptsSctpMessage(m2)
  {
  }
}
