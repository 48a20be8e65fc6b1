/**
 * The two SCTP handlers as the benchmarks pair them: both ends configured
 * with the same protocol identifier and stream range, so that what one
 * side's outbound handler emits is what the other side's inbound handler
 * admits.
 */
module SctpPipeline {
  import opened JavaTypes
  import opened ByteBufs
  import opened SctpMessages
  import opened SctpOutbound
  import opened SctpInbound

  /**
   * With a range starting at stream 0, every message the outbound handler
   * emits is accepted by an inbound handler of the same configuration, and
   * is complete, so decoding it yields the payload.
   */
  lemma OutboundAcceptedInboundFromZero(inbound: SctpInboundStreamingHandler, k: nat, payload: Bytes)
    requires inbound.minStream == 0 && 0 <= inbound.maxStream
    ensures inbound.AcceptsSctpMessage(EncodedMessage(inbound.protocolIdentifier, 0, inbound.maxStream, k, payload))
    ensures EncodedMessage(inbound.protocolIdentifier, 0, inbound.maxStream, k, payload).isComplete
  {
    SelectionWhenMinZero(inbound.maxStream, k);
  }

  /**
   * With range 2..5 on both ends, the third message the outbound handler
   * emits is on stream 6 and the inbound handler refuses it.
   */
  lemma ThirdMessageRefusedWhenMinPositive(inbound: SctpInboundStreamingHandler, payload: Bytes)
    requires inbound.minStream == 2 && inbound.maxStream == 5
    ensures EncodedMessage(inbound.protocolIdentifier, 2, 5, 2, payload).streamIdentifier == 6
    ensures !inbound.AcceptsSctpMessage(EncodedMessage(inbound.protocolIdentifier, 2, 5, 2, payload))
  {
    SelectionEscapesRangeWhenMinPositive();
  }

  /**
   * With the intended selection every message lands inside the range, so
   * an inbound handler of the same configuration admits it for any range.
   */
  lemma IntendedSelectionAccepted(inbound: SctpInboundStreamingHandler, k: nat, payload: Bytes)
    requires inbound.Valid()
    ensures var stream := IntendedSelection(inbound.minStream, inbound.maxStream, k);
      inbound.AcceptsSctpMessage(SctpMessage(inbound.protocolIdentifier, stream as int32, payload, true))
  {
  }
}
