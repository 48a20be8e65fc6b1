/**
 * What both SCTP streaming handlers share: the addressed message that
 * crosses an SCTP association, and the range validation their constructors
 * perform before anything is built.
 */
module SctpMessages {
  import opened JavaTypes
  import opened ByteBufs

  /**
   * An SCTP message: the application protocol identifier and stream number
   * it travels on, its payload, and whether the transport delivered all of
   * it (a message built locally from a payload is complete).
   */
  datatype SctpMessage = SctpMessage(
    protocolIdentifier: int32,
    streamIdentifier: int32,
    content: Bytes,
    isComplete: bool)

  const RANGE_ERROR: string := "minStream should be <= maxStream"

  /**
   * The constructors' guard: an IllegalArgumentException when the stream
   * range is empty, nothing otherwise.
   */
  function CheckStreamRange(minStream: int32, maxStream: int32): (thrown: Option<Exception>)
    ensures thrown.Some? <==> maxStream < minStream
    ensures thrown.Some? ==> thrown.value == IllegalArgumentException(RANGE_ERROR)
  {
    if minStream > maxStream then Some(IllegalArgumentException(RANGE_ERROR)) else None
  }
}
