/**
 * The 8-byte frames the latency meters exchange: a buffer that received one
 * `writeLong`, read back with `readLong`. Netty buffers are big-endian by
 * default, so a long is stored as its two's-complement value in eight bytes,
 * most significant first. Only the readable bytes of a buffer are modelled.
 */
module ByteBufs {
  import opened JavaTypes

  type byte = b: int | 0 <= b < 256

  /** The readable bytes of a buffer. */
  type Bytes = seq<byte>

  /** Size of a `long` in bytes. */
  const LONG_BYTES: nat := 8

  const TWO_TO_63: nat := 0x8000_0000_0000_0000
  const TWO_TO_64: nat := 0x1_0000_0000_0000_0000

  function Pow256(n: nat): (p: nat)
    ensures 0 < p
  {
    if n == 0 then 1 else 256 * Pow256(n - 1)
  }

  /** The n-byte big-endian representation of u modulo 256^n. */
  function ToBigEndian(u: nat, n: nat): (bs: Bytes)
    ensures |bs| == n
  {
    if n == 0 then [] else ToBigEndian(u / 256, n - 1) + [u % 256]
  }

  /** The unsigned number whose big-endian representation is bs. */
  function FromBigEndian(bs: Bytes): (u: nat)
    ensures u < Pow256(|bs|)
  {
    if bs == [] then 0
    else
      var high := FromBigEndian(bs[..|bs| - 1]);
      assert high * 256 <= (Pow256(|bs| - 1) - 1) * 256;
      high * 256 + bs[|bs| - 1]
  }

  /** The readable bytes of a fresh buffer after `writeLong(x)`. */
  function WriteLong(x: int64): (bs: Bytes)
    ensures |bs| == LONG_BYTES
  {
    ToBigEndian(if x < 0 then x + TWO_TO_64 else x, LONG_BYTES)
  }

  /** One `writeLong` frame per value, in order. */
  function ProbeFrames(stamps: seq<int64>): (frames: seq<Bytes>)
    ensures |frames| == |stamps|
  {
    seq(|stamps|, i requires 0 <= i < |stamps| => WriteLong(stamps[i]))
  }

  /** Writing one more value appends its frame. */
  lemma ProbeFramesSnoc(stamps: seq<int64>, i: nat)
    requires i < |stamps|
    ensures ProbeFrames(stamps[..i + 1]) == ProbeFrames(stamps[..i]) + [WriteLong(stamps[i])]
  {
    assert ProbeFrames(stamps[..i + 1]) == ProbeFrames(stamps[..i]) + [WriteLong(stamps[i])];
  }

  /**
   * `readLong()` at reader index 0: the first eight bytes as a signed long,
   * or IndexOutOfBoundsException when fewer than eight are readable.
   */
  function ReadLong(bs: Bytes): (r: Result<int64>)
    ensures r.Failure? <==> |bs| < LONG_BYTES
    ensures r.Failure? ==> r.error == IndexOutOfBoundsException
  {
    if |bs| < LONG_BYTES then Failure(IndexOutOfBoundsException)
    else
      var u := FromBigEndian(bs[..LONG_BYTES]);
      assert Pow256(LONG_BYTES) == TWO_TO_64;
      Success(if u < TWO_TO_63 then u else u - TWO_TO_64)
  }

  lemma {:induction false} FromToBigEndian(u: nat, n: nat)
    requires u < Pow256(n)
    ensures FromBigEndian(ToBigEndian(u, n)) == u
  {
    if n > 0 {
      var high := u / 256;
      var bs := ToBigEndian(u, n);
      assert bs == ToBigEndian(high, n - 1) + [u % 256];
      assert bs[..n - 1] == ToBigEndian(high, n - 1);
      assert high < Pow256(n - 1);
      FromToBigEndian(high, n - 1);
      assert FromBigEndian(bs) == FromBigEndian(bs[..n - 1]) * 256 + bs[n - 1];
      assert high * 256 + u % 256 == u;
    }
  }

  /** A frame written with `writeLong(x)` reads back as x. */
  lemma ReadWriteLong(x: int64)
    ensures ReadLong(WriteLong(x)) == Success(x)
  {
    assert Pow256(LONG_BYTES) == TWO_TO_64;
    var u := if x < 0 then x + TWO_TO_64 else x;
    FromToBigEndian(u, LONG_BYTES);
    assert WriteLong(x)[..LONG_BYTES] == WriteLong(x);
  }

  /** `writeLong` loses nothing: distinct longs give distinct frames. */
  lemma WriteLongInjective(x: int64, y: int64)
    requires WriteLong(x) == WriteLong(y)
    ensures x == y
  {
    ReadWriteLong(x);
    ReadWriteLong(y);
  }
}
