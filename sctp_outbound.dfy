/**
 * SctpOutboundStreamingHandler: wraps every outgoing buffer in an SCTP
 * message whose stream number is chosen round-robin by an atomic counter.
 *
 * The selection is `minStream + (counter++ % (maxStream + 1))` with the
 * counter starting at minStream, exactly as written. It stays inside
 * [minStream, maxStream] and visits the streams fairly when minStream is 0,
 * the only configuration the benchmarks use; for minStream > 0 it leaves the
 * range (SelectionEscapesRangeWhenMinPositive), and IntendedSelection is a
 * formula that gives the javadoc's round robin over the given range.
 */
module SctpOutbound {
  import opened JavaTypes
  import opened ByteBufs
  import opened SctpMessages

  const DIVIDE_BY_ZERO: string := "/ by zero"

  /** The `divider` field: `maxStream + 1` in `int` arithmetic. */
  function Divider(maxStream: int32): (d: int32)
    ensures maxStream < INT_MAX ==> d == maxStream + 1
    ensures maxStream == INT_MAX ==> d == INT_MIN
    ensures d == 0 <==> maxStream == -1
  {
    Int32(maxStream + 1)
  }

  /**
   * What selectStreamByRoundRobin returns when the counter holds `counter`:
   * `minStream + counter % divider` in `long` arithmetic, or the
   * ArithmeticException of a zero divider.
   */
  function Select(minStream: int32, maxStream: int32, counter: int): (r: Result<int>)
    ensures r.Failure? <==> maxStream == -1
    ensures r.Failure? ==> r.error == ArithmeticException(DIVIDE_BY_ZERO)
    ensures r.Success? && 0 <= counter ==> minStream <= r.value
  {
    var d := Divider(maxStream);
    if d == 0 then Failure(ArithmeticException(DIVIDE_BY_ZERO))
    else Success(minStream + JavaRem(counter, d))
  }

  /** The selection made by call k (0-based) of a handler whose counter started at minStream. */
  function NthSelection(minStream: int32, maxStream: int32, k: nat): (r: Result<int>)
    ensures r.Failure? <==> maxStream == -1
    ensures r.Success? && 0 <= minStream ==> minStream <= r.value
  {
    Select(minStream, maxStream, minStream + k)
  }

  /** The selections made by the first n calls, in order. */
  function Selections(minStream: int32, maxStream: int32, n: nat): (s: seq<int>)
    requires maxStream != -1
    ensures |s| == n
  {
    seq(n, k requires 0 <= k => NthSelection(minStream, maxStream, k).value)
  }

  /** One more call appends its selection. */
  lemma SelectionsSnoc(minStream: int32, maxStream: int32, n: nat)
    requires maxStream != -1
    ensures Selections(minStream, maxStream, n + 1) ==
      Selections(minStream, maxStream, n) + [NthSelection(minStream, maxStream, n).value]
  {
    assert Selections(minStream, maxStream, n + 1) ==
      Selections(minStream, maxStream, n) + [NthSelection(minStream, maxStream, n).value];
  }

  /**
   * The message encode emits on call k: the configured protocol, the
   * selection narrowed to `int`, the payload itself, complete.
   */
  function EncodedMessage(protocolIdentifier: int32, minStream: int32, maxStream: int32, k: nat, payload: Bytes): (m: SctpMessage)
    requires maxStream != -1
    ensures m.protocolIdentifier == protocolIdentifier && m.content == payload && m.isComplete
  {
    SctpMessage(protocolIdentifier, Int32(NthSelection(minStream, maxStream, k).value), payload, true)
  }

  /** With minStream == 0, call k selects stream k mod (maxStream + 1), which lies in the range. */
  lemma SelectionWhenMinZero(maxStream: int32, k: nat)
    requires 0 <= maxStream
    ensures NthSelection(0, maxStream, k) == Success(k % (maxStream + 1))
    ensures 0 <= NthSelection(0, maxStream, k).value <= maxStream
  {
    if maxStream == INT_MAX {
      assert Abs(Divider(maxStream)) == maxStream + 1;
    }
  }

  /** The formula as written escapes the range once minStream > 0: min 2, max 5, third call gives 6. */
  lemma SelectionEscapesRangeWhenMinPositive()
    ensures NthSelection(2, 5, 2) == Success(6)
    ensures NthSelection(2, 5, 2).value > 5
  {
  }

  /**
   * Below zero the counter's truncating remainder is negative too: with
   * min -5 and max 3 the first call selects -6.
   */
  lemma SelectionEscapesRangeWhenMinNegative()
    ensures NthSelection(-5, 3, 0) == Success(-6)
    ensures NthSelection(-5, 3, 0).value < -5
  {
  }

  /**
   * With maxStream 0 the divider is 1, so every call selects minStream: it
   * stays inside a range below zero, and no other stream is ever used.
   */
  lemma SelectionWhenMaxZero(minStream: int32, k: nat)
    requires minStream <= 0
    ensures NthSelection(minStream, 0, k) == Success(minStream as int)
    ensures minStream <= NthSelection(minStream, 0, k).value <= 0
  {
  }

  lemma MulAtLeast(x: int, n: int)
    requires 0 < x && 0 < n
    ensures n <= x * n
  {
  }

  /** (q * n + i) mod n == i for a remainder candidate i. */
  lemma ModOfMultiplePlus(q: int, n: int, i: int)
    requires 0 <= i < n
    ensures (q * n + i) % n == i
  {
    var a := q * n + i;
    var p, m := a / n, a % n;
    assert a == p * n + m;
    assert (q - p) * n == m - i;
    if q - p > 0 {
      MulAtLeast(q - p, n);
    } else if p - q > 0 {
      MulAtLeast(p - q, n);
    }
  }

  /** Within n consecutive integers no two share a residue mod n. */
  lemma ResiduesDistinctInWindow(n: nat, k1: nat, k2: nat)
    requires 0 < n
    requires k1 <= k2 < k1 + n
    requires k1 % n == k2 % n
    ensures k1 == k2
  {
    var q, r := k1 / n, k1 % n;
    var d := k2 - k1;
    assert k1 == q * n + r;
    assert k2 == q * n + (r + d);
    if r + d < n {
      ModOfMultiplePlus(q, n, r + d);
    } else {
      assert (q + 1) * n == q * n + n;
      assert k2 == (q + 1) * n + (r + d - n);
      ModOfMultiplePlus(q + 1, n, r + d - n);
    }
  }

  /** A window of n consecutive integers contains one with each residue mod n. */
  lemma ResidueInWindow(n: nat, start: nat, s: int) returns (k: nat)
    requires 0 <= s < n
    ensures start <= k < start + n && k % n == s
  {
    var q, r := start / n, start % n;
    assert start == q * n + r;
    if r <= s {
      k := q * n + s;
      assert k == start + (s - r);
      ModOfMultiplePlus(q, n, s);
    } else {
      k := (q + 1) * n + s;
      assert (q + 1) * n == q * n + n;
      assert k == start + (n + s - r);
      ModOfMultiplePlus(q + 1, n, s);
    }
  }

  /**
   * Fairness for minStream == 0: any maxStream + 1 consecutive calls select
   * every stream of the range exactly once.
   */
  lemma WindowSelectsEachStreamOnce(maxStream: int32, start: nat, s: int)
    requires 0 <= maxStream && 0 <= s <= maxStream
    ensures exists k: nat :: start <= k <= start + maxStream && NthSelection(0, maxStream, k) == Success(s)
    ensures forall k1: nat, k2: nat ::
      start <= k1 <= start + maxStream && start <= k2 <= start + maxStream &&
      NthSelection(0, maxStream, k1) == Success(s) && NthSelection(0, maxStream, k2) == Success(s)
      ==> k1 == k2
  {
    var n := maxStream + 1;
    var k := ResidueInWindow(n, start, s);
    SelectionWhenMinZero(maxStream, k);
    forall k1: nat, k2: nat |
      start <= k1 <= start + maxStream && start <= k2 <= start + maxStream &&
      NthSelection(0, maxStream, k1) == Success(s) && NthSelection(0, maxStream, k2) == Success(s)
      ensures k1 == k2
    {
      SelectionWhenMinZero(maxStream, k1);
      SelectionWhenMinZero(maxStream, k2);
      if k1 <= k2 { ResiduesDistinctInWindow(n, k1, k2); } else { ResiduesDistinctInWindow(n, k2, k1); }
    }
  }

  /** The streams 0 .. n-1 in order. */
  function Iota(n: nat): (s: seq<int>)
    ensures |s| == n
  {
    seq(n, i requires 0 <= i => i)
  }

  lemma {:induction false} IotaHoldsEachOnce(n: nat, s: int)
    requires 0 <= s < n
    ensures multiset(Iota(n))[s] == 1
  {
    assert Iota(n) == Iota(n - 1) + [n - 1];
    if s < n - 1 {
      IotaHoldsEachOnce(n - 1, s);
    } else {
      assert s !in Iota(n - 1);
    }
  }

  /** With minStream == 0, the first j*(maxStream+1) calls are j full rounds 0, 1, .., maxStream. */
  lemma RoundsFromZero(maxStream: int32, j: nat, i: nat)
    requires 0 <= maxStream && i < maxStream + 1
    ensures Selections(0, maxStream, (j + 1) * (maxStream + 1))[j * (maxStream + 1) + i] == i
  {
    var n := maxStream + 1;
    assert j * n + i < (j + 1) * n;
    SelectionWhenMinZero(maxStream, j * n + i);
    ModOfMultiplePlus(j, n, i);
  }

  /**
   * With minStream == 0, j*(maxStream+1) consecutive calls from a fresh
   * handler select every stream of the range exactly j times.
   */
  lemma {:induction false} EachStreamEquallyOften(maxStream: int32, j: nat, s: int)
    requires 0 <= maxStream && 0 <= s <= maxStream
    ensures multiset(Selections(0, maxStream, j * (maxStream + 1)))[s] == j
  {
    var n := maxStream + 1;
    if j > 0 {
      EachStreamEquallyOften(maxStream, j - 1, s);
      var whole := Selections(0, maxStream, j * n);
      var prior := Selections(0, maxStream, (j - 1) * n);
      assert j * n == (j - 1) * n + n;
      assert whole[..(j - 1) * n] == prior;
      forall i | 0 <= i < n
        ensures whole[(j - 1) * n..][i] == Iota(n)[i]
      {
        RoundsFromZero(maxStream, j - 1, i);
      }
      assert whole[(j - 1) * n..] == Iota(n);
      assert whole == prior + Iota(n);
      IotaHoldsEachOnce(n, s);
    }
  }

  /** Twenty calls over streams 0..9 (the benchmarks' range) give 0..9 twice, in order. */
  lemma TwentySelectionsOverStreamsZeroToNine()
    ensures Selections(0, 9, 20) == Iota(10) + Iota(10)
  {
    forall k | 0 <= k < 20
      ensures Selections(0, 9, 20)[k] == (Iota(10) + Iota(10))[k]
    {
      SelectionWhenMinZero(9, k);
    }
  }

  /**
   * A formula that gives the javadoc's round robin over the given range:
   * call k selects minStream + k mod (maxStream - minStream + 1).
   */
  function IntendedSelection(minStream: int32, maxStream: int32, k: nat): (stream: int)
    requires minStream <= maxStream
    ensures minStream <= stream <= maxStream
  {
    minStream + k % (maxStream - minStream + 1)
  }

  /** The intended selection is fair for every range, not only for minStream == 0. */
  lemma IntendedWindowSelectsEachStreamOnce(minStream: int32, maxStream: int32, start: nat, s: int)
    requires minStream <= s <= maxStream
    ensures exists k: nat :: start <= k <= start + (maxStream - minStream) && IntendedSelection(minStream, maxStream, k) == s
    ensures forall k1: nat, k2: nat ::
      start <= k1 <= start + (maxStream - minStream) && start <= k2 <= start + (maxStream - minStream) &&
      IntendedSelection(minStream, maxStream, k1) == s && IntendedSelection(minStream, maxStream, k2) == s
      ==> k1 == k2
  {
    var n := maxStream - minStream + 1;
    var k := ResidueInWindow(n, start, s - minStream);
    assert IntendedSelection(minStream, maxStream, k) == s;
    forall k1: nat, k2: nat |
      start <= k1 <= start + (maxStream - minStream) && start <= k2 <= start + (maxStream - minStream) &&
      IntendedSelection(minStream, maxStream, k1) == s && IntendedSelection(minStream, maxStream, k2) == s
      ensures k1 == k2
    {
      if k1 <= k2 { ResiduesDistinctInWindow(n, k1, k2); } else { ResiduesDistinctInWindow(n, k2, k1); }
    }
  }

  /** For the configured minStream == 0 the code as written makes the intended selection. */
  lemma IntendedAgreesWhenMinZero(maxStream: int32, k: nat)
    requires 0 <= maxStream
    ensures NthSelection(0, maxStream, k) == Success(IntendedSelection(0, maxStream, k))
  {
    SelectionWhenMinZero(maxStream, k);
  }

  class SctpOutboundStreamingHandler {
    const protocolIdentifier: int32
    const minStream: int32
    const maxStream: int32
    const divider: int32

    /** The AtomicLong `streamCounter`. */
    var streamCounter: int

    /** How many selections were made, and the value of each one that succeeded. */
    ghost var calls: nat
    ghost var selected: seq<int>

    ghost predicate Valid()
      reads this
    {
      && minStream <= maxStream
      && divider == Divider(maxStream)
      && streamCounter == minStream + calls
      && selected == (if divider == 0 then [] else Selections(minStream, maxStream, calls))
    }

    /** The constructor past its range check (see Create). */
    constructor (protocolIdentifier: int32, minStream: int32, maxStream: int32)
      requires minStream <= maxStream
      ensures Valid()
      ensures this.protocolIdentifier == protocolIdentifier
      ensures this.minStream == minStream && this.maxStream == maxStream
      ensures divider == Divider(maxStream) && streamCounter == minStream
      ensures calls == 0 && selected == []
    {
      this.protocolIdentifier := protocolIdentifier;
      this.minStream := minStream;
      this.maxStream := maxStream;
      this.streamCounter := minStream;
      this.divider := Int32(maxStream + 1);
      calls := 0;
      selected := [];
    }

    /**
     * `new SctpOutboundStreamingHandler(...)`: an IllegalArgumentException
     * and no handler when minStream > maxStream.
     */
    static method Create(protocolIdentifier: int32, minStream: int32, maxStream: int32)
      returns (r: Result<SctpOutboundStreamingHandler>)
      ensures r.Failure? <==> CheckStreamRange(minStream, maxStream).Some?
      ensures r.Failure? ==> r.error == IllegalArgumentException(RANGE_ERROR)
      ensures r.Success? ==> fresh(r.value) && r.value.Valid()
      ensures r.Success? ==> r.value.protocolIdentifier == protocolIdentifier
      ensures r.Success? ==> r.value.minStream == minStream && r.value.maxStream == maxStream
      ensures r.Success? ==> r.value.divider == Divider(maxStream) && r.value.streamCounter == minStream
      ensures r.Success? ==> r.value.calls == 0
    {
      var thrown := CheckStreamRange(minStream, maxStream);
      if thrown.Some? {
        return Failure(thrown.value);
      }
      var h := new SctpOutboundStreamingHandler(protocolIdentifier, minStream, maxStream);
      r := Success(h);
    }

    /** `minStream + (streamCounter.getAndIncrement() % divider)`; the counter moves even when `%` throws. */
    method SelectStreamByRoundRobin() returns (r: Result<int>)
      requires Valid()
      modifies this`streamCounter, this`calls, this`selected
      ensures Valid()
      ensures streamCounter == old(streamCounter) + 1 && calls == old(calls) + 1
      ensures r == NthSelection(minStream, maxStream, old(calls))
      ensures selected == if r.Success? then old(selected) + [r.value] else old(selected)
    {
      var counter := streamCounter;
      streamCounter := streamCounter + 1;
      calls := calls + 1;
      if divider == 0 {
        r := Failure(ArithmeticException(DIVIDE_BY_ZERO));
      } else {
        r := Success(minStream + JavaRem(counter, divider));
        assert r == NthSelection(minStream, maxStream, calls - 1);
        SelectionsSnoc(minStream, maxStream, calls - 1);
        selected := selected + [r.value];
      }
    }

    /**
     * encode: appends to `out` one complete message carrying the configured
     * protocol identifier, the selected stream narrowed to `int`, and the
     * payload unchanged; or propagates the selector's exception.
     */
    method Encode(msg: Bytes, out: seq<SctpMessage>) returns (r: Result<seq<SctpMessage>>)
      requires Valid()
      modifies this`streamCounter, this`calls, this`selected
      ensures Valid()
      ensures streamCounter == old(streamCounter) + 1 && calls == old(calls) + 1
      ensures divider == 0 ==> r == Failure(ArithmeticException(DIVIDE_BY_ZERO)) && selected == old(selected)
      ensures divider != 0 ==> selected == old(selected) + [NthSelection(minStream, maxStream, old(calls)).value]
      ensures divider != 0 ==>
        r == Success(out + [EncodedMessage(protocolIdentifier, minStream, maxStream, old(calls), msg)])
    {
      var stream := SelectStreamByRoundRobin();
      match stream
      case Failure(e) =>
        r := Failure(e);
      case Success(s) =>
        r := Success(out + [SctpMessage(protocolIdentifier, Int32(s), msg, true)]);
    }
  }

  /**
   * A handler configured from stream 0 has, over its whole life, selected
   * k mod (maxStream + 1) on call k, always inside the range.
   */
  lemma HandlerRoundRobinFromZero(h: SctpOutboundStreamingHandler)
    requires h.Valid() && h.minStream == 0
    ensures |h.selected| == h.calls
    ensures forall k :: 0 <= k < |h.selected| ==>
      h.selected[k] == k % (h.maxStream + 1) && 0 <= h.selected[k] <= h.maxStream
  {
    forall k | 0 <= k < |h.selected|
      ensures h.selected[k] == k % (h.maxStream + 1) && 0 <= h.selected[k] <= h.maxStream
    {
      SelectionWhenMinZero(h.maxStream, k);
    }
  }
}
