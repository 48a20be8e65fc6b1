/**
 * The benchmark driver: the table of histogram bucket bounds main builds,
 * and executePerf, which runs a benchmark's setup and execute phases inside
 * a try block whose finally clause always tears the benchmark down.
 */
module PerfMain {
  import opened JavaTypes

  /** Entries of the interval array. */
  const INTERVAL_COUNT: nat := 255
  /** Width of every bucket, and upper bound of the first, in nanoseconds. */
  const MIN_LATENCY: int64 := 50000
  /** The number of probes main asks for. */
  const PERF_COUNT: int32 := 100000

  /** The upper bounds the loop writes into an array of n entries. */
  function IntervalTable(n: nat): (t: seq<int64>)
    requires n * MIN_LATENCY <= LONG_MAX
    ensures |t| == n
    ensures forall i :: 0 <= i < n ==> t[i] == (i + 1) * MIN_LATENCY
  {
    if n == 0 then []
    else if n == 1 then [MIN_LATENCY]
    else
      var previous := IntervalTable(n - 1);
      previous + [previous[n - 2] + MIN_LATENCY]
  }

  /** main's table: 255 ascending bounds from 50 microseconds up to 12.75 milliseconds. */
  lemma PerfIntervals()
    ensures |IntervalTable(INTERVAL_COUNT)| == INTERVAL_COUNT
    ensures IntervalTable(INTERVAL_COUNT)[0] == 50_000
    ensures IntervalTable(INTERVAL_COUNT)[INTERVAL_COUNT - 1] == 12_750_000
    ensures forall i, j :: 0 <= i < j < INTERVAL_COUNT ==>
      IntervalTable(INTERVAL_COUNT)[i] < IntervalTable(INTERVAL_COUNT)[j]
    ensures forall i :: 0 < i < INTERVAL_COUNT ==>
      IntervalTable(INTERVAL_COUNT)[i] - IntervalTable(INTERVAL_COUNT)[i - 1] == MIN_LATENCY
  {
  }

  /** The first statements of main: fill the interval array with a running upper bound. */
  method BuildIntervals() returns (intervals: array<int64>)
    ensures fresh(intervals)
    ensures intervals[..] == IntervalTable(INTERVAL_COUNT)
  {
    intervals := new int64[INTERVAL_COUNT];
    var minLatency := MIN_LATENCY;
    var intervalUpperBound := minLatency;
    intervals[0] := minLatency;
    var i, size := 1, intervals.Length;
    while i < size
      invariant 1 <= i <= size == INTERVAL_COUNT
      invariant intervalUpperBound == i * MIN_LATENCY
      invariant intervals[..i] == IntervalTable(i)
    {
      intervalUpperBound := intervalUpperBound + minLatency;
      intervals[i] := intervalUpperBound;
      assert intervals[..i + 1] == intervals[..i] + [intervalUpperBound];
      i := i + 1;
    }
    assert intervals[..] == intervals[..i];
  }

  /** A phase of a benchmark, as executePerf calls it. */
  datatype Phase = SetupPhase | ExecutePhase(count: int32) | TearDownPhase

  /**
   * The exception a try/finally statement ends with: one thrown by the
   * finally clause replaces whatever the try block threw.
   */
  function TryFinally(fromTry: Option<Exception>, fromFinally: Option<Exception>): (thrown: Option<Exception>)
    ensures thrown.None? <==> fromTry.None? && fromFinally.None?
    ensures fromFinally.Some? ==> thrown == fromFinally
    ensures fromFinally.None? ==> thrown == fromTry
  {
    if fromFinally.Some? then fromFinally else fromTry
  }

  /**
   * A benchmark as executePerf sees it. Its phases do network I/O, which is
   * not modelled: each phase's outcome is fixed when the benchmark is made,
   * and `phases` records the calls in order.
   */
  class PerfBench {
    const intervals: seq<int64>
    const setupFailure: Option<Exception>
    const executeFailure: Option<Exception>
    const tearDownFailure: Option<Exception>
    var phases: seq<Phase>

    constructor (intervals: seq<int64>, setupFailure: Option<Exception>,
                 executeFailure: Option<Exception>, tearDownFailure: Option<Exception>)
      ensures this.intervals == intervals && phases == []
      ensures this.setupFailure == setupFailure && this.executeFailure == executeFailure
      ensures this.tearDownFailure == tearDownFailure
    {
      this.intervals := intervals;
      this.setupFailure := setupFailure;
      this.executeFailure := executeFailure;
      this.tearDownFailure := tearDownFailure;
      phases := [];
    }

    method Setup() returns (thrown: Option<Exception>)
      modifies this`phases
      ensures phases == old(phases) + [SetupPhase] && thrown == setupFailure
    {
      phases := phases + [SetupPhase];
      thrown := setupFailure;
    }

    method Execute(count: int32) returns (thrown: Option<Exception>)
      modifies this`phases
      ensures phases == old(phases) + [ExecutePhase(count)] && thrown == executeFailure
    {
      phases := phases + [ExecutePhase(count)];
      thrown := executeFailure;
    }

    method TearDown() returns (thrown: Option<Exception>)
      modifies this`phases
      ensures phases == old(phases) + [TearDownPhase] && thrown == tearDownFailure
    {
      phases := phases + [TearDownPhase];
      thrown := tearDownFailure;
    }
  }

  /**
   * executePerf: setup, then execute when setup did not throw, then
   * tearDown in every case; the exception it ends with follows try/finally.
   */
  method ExecutePerf(perfBench: PerfBench, count: int32) returns (thrown: Option<Exception>)
    modifies perfBench`phases
    ensures perfBench.phases == old(perfBench.phases) +
      (if perfBench.setupFailure.None? then [SetupPhase, ExecutePhase(count)] else [SetupPhase]) + [TearDownPhase]
    ensures thrown == TryFinally(
      if perfBench.setupFailure.Some? then perfBench.setupFailure else perfBench.executeFailure,
      perfBench.tearDownFailure)
  {
    var fromTry := perfBench.Setup();
    if fromTry.None? {
      fromTry := perfBench.Execute(count);
    }
    var fromFinally := perfBench.TearDown();
    thrown := TryFinally(fromTry, fromFinally);
  }

  /**
   * main: build the interval table, hand it to a benchmark and run that
   * benchmark for 100000 probes.
   */
  method Run(setupFailure: Option<Exception>, executeFailure: Option<Exception>,
             tearDownFailure: Option<Exception>)
    returns (perfBench: PerfBench, thrown: Option<Exception>)
    ensures fresh(perfBench)
    ensures perfBench.intervals == IntervalTable(INTERVAL_COUNT)
    ensures perfBench.phases ==
      (if setupFailure.None? then [SetupPhase, ExecutePhase(PERF_COUNT)] else [SetupPhase]) + [TearDownPhase]
    ensures thrown == TryFinally(if setupFailure.Some? then setupFailure else executeFailure, tearDownFailure)
  {
    var intervals := BuildIntervals();
    perfBench := new PerfBench(intervals[..], setupFailure, executeFailure, tearDownFailure);
    thrown := ExecutePerf(perfBench, PERF_COUNT);
  }
}
