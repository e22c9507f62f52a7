/**
  The accumulating CUDA timer (scm_cl_core/src/scm/cl_core/cuda/accum_timer.cpp)
  with the fields it inherits from accum_timer_base
  (scm_core/src/scm/core/time/accum_timer_base.h:48-50).

  The timer brackets GPU work with a start and a stop event, collects the
  elapsed time once the stop event has completed, adds every sample to an
  accumulator and, every `interval` calls of update, turns the accumulators
  into averages and starts over.

  The CUDA runtime and the CPU timer are not modelled: the result of
  cudaEventQuery, the elapsed nanoseconds and the CPU times are inputs,
  and the calls the timer makes are appended to a call log.
*/
module AccumTimer {

  /** Times in nanoseconds of one sample: the GPU time and the CPU wall, user and system times. */
  datatype CuTimes = CuTimes(cuda: int, wall: int, user: int, system: int)

  /** What the CPU timer reports for the bracketed interval. */
  datatype CpuTimes = CpuTimes(wall: int, user: int, system: int)

  /** The outcome of cudaEventQuery on the stop event. */
  datatype QueryResult = Success | NotReady | Failure(code: int)

  /** The calls the timer makes into the CUDA runtime, the CPU timer and the log. */
  datatype TimerCall =
    | CpuTimerStart
    | RecordStartEvent(stream: int)
    | RecordStopEvent(stream: int)
    | CpuTimerStop
    | SynchronizeStream(stream: int)
    | LogCollectError(code: int)

  const Zero := CuTimes(0, 0, 0, 0)

  function Add(a: CuTimes, b: CuTimes): CuTimes
  {
    CuTimes(a.cuda + b.cuda, a.wall + b.wall, a.user + b.user, a.system + b.system)
  }

  /** The component-wise sum of a sequence of samples. */
  function Sum(s: seq<CuTimes>): CuTimes
  {
    if s == [] then Zero else Add(Sum(s[..|s| - 1]), s[|s| - 1])
  }

  /** C++ division of a signed 64-bit value by a positive count: the quotient is truncated toward zero. */
  function TruncDiv(a: int, n: int): (q: int)
    requires n > 0
    ensures a >= 0 ==> 0 <= q && q * n <= a < q * n + n
    ensures a < 0 ==> q <= 0 && q * n - n < a <= q * n
  {
    if a >= 0 then DivBounds(a, n); a / n else DivBounds(-a, n); -((-a) / n)
  }

  lemma DivBounds(a: int, n: int)
    requires a >= 0 && n > 0
    ensures 0 <= a / n && (a / n) * n <= a < (a / n) * n + n
  {
    assert a == n * (a / n) + a % n;
  }

  /** x * n < y * n with n > 0 gives x < y. */
  lemma CancelLess(x: int, y: int, n: int)
    requires n > 0 && x * n < y * n
    ensures x < y
  {
    if x >= y {
      MulMonotone(y, x, n);
    }
  }

  lemma MulMonotone(x: int, y: int, n: int)
    requires x <= y && n >= 0
    ensures x * n <= y * n
  {
    assert y * n - x * n == (y - x) * n;
  }

  /** The average the timer reports: the truncated mean, or 0 when nothing was collected. */
  function Average(total: int, count: nat): int
  {
    if count > 0 then TruncDiv(total, count) else 0
  }

  function AverageTimes(total: CuTimes, count: nat): CuTimes
  {
    CuTimes(Average(total.cuda, count), Average(total.wall, count),
            Average(total.user, count), Average(total.system, count))
  }

  /** Every component lies in [lo, hi]. */
  predicate Within(t: CuTimes, lo: int, hi: int)
  {
    lo <= t.cuda <= hi && lo <= t.wall <= hi && lo <= t.user <= hi && lo <= t.system <= hi
  }

  /** n samples whose components lie in [lo, hi] sum to a value in [n * lo, n * hi]. */
  lemma {:induction false} SumWithin(s: seq<CuTimes>, lo: int, hi: int)
    requires forall i :: 0 <= i < |s| ==> Within(s[i], lo, hi)
    ensures |s| * lo <= Sum(s).cuda <= |s| * hi
    ensures |s| * lo <= Sum(s).wall <= |s| * hi
    ensures |s| * lo <= Sum(s).user <= |s| * hi
    ensures |s| * lo <= Sum(s).system <= |s| * hi
  {
    if s != [] {
      var n, prev, last := |s|, Sum(s[..|s| - 1]), s[|s| - 1];
      SumWithin(s[..n - 1], lo, hi);
      assert Within(last, lo, hi);
      BoundsStep(n, lo, hi, prev.cuda, last.cuda);
      BoundsStep(n, lo, hi, prev.wall, last.wall);
      BoundsStep(n, lo, hi, prev.user, last.user);
      BoundsStep(n, lo, hi, prev.system, last.system);
    }
  }

  lemma BoundsStep(n: int, lo: int, hi: int, prev: int, x: int)
    requires (n - 1) * lo <= prev <= (n - 1) * hi && lo <= x <= hi
    ensures n * lo <= prev + x <= n * hi
  {
    assert n * lo == (n - 1) * lo + lo;
    assert n * hi == (n - 1) * hi + hi;
  }

  /**
    The truncated mean of a total in [n * lo, n * hi], n > 0, lies in
    [lo, hi]: rounding toward zero never leaves the interval, on either side
    of zero.
  */
  lemma AverageWithin(total: int, count: nat, lo: int, hi: int)
    requires count > 0
    requires count * lo <= total <= count * hi
    ensures lo <= Average(total, count) <= hi
  {
    var q := TruncDiv(total, count);
    if total >= 0 {
      assert (q + 1) * count == q * count + count;
      CancelLess(lo, q + 1, count);
      assert (hi + 1) * count == hi * count + count;
      CancelLess(q, hi + 1, count);
    } else {
      assert (lo - 1) * count == lo * count - count;
      CancelLess(lo - 1, q, count);
      assert (q - 1) * count == q * count - count;
      CancelLess(q - 1, hi, count);
    }
  }

  /**
    The averages the timer reports lie within the range of the samples they
    average: with samples in [lo, hi], every averaged component lies in
    [lo, hi] as well.
  */
  lemma AverageOfSamplesWithin(s: seq<CuTimes>, lo: int, hi: int)
    requires |s| > 0
    requires forall i :: 0 <= i < |s| ==> Within(s[i], lo, hi)
    ensures Within(AverageTimes(Sum(s), |s|), lo, hi)
  {
    SumWithin(s, lo, hi);
    AverageWithin(Sum(s).cuda, |s|, lo, hi);
    AverageWithin(Sum(s).wall, |s|, lo, hi);
    AverageWithin(Sum(s).user, |s|, lo, hi);
    AverageWithin(Sum(s).system, |s|, lo, hi);
  }

  /** A constant sample is its own average. */
  lemma {:induction false} AverageOfConstant(s: seq<CuTimes>, t: CuTimes)
    requires |s| > 0 && forall i :: 0 <= i < |s| ==> s[i] == t
    ensures AverageTimes(Sum(s), |s|) == t
  {
    SumOfConstant(s, t);
    TruncDivOfMultiple(t.cuda, |s|);
    TruncDivOfMultiple(t.wall, |s|);
    TruncDivOfMultiple(t.user, |s|);
    TruncDivOfMultiple(t.system, |s|);
  }

  lemma {:induction false} SumOfConstant(s: seq<CuTimes>, t: CuTimes)
    requires forall i :: 0 <= i < |s| ==> s[i] == t
    ensures Sum(s) == CuTimes(|s| * t.cuda, |s| * t.wall, |s| * t.user, |s| * t.system)
  {
    if s != [] {
      SumOfConstant(s[..|s| - 1], t);
    }
  }

  lemma TruncDivOfMultiple(v: int, n: int)
    requires n > 0
    ensures TruncDiv(n * v, n) == v
  {
    var q := TruncDiv(n * v, n);
    assert (q + 1) * n == q * n + n;
    assert (v + 1) * n == v * n + n;
    if v >= 0 {
      MulMonotone(0, v, n);
      CancelLess(q, v + 1, n);
      CancelLess(v, q + 1, n);
    } else {
      MulMonotone(v, -1, n);
      assert (q - 1) * n == q * n - n;
      CancelLess(q - 1, v, n);
      CancelLess(v, q + 1, n);
    }
  }

  /** Appending a sample adds it to the sum. */
  lemma SumAppend(s: seq<CuTimes>, t: CuTimes)
    ensures Sum(s + [t]) == Add(Sum(s), t)
  {
    assert (s + [t])[..|s|] == s;
  }

  class Timer {
    /** _cu_event_finished: the last stop event has been collected, so a new interval may be timed. */
    var eventFinished: bool
    /** _cu_event_stream: the stream the start event was recorded on. */
    var eventStream: int
    var lastTime: int
    var accumulatedTime: int
    var accumulationCount: nat
    var averageTime: int
    var updateInterval: int
    var detailedLastTime: CuTimes
    var detailedAccumulatedTime: CuTimes
    var detailedAverageTime: CuTimes
    /** The calls made so far, oldest first. */
    var calls: seq<TimerCall>
    /** The samples collected since the last reset. */
    ghost var samples: seq<CuTimes>

    /** The accumulators hold the sums of the samples collected since the last reset, and the count their number. */
    ghost predicate Valid()
      reads this
    {
      && accumulationCount == |samples|
      && detailedAccumulatedTime == Sum(samples)
      && accumulatedTime == Sum(samples).cuda
      && (samples != [] ==> detailedLastTime == samples[|samples| - 1] && lastTime == detailedLastTime.cuda)
    }

    /**
      The state of a newly constructed timer: no sample, every time zero, no
      call made, and the finished flag clear.
    */
    ghost predicate Initial()
      reads this
    {
      && Valid() && samples == []
      && !eventFinished && eventStream == 0
      && lastTime == 0 && accumulatedTime == 0 && accumulationCount == 0
      && averageTime == 0 && updateInterval == 0
      && detailedLastTime == Zero && detailedAccumulatedTime == Zero && detailedAverageTime == Zero
      && calls == []
    }

    /**
      The constructor sets the finished flag and then calls reset, which
      clears it again: a new timer ignores start and stop until a collect
      succeeds or force_collect is called. This is the path on which both
      CUDA events are created; NewTimer adds the failing one.
    */
    constructor ()
      ensures Initial()
    {
      eventFinished := true;
      eventStream := 0;
      averageTime := 0;
      updateInterval := 0;
      detailedLastTime := Zero;
      calls := [];
      // reset()
      lastTime := 0;
      accumulatedTime := 0;
      accumulationCount := 0;
      eventFinished := false;
      detailedAccumulatedTime := Zero;
      samples := [];
      detailedAverageTime := Zero;
    }

    /** start: only when the previous interval was collected, start the CPU timer and record the start event on the stream. */
    method Start(stream: int)
      modifies this
      ensures old(eventFinished) ==> eventStream == stream && calls == old(calls) + [CpuTimerStart, RecordStartEvent(stream)]
      ensures old(eventFinished) ==> eventFinished && samples == old(samples)
      ensures !old(eventFinished) ==> eventStream == old(eventStream) && calls == old(calls)
      ensures eventFinished == old(eventFinished)
      ensures lastTime == old(lastTime) && accumulatedTime == old(accumulatedTime)
      ensures accumulationCount == old(accumulationCount) && averageTime == old(averageTime)
      ensures updateInterval == old(updateInterval) && samples == old(samples)
      ensures detailedLastTime == old(detailedLastTime) && detailedAccumulatedTime == old(detailedAccumulatedTime)
      ensures detailedAverageTime == old(detailedAverageTime)
    {
      if eventFinished {
        calls := calls + [CpuTimerStart, RecordStartEvent(stream)];
        eventStream := stream;
      }
    }

    /** stop: only when the previous interval was collected, record the stop event and stop the CPU timer. */
    method Stop()
      modifies this`calls
      ensures old(eventFinished) ==> calls == old(calls) + [RecordStopEvent(eventStream), CpuTimerStop]
      ensures !old(eventFinished) ==> calls == old(calls)
    {
      if eventFinished {
        calls := calls + [RecordStopEvent(eventStream), CpuTimerStop];
      }
    }

    /**
      collect: NotReady clears the finished flag and touches nothing else;
      Success synchronises the stream and adds the sample; any other result
      is logged and changes nothing.
    */
    method Collect(result: QueryResult, ns: int, cpu: CpuTimes)
      requires Valid()
      modifies this
      ensures Valid()
      ensures result == NotReady ==>
        !eventFinished && calls == old(calls) && samples == old(samples)
        && lastTime == old(lastTime) && accumulatedTime == old(accumulatedTime)
        && accumulationCount == old(accumulationCount) && detailedLastTime == old(detailedLastTime)
      ensures result == Success ==>
        eventFinished && calls == old(calls) + [SynchronizeStream(eventStream)]
        && samples == old(samples) + [CuTimes(ns, cpu.wall, cpu.user, cpu.system)]
        && lastTime == ns && accumulatedTime == old(accumulatedTime) + ns
        && accumulationCount == old(accumulationCount) + 1
      ensures result.Failure? ==>
        eventFinished == old(eventFinished) && calls == old(calls) + [LogCollectError(result.code)]
        && samples == old(samples) && lastTime == old(lastTime) && accumulatedTime == old(accumulatedTime)
        && accumulationCount == old(accumulationCount) && detailedLastTime == old(detailedLastTime)
      ensures eventStream == old(eventStream) && averageTime == old(averageTime)
      ensures updateInterval == old(updateInterval) && detailedAverageTime == old(detailedAverageTime)
    {
      match result {
        case NotReady =>
          eventFinished := false;
        case Success =>
          calls := calls + [SynchronizeStream(eventStream)];
          AddSample(ns, cpu);
        case Failure(code) =>
          calls := calls + [LogCollectError(code)];
      }
    }

    /** force_collect: synchronise the stream and add the sample whatever the state of the stop event. */
    method ForceCollect(ns: int, cpu: CpuTimes)
      requires Valid()
      modifies this
      ensures Valid()
      ensures eventFinished && calls == old(calls) + [SynchronizeStream(eventStream)]
      ensures samples == old(samples) + [CuTimes(ns, cpu.wall, cpu.user, cpu.system)]
      ensures lastTime == ns && accumulatedTime == old(accumulatedTime) + ns
      ensures accumulationCount == old(accumulationCount) + 1
      ensures eventStream == old(eventStream) && averageTime == old(averageTime)
      ensures updateInterval == old(updateInterval) && detailedAverageTime == old(detailedAverageTime)
    {
      calls := calls + [SynchronizeStream(eventStream)];
      AddSample(ns, cpu);
    }

    /** The accumulation step shared by a successful collect and force_collect. */
    method AddSample(ns: int, cpu: CpuTimes)
      requires Valid()
      modifies this
      ensures Valid()
      ensures eventFinished
      ensures samples == old(samples) + [CuTimes(ns, cpu.wall, cpu.user, cpu.system)]
      ensures detailedLastTime == CuTimes(ns, cpu.wall, cpu.user, cpu.system)
      ensures detailedAccumulatedTime == Add(old(detailedAccumulatedTime), detailedLastTime)
      ensures lastTime == ns && accumulatedTime == old(accumulatedTime) + ns
      ensures accumulationCount == old(accumulationCount) + 1
      ensures calls == old(calls) && eventStream == old(eventStream) && averageTime == old(averageTime)
      ensures updateInterval == old(updateInterval) && detailedAverageTime == old(detailedAverageTime)
    {
      var sample := CuTimes(ns, cpu.wall, cpu.user, cpu.system);
      ghost var s := samples + [sample];
      SumAppend(samples, sample);
      assert Sum(s) == Add(detailedAccumulatedTime, sample);
      lastTime := ns;
      accumulatedTime := accumulatedTime + lastTime;
      detailedLastTime := sample;
      detailedAccumulatedTime := Add(detailedAccumulatedTime, detailedLastTime);
      accumulationCount := accumulationCount + 1;
      eventFinished := true;
      samples := s;
    }

    /**
      update(interval): count the call; once the count reaches interval,
      replace the averages by the truncated means of the samples collected
      since the last reset (0 when there are none) and reset.
    */
    method Update(interval: int)
      requires Valid()
      modifies this
      ensures Valid()
      ensures old(updateInterval) + 1 < interval ==>
        updateInterval == old(updateInterval) + 1 && samples == old(samples)
        && averageTime == old(averageTime) && detailedAverageTime == old(detailedAverageTime)
        && eventFinished == old(eventFinished) && accumulationCount == old(accumulationCount)
        && accumulatedTime == old(accumulatedTime) && lastTime == old(lastTime)
      ensures old(updateInterval) + 1 >= interval ==>
        updateInterval == 0 && samples == [] && !eventFinished
        && averageTime == Average(old(accumulatedTime), old(accumulationCount))
        && averageTime == Average(Sum(old(samples)).cuda, |old(samples)|)
        && detailedAverageTime == AverageTimes(Sum(old(samples)), |old(samples)|)
        && lastTime == 0 && accumulatedTime == 0 && accumulationCount == 0
      ensures calls == old(calls) && eventStream == old(eventStream) && detailedLastTime == old(detailedLastTime)
    {
      updateInterval := updateInterval + 1;
      if updateInterval >= interval {
        updateInterval := 0;
        averageTime := Average(accumulatedTime, accumulationCount);
        detailedAverageTime := Zero;
        if accumulationCount > 0 {
          detailedAverageTime := AverageTimes(detailedAccumulatedTime, accumulationCount);
        }
        Reset();
      }
    }

    /** reset: zero the accumulators and the count and clear the finished flag; the averages are kept. */
    method Reset()
      modifies this
      ensures Valid() && samples == []
      ensures !eventFinished
      ensures lastTime == 0 && accumulatedTime == 0 && accumulationCount == 0
      ensures detailedAccumulatedTime == Zero
      ensures calls == old(calls) && eventStream == old(eventStream) && averageTime == old(averageTime)
      ensures updateInterval == old(updateInterval) && detailedLastTime == old(detailedLastTime)
      ensures detailedAverageTime == old(detailedAverageTime)
    {
      // accum_timer_base::reset()
      lastTime := 0;
      accumulatedTime := 0;
      accumulationCount := 0;
      eventFinished := false;
      detailedAccumulatedTime := Zero;
      samples := [];
    }
  }

  /**
    Constructing a timer creates its start and stop events; when either
    creation fails the constructor throws std::runtime_error and no timer
    comes into existence. The two creation results are inputs, and the
    result is null exactly when the constructor throws.
  */
  method NewTimer(startCreated: bool, stopCreated: bool) returns (t: Timer?)
    ensures t == null <==> !(startCreated && stopCreated)
    ensures t != null ==> fresh(t) && t.Initial()
  {
    if startCreated && stopCreated {
      t := new Timer();
    } else {
      t := null;
    }
  }
}
