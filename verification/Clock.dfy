/** Steps of the wall clock, found by comparing it with the monotonic one. */
module Clock {
  import opened Ordering
  import opened Domain

  const STEP_THRESHOLD_MS := 250

  /** Both clocks read together; the monotonic one in nanoseconds from an arbitrary origin. */
  datatype Sample = Sample(wall: Time, monotonic: nat)

  datatype ClockStep = ClockStep(observedBefore: Time, observedAfter: Time, monotonicMs: U64, stepMs: int)

  /** `i64::saturating_sub`. */
  function SaturatingSub(a: int, b: int): int
  {
    if a - b < I64_MIN then I64_MIN else if a - b > I64_MAX then I64_MAX else a - b
  }

  /** `i64::saturating_abs`. */
  function SaturatingAbs(a: int): int
  {
    if a >= 0 then a else if -a > I64_MAX then I64_MAX else -a
  }

  function Detect(before: Time, after: Time, monotonicMs: U64): Option<ClockStep>
  {
    var wallMs := ToI64(WholeMs(after - before));
    var stepMs := SaturatingSub(wallMs, ToI64(monotonicMs));
    if SaturatingAbs(stepMs) > STEP_THRESHOLD_MS then Some(ClockStep(before, after, monotonicMs, stepMs)) else None
  }

  /** Elapsed milliseconds; a monotonic clock that seems to run back counts as not having moved. */
  function MonotonicMs(before: Sample, after: Sample): U64
  {
    var ms := if after.monotonic >= before.monotonic then (after.monotonic - before.monotonic) / NANOS_PER_MS else 0;
    if ms <= 0xFFFF_FFFF_FFFF_FFFF then ms else 0xFFFF_FFFF_FFFF_FFFF
  }

  function StepAt(samples: seq<Sample>, i: nat): Option<ClockStep>
    requires 0 < i < |samples|
  {
    Detect(samples[i - 1].wall, samples[i].wall, MonotonicMs(samples[i - 1], samples[i]))
  }

  function Steps(samples: seq<Sample>, n: nat): seq<ClockStep>
    requires n <= |samples|
  {
    if n <= 1 then []
    else Steps(samples, n - 1) + if StepAt(samples, n - 1).Some? then [StepAt(samples, n - 1).value] else []
  }

  method WatchTheClock(samples: seq<Sample>) returns (recorded: seq<ClockStep>)
    ensures recorded == Steps(samples, |samples|)
  {
    recorded := [];
    if samples == [] {
      return;
    }
    var baseline := samples[0];
    for i := 1 to |samples|
      invariant baseline == samples[i - 1]
      invariant recorded == Steps(samples, i)
    {
      var current := samples[i];
      var step := Detect(baseline.wall, current.wall, MonotonicMs(baseline, current));
      if step.Some? {
        recorded := recorded + [step.value];
      }
      baseline := current;
    }
  }

  // ----- The books balance -----

  /** The monotonic clock runs forward, and stays clear of where `i64` milliseconds saturate. */
  ghost predicate Running(samples: seq<Sample>)
  {
    && (forall i :: 0 <= i < |samples| ==> samples[i].monotonic <= 0x4000_0000_0000_0000 * NANOS_PER_MS)
    && (forall i :: 0 < i < |samples| ==> samples[i - 1].monotonic <= samples[i].monotonic)
  }

  function Total(steps: seq<ClockStep>): int
  {
    if steps == [] then 0 else Total(steps[..|steps| - 1]) + steps[|steps| - 1].stepMs
  }

  /** Intervals too small a discrepancy to report. */
  function Unreported(samples: seq<Sample>, n: nat): nat
    requires n <= |samples|
  {
    if n <= 1 then 0 else Unreported(samples, n - 1) + if StepAt(samples, n - 1).None? then 1 else 0
  }

  /** How far the wall clock ran ahead of the monotonic one, in nanoseconds. */
  function Drift(samples: seq<Sample>, i: nat, j: nat): int
    requires i < |samples| && j < |samples|
  {
    (samples[j].wall - samples[i].wall) - (samples[j].monotonic - samples[i].monotonic)
  }

  lemma TruncationBounds(d: int)
    ensures -NANOS_PER_MS < d - WholeMs(d) * NANOS_PER_MS < NANOS_PER_MS
  {
  }

  lemma IntervalBalances(samples: seq<Sample>, i: nat)
    requires Running(samples) && 0 < i < |samples|
    ensures var drift, step := Drift(samples, i - 1, i), StepAt(samples, i);
            if step.Some? then
              -2 * NANOS_PER_MS < drift - step.value.stepMs * NANOS_PER_MS < 2 * NANOS_PER_MS
            else
              -(STEP_THRESHOLD_MS + 2) * NANOS_PER_MS < drift < (STEP_THRESHOLD_MS + 2) * NANOS_PER_MS
  {
    var wall: int := samples[i].wall - samples[i - 1].wall;
    var elapsed := samples[i].monotonic - samples[i - 1].monotonic;
    TruncationBounds(wall);
    TruncationBounds(elapsed);
    WholeMsMonotone(wall, 2 * TIME_LIMIT);
    WholeMsMonotone(-2 * TIME_LIMIT, wall);
    assert MonotonicMs(samples[i - 1], samples[i]) == WholeMs(elapsed);
    assert SaturatingSub(ToI64(WholeMs(wall)), ToI64(WholeMs(elapsed))) == WholeMs(wall) - WholeMs(elapsed);
  }

  /** Over any run of the monitor, the wall clock's movement less the monotonic clock's is the sum
      of the recorded steps, to within the threshold for each interval not reported and less than
      two milliseconds of rounding for every interval. */
  lemma {:induction false} StepsAccountForTheClock(samples: seq<Sample>, n: nat)
    requires Running(samples) && 0 < n <= |samples|
    ensures var off := Drift(samples, 0, n - 1) - Total(Steps(samples, n)) * NANOS_PER_MS;
            var slack := (STEP_THRESHOLD_MS * Unreported(samples, n) + 2 * (n - 1)) * NANOS_PER_MS;
            -slack <= off <= slack && (n > 1 ==> -slack < off < slack)
  {
    if n > 1 {
      StepsAccountForTheClock(samples, n - 1);
      IntervalBalances(samples, n - 1);
      assert Drift(samples, 0, n - 1) == Drift(samples, 0, n - 2) + Drift(samples, n - 2, n - 1);
      var step := StepAt(samples, n - 1);
      if step.Some? {
        assert Steps(samples, n)[..|Steps(samples, n)| - 1] == Steps(samples, n - 1);
      } else {
        assert Steps(samples, n) == Steps(samples, n - 1);
      }
    }
  }

  /** A jump too long for `i64` milliseconds of monotonic time saturates instead of wrapping: it
      is reported, and in its own direction. */
  lemma LargeJumpsAreReported(before: Time, after: Time, monotonicMs: U64)
    ensures var apart, step := WholeMs(after - before) - monotonicMs, Detect(before, after, monotonicMs);
            && (apart > STEP_THRESHOLD_MS ==>
                  step.Some? && step.value.stepMs > STEP_THRESHOLD_MS)
            && (apart < -STEP_THRESHOLD_MS ==>
                  step.Some? && step.value.stepMs < -STEP_THRESHOLD_MS)
            && (-STEP_THRESHOLD_MS <= apart <= STEP_THRESHOLD_MS ==> step.None?)
  {
    WholeMsMonotone(after - before, 2 * TIME_LIMIT);
    WholeMsMonotone(-2 * TIME_LIMIT, after - before);
  }

  /** A step shows the two readings it came from, the earlier first, and by how much the wall clock
      outran the monotonic one, down to the least an `i64` holds. */
  lemma StepsSayWhatWasSeen(before: Sample, after: Sample)
    requires before.monotonic <= after.monotonic <= before.monotonic + I64_MAX * NANOS_PER_MS
    ensures var elapsed := (after.monotonic - before.monotonic) / NANOS_PER_MS;
            var step := Detect(before.wall, after.wall, MonotonicMs(before, after));
            step.Some? ==>
              && step.value.observedBefore == before.wall && step.value.observedAfter == after.wall
              && step.value.monotonicMs == elapsed
              && (WholeMs(after.wall - before.wall) - elapsed >= I64_MIN ==>
                    step.value.stepMs == WholeMs(after.wall - before.wall) - elapsed)
  {
    WholeMsMonotone(after.wall - before.wall, 2 * TIME_LIMIT);
    WholeMsMonotone(-2 * TIME_LIMIT, after.wall - before.wall);
  }

  /** A monotonic clock that seems to run back counts as not having moved. */
  lemma RunningBackIsStandingStill(before: Sample, after: Sample)
    requires after.monotonic < before.monotonic
    ensures Detect(before.wall, after.wall, MonotonicMs(before, after)) == Detect(before.wall, after.wall, 0)
  {
  }
}
