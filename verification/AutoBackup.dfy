/** The heartbeat of the automatic backup job.
    Times are nanosecond readings of one clock; durations are int64 nanoseconds, so the
    product of the rescale step wraps around, and elapsed time is cut off, exactly where the program's is. */
module AutoBackup {
  import opened Seqs

  const SECOND := 1_000_000_000
  const INT64_LIMIT := 0x8000_0000_0000_0000
  const INT64_SPAN := 0x1_0000_0000_0000_0000

  /** The int64 value a mathematical integer is stored as. */
  function Wrap64(x: int): (r: int)
    ensures -INT64_LIMIT <= r < INT64_LIMIT
    ensures -INT64_LIMIT <= x < INT64_LIMIT ==> r == x
  {
    (x + INT64_LIMIT) % INT64_SPAN - INT64_LIMIT
  }

  /** The time since an earlier reading, held within an int64 as the program's clock does. */
  function Since(now: int, then_: int): (d: int)
    ensures -INT64_LIMIT <= d < INT64_LIMIT
    ensures -INT64_LIMIT <= now - then_ < INT64_LIMIT ==> d == now - then_
  {
    if now - then_ >= INT64_LIMIT then INT64_LIMIT - 1
    else if now - then_ < -INT64_LIMIT then -INT64_LIMIT
    else now - then_
  }

  /** Integer division as the program does it: towards zero. */
  function TruncDiv(a: int, b: int): int
    requires b > 0
  {
    if a >= 0 then a / b else -(-a / b)
  }

  datatype JobState = JobState(lastRun: int, lastInterval: int)

  /** One wake-up: the setting it reads, its clock readings in the order they are taken,
      and whether a backup, if attempted, fails. */
  datatype Heartbeat = Heartbeat(intervalSecs: int, elapsedAt: int, rescaledAt: int,
                                 checkedAt: int, finishedAt: int, fails: bool)
  {
    function Interval(): int { Wrap64(intervalSecs * SECOND) }

    /** The setting fits in a duration (at most about 292 years). */
    ghost predicate Representable() { 0 < intervalSecs * SECOND < INT64_LIMIT }

    ghost predicate Ordered() { elapsedAt <= rescaledAt <= checkedAt <= finishedAt }
  }

  /** The age of the last run, scaled from the old interval to the new one. */
  function Scaled(elapsed: int, interval: int, lastInterval: int): int
    requires lastInterval > 0
  {
    TruncDiv(Wrap64(elapsed * interval), lastInterval)
  }

  function RescaledLastRun(s: JobState, h: Heartbeat): int {
    if s.lastInterval > 0 && h.Interval() < s.lastInterval then
      var elapsed := Since(h.elapsedAt, s.lastRun);
      var scaled := Scaled(elapsed, h.Interval(), s.lastInterval);
      if scaled < elapsed then h.rescaledAt - scaled else s.lastRun
    else
      s.lastRun
  }

  predicate Attempts(s: JobState, h: Heartbeat) {
    h.intervalSecs > 0 && Since(h.checkedAt, RescaledLastRun(s, h)) >= h.Interval()
  }

  function Step(s: JobState, h: Heartbeat): JobState {
    if h.intervalSecs <= 0 then s
    else JobState(if Attempts(s, h) then h.finishedAt else RescaledLastRun(s, h), h.Interval())
  }

  function Run(s: JobState, hs: seq<Heartbeat>): JobState {
    if hs == [] then s else Step(Run(s, hs[..|hs| - 1]), hs[|hs| - 1])
  }

  /** When the last attempt of a run ended; the registration time while there was none. */
  function LastEnd(registered: int, hs: seq<Heartbeat>): int {
    if hs == [] then registered
    else
      var before, h := hs[..|hs| - 1], hs[|hs| - 1];
      if Attempts(Run(JobState(registered, 0), before), h) then h.finishedAt else LastEnd(registered, before)
  }

  /** The variables the registered closure captures. */
  class AutoBackupJob {
    var lastRun: int
    var lastInterval: int

    ghost function View(): JobState reads this { JobState(lastRun, lastInterval) }

    constructor (now: int)
      ensures View() == JobState(now, 0)
    {
      lastRun, lastInterval := now, 0;
    }

    method Wake(h: Heartbeat) returns (attempted: bool, failed: bool)
      modifies this
      ensures View() == Step(old(View()), h)
      ensures attempted == Attempts(old(View()), h)
      ensures failed == (attempted && h.fails)
    {
      attempted, failed := false, false;
      if h.intervalSecs <= 0 {
        return;
      }
      var interval := h.Interval();
      if lastInterval > 0 && interval < lastInterval {
        var elapsed := Since(h.elapsedAt, lastRun);
        var scaled := Scaled(elapsed, interval, lastInterval);
        if scaled < elapsed {
          lastRun := h.rescaledAt - scaled;
        }
      }
      lastInterval := interval;
      if Since(h.checkedAt, lastRun) < interval {
        return;
      }
      attempted, failed := true, h.fails;
      lastRun := h.finishedAt;
    }
  }

  // ----- Spacing of attempts, over every run -----

  /** Rescaling never moves the base time backwards, even when the product overflows. */
  lemma {:induction false} RescaleNeverMovesBack(s: JobState, h: Heartbeat)
    requires h.elapsedAt <= h.rescaledAt
    ensures RescaledLastRun(s, h) >= s.lastRun
  {
    if s.lastInterval > 0 {
      ScaledNotBelow(Since(h.elapsedAt, s.lastRun), h.Interval(), s.lastInterval);
      DivBelow(INT64_LIMIT, s.lastInterval, INT64_LIMIT + 1);
    }
  }

  lemma {:induction false} LastRunCoversLastEnd(registered: int, hs: seq<Heartbeat>)
    requires forall i :: 0 <= i < |hs| ==> hs[i].elapsedAt <= hs[i].rescaledAt
    ensures Run(JobState(registered, 0), hs).lastRun >= LastEnd(registered, hs)
  {
    if hs != [] {
      var before, h := hs[..|hs| - 1], hs[|hs| - 1];
      LastRunCoversLastEnd(registered, before);
      RescaleNeverMovesBack(Run(JobState(registered, 0), before), h);
    }
  }

  /** Whatever settings came before (off, on, larger, smaller) and whatever failed, an attempt made
      under interval I starts at least I after the previous one ended, or after registration. */
  lemma {:induction false} AttemptsAreSpaced(registered: int, hs: seq<Heartbeat>, k: nat)
    requires forall i :: 0 <= i < |hs| ==> hs[i].elapsedAt <= hs[i].rescaledAt
    requires k < |hs| && hs[k].Representable()
    requires Attempts(Run(JobState(registered, 0), hs[..k]), hs[k])
    ensures hs[k].checkedAt - LastEnd(registered, hs[..k]) >= hs[k].intervalSecs * SECOND
  {
    LastRunCoversLastEnd(registered, hs[..k]);
    RescaleNeverMovesBack(Run(JobState(registered, 0), hs[..k]), hs[k]);
  }

  // ----- Switched off -----

  predicate SwitchedOn(h: Heartbeat) { h.intervalSecs > 0 }

  /** Beats with the setting off attempt nothing, and leave no trace in what later beats do: the run, its end and the
      time of its last attempt are those of the other beats alone. */
  lemma {:induction false} OffBeatsLeaveNoTrace(s: JobState, hs: seq<Heartbeat>, registered: int)
    ensures Run(s, hs) == Run(s, Filter(SwitchedOn, hs))
    ensures LastEnd(registered, hs) == LastEnd(registered, Filter(SwitchedOn, hs))
    ensures forall k :: 0 <= k < |hs| && hs[k].intervalSecs <= 0 ==> !Attempts(Run(s, hs[..k]), hs[k])
    decreases |hs|
  {
    if hs != [] {
      hide Attempts, RescaledLastRun;
      var init, last := hs[..|hs| - 1], hs[|hs| - 1];
      assert hs == init + [last];
      FilterStep(SwitchedOn, init, last);
      OffBeatsLeaveNoTrace(s, init, registered);
      OffBeatsLeaveNoTrace(JobState(registered, 0), init, registered);
      LastBeat(s, registered, Filter(SwitchedOn, init), last);
      forall k | 0 <= k < |hs| && hs[k].intervalSecs <= 0 ensures !Attempts(Run(s, hs[..k]), hs[k]) {
        OffBeatIsQuiet(Run(s, hs[..k]), hs[k]);
      }
      OffBeatIsQuiet(Run(s, init), last);
      OffBeatIsQuiet(Run(JobState(registered, 0), init), last);
    }
  }

  lemma {:induction false} OffBeatIsQuiet(s: JobState, h: Heartbeat)
    ensures h.intervalSecs <= 0 ==> !Attempts(s, h) && Step(s, h) == s
  {}

  lemma {:induction false} LastBeat(s: JobState, registered: int, before: seq<Heartbeat>, h: Heartbeat)
    ensures Run(s, before + [h]) == Step(Run(s, before), h)
    ensures LastEnd(registered, before + [h])
         == if Attempts(Run(JobState(registered, 0), before), h) then h.finishedAt else LastEnd(registered, before)
  {
    assert (before + [h])[..|before|] == before;
  }

  // ----- Shrinking the interval -----

  lemma {:induction false} DivBelow(x: int, d: int, q: int)
    requires d > 0
    ensures x / d >= q <==> x >= q * d
  {
    assert x == x / d * d + x % d;
    if x / d >= q {
      assert x / d * d >= q * d;
    } else {
      assert (x / d + 1) * d <= q * d;
    }
  }

  lemma {:induction false} MulMonotone(a: int, b: int, c: int)
    requires c > 0
    ensures a * c >= c * b <==> a >= b
  {
    assert (a - b) * c == a * c - c * b;
  }

  /** The floor in the rescale does not change whether a backup is due. */
  lemma {:induction false} FloorKeepsDueness(elapsed: int, interval: int, lastInterval: int)
    requires 0 <= elapsed && 0 < interval < lastInterval
    ensures elapsed * interval / lastInterval >= interval <==> elapsed >= lastInterval
  {
    DivBelow(elapsed * interval, lastInterval, interval);
    MulMonotone(elapsed, lastInterval, interval);
  }

  lemma {:induction false} FloorShrinks(elapsed: int, interval: int, lastInterval: int)
    requires 0 < elapsed && 0 < interval < lastInterval
    ensures 0 <= elapsed * interval / lastInterval < elapsed
  {
    assert elapsed * interval < elapsed * lastInterval;
    DivBelow(elapsed * interval, lastInterval, elapsed);
    DivBelow(elapsed * interval, lastInterval, 0);
  }

  lemma {:induction false} ScaledReaches(product: int, interval: int, lastInterval: int)
    requires interval > 0 && lastInterval > 0
    ensures TruncDiv(product, lastInterval) >= interval <==> product >= interval * lastInterval
  {
    assert interval * lastInterval > 0;
    if product >= 0 {
      DivBelow(product, lastInterval, interval);
    } else {
      DivBelow(-product, lastInterval, 0);
    }
  }

  lemma {:induction false} ScaledBelowAge(elapsed: int, interval: int, lastInterval: int)
    requires 0 < elapsed < INT64_LIMIT && 0 < interval < lastInterval
    ensures Scaled(elapsed, interval, lastInterval) < elapsed
  {
    var product := Wrap64(elapsed * interval);
    if product >= 0 {
      FloorShrinks(elapsed, interval, lastInterval);
      DivBelow(elapsed * interval, lastInterval, product / lastInterval);
      DivBelow(product, lastInterval, product / lastInterval);
    } else {
      DivBelow(-product, lastInterval, 0);
    }
  }

  /** At one clock reading, the beat that shrinks the interval attempts a backup exactly when the product,
      as it is stored, reaches the new interval times the old. */
  lemma {:induction false} ShrinkingBeatAttempts(s: JobState, h: Heartbeat)
    requires h.elapsedAt == h.rescaledAt == h.checkedAt && s.lastRun <= h.checkedAt
    requires h.Representable() && h.Interval() < s.lastInterval
    ensures Attempts(s, h) <==> Wrap64(Since(h.checkedAt, s.lastRun) * h.Interval()) >= h.Interval() * s.lastInterval
  {
    hide Wrap64, TruncDiv;
    var elapsed, interval := Since(h.checkedAt, s.lastRun), h.Interval();
    ScaledReaches(Wrap64(elapsed * interval), interval, s.lastInterval);
    if elapsed > 0 {
      ScaledBelowAge(elapsed, interval, s.lastInterval);
    } else {
      assert elapsed * interval == 0;
      assert interval * s.lastInterval > 0;
    }
  }

  /** That beat attempts exactly when a backup was due under the old interval, if and only if none was due or
      the product, as it is stored, reaches the new interval times the old. */
  lemma {:induction false} ShrinkKeepsDueness(s: JobState, h: Heartbeat)
    requires h.elapsedAt == h.rescaledAt == h.checkedAt && s.lastRun <= h.checkedAt
    requires h.Representable() && h.Interval() < s.lastInterval < INT64_LIMIT
    ensures (Attempts(s, h) <==> h.checkedAt - s.lastRun >= s.lastInterval)
       <==> h.checkedAt - s.lastRun < s.lastInterval
            || Wrap64(Since(h.checkedAt, s.lastRun) * h.Interval()) >= h.Interval() * s.lastInterval
  {
    hide Wrap64, Attempts;
    ShrinkingBeatAttempts(s, h);
    var elapsed, interval := Since(h.checkedAt, s.lastRun), h.Interval();
    assert elapsed >= 0 && (elapsed < s.lastInterval <==> h.checkedAt - s.lastRun < s.lastInterval);
    NotDueNotReached(elapsed, interval, s.lastInterval);
  }

  lemma {:induction false} NotDueNotReached(elapsed: int, interval: int, lastInterval: int)
    requires 0 <= elapsed && 0 < interval
    ensures elapsed < lastInterval ==> Wrap64(elapsed * interval) < interval * lastInterval
  {
    hide Wrap64;
    assert 0 <= elapsed * interval;
    WrapNotAbove(elapsed * interval);
    MulMonotone(elapsed, lastInterval, interval);
  }

  lemma {:induction false} WrapNotAbove(x: int)
    requires x >= 0
    ensures Wrap64(x) <= x
  {}

  lemma {:induction false} AtMostProduct(a: int, b: int)
    requires 0 <= a && 0 < b
    ensures 0 <= a <= a * b
  {}

  /** While the product of age and interval fits, due-ness is kept. */
  lemma {:induction false} FittingShrinkKeepsDueness(s: JobState, h: Heartbeat)
    requires h.elapsedAt == h.rescaledAt == h.checkedAt && s.lastRun <= h.checkedAt
    requires h.Representable() && h.Interval() < s.lastInterval
    requires (h.checkedAt - s.lastRun) * h.Interval() < INT64_LIMIT
    ensures Attempts(s, h) <==> h.checkedAt - s.lastRun >= s.lastInterval
  {
    var elapsed, interval := h.checkedAt - s.lastRun, h.Interval();
    assert interval > 0;
    hide Attempts, Heartbeat.Interval, Wrap64;
    AtMostProduct(elapsed, interval);
    ShrinkingBeatAttempts(s, h);
    MulMonotone(elapsed, s.lastInterval, interval);
  }

  /** The greatest age a rescale can leave. */
  function ScaledLimit(lastInterval: int): int
    requires lastInterval > 0
  {
    (INT64_LIMIT - 1) / lastInterval
  }

  lemma {:induction false} ScaledNotAbove(elapsed: int, interval: int, lastInterval: int)
    requires lastInterval > 0
    ensures Scaled(elapsed, interval, lastInterval) <= ScaledLimit(lastInterval)
  {
    var wrapped, limit := Wrap64(elapsed * interval), ScaledLimit(lastInterval);
    DivBelow(INT64_LIMIT - 1, lastInterval, 0);
    if wrapped >= 0 {
      DivBelow(INT64_LIMIT - 1, lastInterval, wrapped / lastInterval);
      DivBelow(wrapped, lastInterval, wrapped / lastInterval);
    } else {
      DivBelow(-wrapped, lastInterval, 0);
    }
  }

  /** When two intervals multiply to 2^63 or more, as any two above about three seconds do, the greatest age a rescale
      can leave is below the new interval. */
  lemma {:induction false} LargeIntervals(interval: int, lastInterval: int)
    requires lastInterval > 0
    ensures interval * lastInterval >= INT64_LIMIT <==> ScaledLimit(lastInterval) < interval
  {
    DivBelow(INT64_LIMIT - 1, lastInterval, interval);
  }

  /** The beat that shrinks the interval does not attempt, however long the backup is overdue, while the time between
      its clock readings is less than the new interval exceeds the greatest age a rescale can leave. The readings
      are the last two, or the first and the last when there is no age to rescale. */
  lemma {:induction false} LargeIntervalsNeverAttemptOnShrink(s: JobState, h: Heartbeat)
    requires s.lastRun <= h.elapsedAt <= h.rescaledAt <= h.checkedAt
    requires h.Representable() && h.Interval() < s.lastInterval
    requires h.checkedAt - (if s.lastRun < h.elapsedAt then h.rescaledAt else h.elapsedAt)
           < h.Interval() - ScaledLimit(s.lastInterval)
    ensures !Attempts(s, h)
  {
    hide Wrap64, TruncDiv, Scaled;
    var elapsed, interval := Since(h.elapsedAt, s.lastRun), h.Interval();
    ScaledNotAbove(elapsed, interval, s.lastInterval);
    DivBelow(INT64_LIMIT - 1, s.lastInterval, 0);
    if elapsed > 0 {
      ScaledBelowAge(elapsed, interval, s.lastInterval);
    }
  }

  /** The stored age is the exact proportional one if and only if the product fits in an int64. */
  lemma {:induction false} RescaleIsExactIffProductFits(elapsed: int, interval: int, lastInterval: int)
    requires 0 <= elapsed && 0 < interval && 0 < lastInterval < INT64_LIMIT
    ensures Scaled(elapsed, interval, lastInterval) == elapsed * interval / lastInterval
       <==> elapsed * interval < INT64_LIMIT
  {
    var product := elapsed * interval;
    assert product >= 0;
    if product >= INT64_LIMIT {
      var wrapped := Wrap64(product);
      assert wrapped + INT64_SPAN <= product;
      DivBelow(product, lastInterval, product / lastInterval + 1);
      if wrapped >= 0 {
        DivBelow(wrapped, lastInterval, product / lastInterval);
      } else {
        DivBelow(product, lastInterval, 1);
        DivBelow(-wrapped, lastInterval, 0);
      }
    }
  }

  /** A whole hour has passed under a one-hour interval and the setting drops to 30 seconds:
      the product overflows, and the backup that was due is put off. */
  lemma {:induction false} OverflowLosesDueBackup()
    ensures var s := JobState(0, 3600 * SECOND);
            var t := 3600 * SECOND;
            var h := Heartbeat(30, t, t, t, t, false);
            t - s.lastRun >= s.lastInterval && !Attempts(s, h)
  {}

  lemma {:induction false} ScaledNotBelow(elapsed: int, interval: int, lastInterval: int)
    requires lastInterval > 0
    ensures Scaled(elapsed, interval, lastInterval) >= -(INT64_LIMIT / lastInterval)
  {
    var wrapped := Wrap64(elapsed * interval);
    if wrapped < 0 {
      DivBelow(-wrapped, lastInterval, INT64_LIMIT / lastInterval + 1);
      DivBelow(INT64_LIMIT, lastInterval, INT64_LIMIT / lastInterval + 1);
    } else {
      DivBelow(wrapped, lastInterval, 0);
      DivBelow(INT64_LIMIT, lastInterval, 0);
    }
  }

  /** What an overflow can cost: the base time lands at most 2^63 / lastInterval after the beat. */
  lemma {:induction false} OverflowDelayIsBounded(s: JobState, h: Heartbeat)
    requires s.lastInterval > 0
    ensures RescaledLastRun(s, h) <= Later(s.lastRun, h.rescaledAt + INT64_LIMIT / s.lastInterval)
  {
    ScaledNotBelow(Since(h.elapsedAt, s.lastRun), h.Interval(), s.lastInterval);
  }

  function Later(a: int, b: int): int { if a < b then b else a }

  // ----- Attempts do happen -----

  /** Every beat at the interval, none further than gap from the one before it. */
  ghost predicate Steady(start: int, hs: seq<Heartbeat>, secs: int, gap: int) {
    forall i :: 0 <= i < |hs| ==>
      && hs[i].intervalSecs == secs
      && hs[i].Ordered()
      && hs[i].checkedAt - (if i == 0 then start else hs[i - 1].checkedAt) <= gap
  }

  lemma {:induction false} AfterBeatNotDue(s: JobState, h: Heartbeat)
    requires h.Ordered() && h.Representable()
    ensures Step(s, h).lastInterval == h.intervalSecs * SECOND
    ensures h.checkedAt - Step(s, h).lastRun < h.intervalSecs * SECOND
  {}

  /** The latest base time a beat can leave: the end of its attempt, the base time before it, or as far
      after it as an overflow can reach. */
  function LatestBase(s: JobState, h: Heartbeat): int {
    var bound := Later(s.lastRun, h.finishedAt);
    if s.lastInterval > 0 then Later(bound, h.rescaledAt + INT64_LIMIT / s.lastInterval) else bound
  }

  lemma {:induction false} BaseTimeIsBounded(s: JobState, h: Heartbeat)
    ensures Step(s, h).lastRun <= LatestBase(s, h)
  {
    hide Scaled, Since;
    if s.lastInterval > 0 {
      OverflowDelayIsBounded(s, h);
    }
  }

  /** A beat at the interval already in force rescales nothing. */
  lemma {:induction false} SteadyStep(s: JobState, h: Heartbeat)
    requires h.Representable() && h.Interval() == s.lastInterval
    ensures Attempts(s, h) <==> h.checkedAt >= s.lastRun + s.lastInterval
    ensures !Attempts(s, h) ==> Step(s, h) == s
  {}

  /** Beats at interval that never reach the base time plus the interval are quiet and change nothing. */
  lemma {:induction false} EarlyBeatsAreQuiet(s: JobState, hs: seq<Heartbeat>)
    requires forall i :: 0 <= i < |hs| ==> hs[i].Representable() && hs[i].Interval() == s.lastInterval
    requires forall i :: 0 <= i < |hs| ==> hs[i].checkedAt < s.lastRun + s.lastInterval
    ensures Run(s, hs) == s
  {
    if hs != [] {
      EarlyBeatsAreQuiet(s, hs[..|hs| - 1]);
      SteadyStep(s, hs[|hs| - 1]);
    }
  }

  /** Once the interval stays at I with beats at most gap apart, the first beat to reach the base time
      plus I is the first to attempt, and it comes before the base time plus I plus gap. */
  lemma {:induction false} NextAttemptWithinIntervalPlusGap(
      s: JobState, hs: seq<Heartbeat>, start: int, secs: int, gap: int)
    returns (k: nat)
    requires 0 < secs * SECOND < INT64_LIMIT && s.lastInterval == secs * SECOND
    requires start - s.lastRun < secs * SECOND
    requires hs != [] && Steady(start, hs, secs, gap)
    requires hs[|hs| - 1].checkedAt >= s.lastRun + secs * SECOND
    ensures k < |hs| && Attempts(Run(s, hs[..k]), hs[k])
    ensures forall j :: 0 <= j < k ==> !Attempts(Run(s, hs[..j]), hs[j])
    ensures hs[k].checkedAt < s.lastRun + secs * SECOND + gap
  {
    k := 0;
    while hs[k].checkedAt < s.lastRun + s.lastInterval
      invariant k < |hs|
      invariant forall j :: 0 <= j < k ==> hs[j].checkedAt < s.lastRun + s.lastInterval
      decreases |hs| - k
    {
      k := k + 1;
    }
    assert hs[k].checkedAt - (if k == 0 then start else hs[k - 1].checkedAt) <= gap;
    forall j | 0 <= j <= k ensures Attempts(Run(s, hs[..j]), hs[j]) <==> j == k {
      EarlyBeatsAreQuiet(s, hs[..j]);
      SteadyStep(s, hs[j]);
    }
  }

  /** After any beat at all, an overflowing one included: once the interval it reads stays in force with beats at
      most gap apart, the next attempt comes before the latest base time it can leave plus I plus gap. */
  lemma {:induction false} NextAttemptAfterAnyBeat(
      s: JobState, h: Heartbeat, hs: seq<Heartbeat>, gap: int) returns (k: nat)
    requires h.Ordered() && h.Representable()
    requires hs != [] && Steady(h.checkedAt, hs, h.intervalSecs, gap)
    requires hs[|hs| - 1].checkedAt >= LatestBase(s, h) + h.intervalSecs * SECOND
    ensures k < |hs| && Attempts(Run(Step(s, h), hs[..k]), hs[k])
    ensures forall j :: 0 <= j < k ==> !Attempts(Run(Step(s, h), hs[..j]), hs[j])
    ensures hs[k].checkedAt < LatestBase(s, h) + h.intervalSecs * SECOND + gap
  {
    AfterBeatNotDue(s, h);
    BaseTimeIsBounded(s, h);
    hide Step, Attempts, LatestBase;
    k := NextAttemptWithinIntervalPlusGap(Step(s, h), hs, h.checkedAt, h.intervalSecs, gap);
  }
}
