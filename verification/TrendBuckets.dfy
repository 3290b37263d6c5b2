/** The window of a download trend and the buckets it is cut into. Times are milliseconds. */
module TrendBuckets {
  import opened Wrappers

  const MINUTE := 60_000
  const HOUR := 60 * MINUTE
  const DAY := 24 * HOUR

  datatype Window = Window(from: int, to: int)

  /** A bound as the request gives it. */
  datatype Bound = Absent | Malformed | At(time: int)

  function TrendWindow(from: Bound, to: Bound, now: int): (w: Option<Window>)
    ensures w.Some? ==> 0 < w.value.to - w.value.from <= 30 * DAY
    ensures w.None? <==> from.Malformed? || to.Malformed? || from.Absent? != to.Absent?
                         || (from.At? && to.At? && !(0 < to.time - from.time <= 30 * DAY))
  {
    if from.Absent? != to.Absent? then None
    else if from.Absent? then Some(Window(now - DAY, now))
    else if from.Malformed? || to.Malformed? || from.time >= to.time || to.time - from.time > 30 * DAY then None
    else Some(Window(from.time, to.time))
  }

  datatype Kind = ByMinute | ByHour | ByDay
  {
    function Step(): int { if ByMinute? then MINUTE else if ByHour? then HOUR else DAY }
  }

  function BucketKind(w: Window): Kind {
    var span := w.to - w.from;
    if span <= DAY then ByMinute else if span <= 7 * DAY then ByHour else ByDay
  }

  datatype Bucket = Bucket(from: int, to: int)

  predicate IsStep(n: int) { n == MINUTE || n == HOUR || n == DAY }

  /** The greatest multiple of n at or below x. */
  function Floor(x: int, n: int): (r: int)
    requires IsStep(n)
    ensures r <= x < r + n && r % n == 0
  {
    x - x % n
  }

  /** The least multiple of n at or above x. */
  function Ceil(x: int, n: int): (r: int)
    requires IsStep(n)
    ensures x <= r < x + n && r % n == 0
  {
    -Floor(-x, n)
  }

  lemma {:induction false} StepOn(x: int, n: int)
    requires IsStep(n) && x % n == 0
    ensures (x + n) % n == 0
  {
    if n == MINUTE {
      assert (x + MINUTE) % MINUTE == 0;
    } else if n == HOUR {
      assert (x + HOUR) % HOUR == 0;
    } else {
      assert (x + DAY) % DAY == 0;
    }
  }

  /** Different multiples are a whole step apart. */
  lemma {:induction false} MultiplesApart(x: int, y: int, n: int)
    requires IsStep(n) && x % n == 0 && y % n == 0 && x < y
    ensures x + n <= y
  {
    if n == MINUTE {
      assert x % MINUTE == 0 && y % MINUTE == 0;
    } else if n == HOUR {
      assert x % HOUR == 0 && y % HOUR == 0;
    } else {
      assert x % DAY == 0 && y % DAY == 0;
    }
  }

  /** Buckets from a start up to and including the one that starts at last. */
  function BucketsFrom(cursor: int, last: int, step: int): seq<Bucket>
    requires step > 0
    decreases last - cursor
  {
    if cursor > last then [] else [Bucket(cursor, cursor + step)] + BucketsFrom(cursor + step, last, step)
  }

  function FirstMark(w: Window): int { Ceil(w.from, MINUTE) }

  function EndMark(w: Window): int { Ceil(w.to, MINUTE) }

  function BucketsOf(w: Window, kind: Kind): seq<Bucket> {
    if FirstMark(w) >= EndMark(w) then []
    else BucketsFrom(Floor(FirstMark(w), kind.Step()), Floor(EndMark(w) - MINUTE, kind.Step()), kind.Step())
  }

  lemma {:induction false} KindIsStep(kind: Kind)
    ensures IsStep(kind.Step())
  {}

  method DownloadTrendBuckets(w: Window, kind: Kind) returns (buckets: seq<Bucket>)
    ensures buckets == BucketsOf(w, kind)
  {
    hide Ceil, Floor, Kind.Step;
    var step := kind.Step();
    assert IsStep(step) by { KindIsStep(kind); }
    var firstMark, endMark := Ceil(w.from, MINUTE), Ceil(w.to, MINUTE);
    if firstMark >= endMark {
      return [];
    }
    var last := Floor(endMark - MINUTE, step);
    var cursor := Floor(firstMark, step);
    buckets := [];
    while cursor <= last
      invariant buckets + BucketsFrom(cursor, last, step) == BucketsOf(w, kind)
      decreases last - cursor
    {
      buckets := buckets + [Bucket(cursor, cursor + step)];
      cursor := cursor + step;
    }
  }

  // ----- What the buckets cover -----

  predicate IsMark(w: Window, m: int) { m % MINUTE == 0 && w.from <= m < w.to }

  predicate Holds(b: Bucket, m: int) { b.from <= m < b.to }

  ghost predicate Contiguous(bs: seq<Bucket>, step: int)
    requires step > 0
  {
    && (forall i :: 0 <= i < |bs| ==> bs[i].from % step == 0 && bs[i].to == bs[i].from + step)
    && forall i :: 0 < i < |bs| ==> bs[i].from == bs[i - 1].to
  }

  lemma {:induction false} BucketsAreContiguous(cursor: int, last: int, step: int)
    requires IsStep(step) && cursor % step == 0 && last % step == 0
    ensures var bs := BucketsFrom(cursor, last, step);
            && Contiguous(bs, step)
            && if cursor <= last then |bs| > 0 && bs[0].from == cursor && bs[|bs| - 1].from == last else bs == []
    decreases last - cursor
  {
    if cursor <= last {
      StepOn(cursor, step);
      BucketsAreContiguous(cursor + step, last, step);
      if cursor < last {
        MultiplesApart(cursor, last, step);
      }
      OneMoreBucket(cursor, BucketsFrom(cursor + step, last, step), step);
    }
  }

  lemma {:induction false} OneMoreBucket(cursor: int, rest: seq<Bucket>, step: int)
    requires step > 0 && cursor % step == 0 && Contiguous(rest, step) && (rest != [] ==> rest[0].from == cursor + step)
    ensures Contiguous([Bucket(cursor, cursor + step)] + rest, step)
  {
    var bs := [Bucket(cursor, cursor + step)] + rest;
    assert forall i :: 0 < i < |bs| ==> bs[i] == rest[i - 1];
  }

  lemma {:induction false} CountTimesStep(cursor: int, last: int, step: int)
    requires IsStep(step) && cursor % step == 0 && last % step == 0 && cursor <= last
    ensures |BucketsFrom(cursor, last, step)| * step == last - cursor + step
    decreases last - cursor
  {
    var rest := BucketsFrom(cursor + step, last, step);
    if cursor < last {
      MultiplesApart(cursor, last, step);
      StepOn(cursor, step);
      CountTimesStep(cursor + step, last, step);
      OneMore(|rest|, step);
    }
  }

  lemma {:induction false} OneMore(n: nat, step: int)
    ensures (n + 1) * step == n * step + step
  {}

  lemma {:induction false} FromIsCovered(cursor: int, last: int, step: int, m: int) returns (k: nat)
    requires IsStep(step) && cursor % step == 0 && last % step == 0 && cursor <= m < last + step
    ensures k < |BucketsFrom(cursor, last, step)| && Holds(BucketsFrom(cursor, last, step)[k], m)
    decreases last - cursor
  {
    assert cursor <= last by {
      if last < cursor {
        MultiplesApart(last, cursor, step);
      }
    }
    if m < cursor + step {
      k := 0;
    } else {
      StepOn(cursor, step);
      k := FromIsCovered(cursor + step, last, step, m);
      k := k + 1;
    }
  }

  lemma {:induction false} HeldOnce(bs: seq<Bucket>, step: int, i: nat, j: nat)
    requires step > 0 && Contiguous(bs, step) && i <= j < |bs|
    ensures bs[i].from <= bs[j].from && (i < j ==> bs[i].to <= bs[j].from)
    decreases j - i
  {
    if i < j {
      HeldOnce(bs, step, i, j - 1);
      assert bs[j].from == bs[j - 1].to;
    }
  }

  /** The marks of the window are the minutes from its first mark up to the last one before its end mark. */
  lemma {:induction false} MarksOfWindow(w: Window, m: int)
    ensures IsMark(w, m) <==> m % MINUTE == 0 && FirstMark(w) <= m <= EndMark(w) - MINUTE
  {
    hide Floor, Ceil;
    var first, end := FirstMark(w), EndMark(w);
    if m % MINUTE == 0 {
      if w.from <= m < first {
        MultiplesApart(m, first, MINUTE);
      }
      if m < end {
        MultiplesApart(m, end, MINUTE);
      }
    }
  }

  /** The buckets are contiguous and aligned to their step; every minute mark of the window lies in exactly
      one of them; the first and the last hold a mark; and there are none exactly when there is no mark. */
  lemma {:induction false} BucketsCoverTheWindow(w: Window, kind: Kind)
    ensures var bs := BucketsOf(w, kind);
            && Contiguous(bs, kind.Step())
            && (forall m :: IsMark(w, m) ==> HeldByExactlyOne(bs, m))
            && (bs == [] <==> forall m :: !IsMark(w, m))
            && (bs != [] ==>
                (exists m :: IsMark(w, m) && Holds(bs[0], m)) && exists m :: IsMark(w, m) && Holds(bs[|bs| - 1], m))
  {
    hide Floor, Ceil, HeldByExactlyOne, IsMark;
    var bs, step := BucketsOf(w, kind), kind.Step();
    var first, end := FirstMark(w), EndMark(w);
    if first < end {
      MultiplesApart(first, end, MINUTE);
      LastMark(end);
      MarksOfWindow(w, first);
      MarksOfWindow(w, end - MINUTE);
      assert IsMark(w, first) && IsMark(w, end - MINUTE);
      var start, last := Floor(first, step), Floor(end - MINUTE, step);
      Ordered(first, end - MINUTE, step);
      BucketsAreContiguous(start, last, step);
      assert Holds(bs[0], first) && Holds(bs[|bs| - 1], end - MINUTE);
      forall m | IsMark(w, m) ensures HeldByExactlyOne(bs, m) {
        MarksOfWindow(w, m);
        OneBucketOnly(start, last, step, m);
      }
    } else {
      forall m ensures !IsMark(w, m) {
        MarksOfWindow(w, m);
      }
    }
  }

  ghost predicate HeldByExactlyOne(bs: seq<Bucket>, m: int) {
    exists k :: 0 <= k < |bs| && Holds(bs[k], m) && forall i :: 0 <= i < |bs| && Holds(bs[i], m) ==> i == k
  }

  lemma {:induction false} LastMark(end: int)
    requires end % MINUTE == 0
    ensures (end - MINUTE) % MINUTE == 0
  {}

  lemma {:induction false} Ordered(x: int, y: int, step: int)
    requires IsStep(step) && x <= y
    ensures Floor(x, step) <= Floor(y, step)
  {
    hide Floor;
    if Floor(y, step) < Floor(x, step) {
      MultiplesApart(Floor(y, step), Floor(x, step), step);
    }
  }

  lemma {:induction false} OneBucketOnly(start: int, last: int, step: int, m: int)
    requires IsStep(step) && start % step == 0 && last % step == 0 && start <= m < last + step
    ensures HeldByExactlyOne(BucketsFrom(start, last, step), m)
  {
    var bs := BucketsFrom(start, last, step);
    BucketsAreContiguous(start, last, step);
    var k := FromIsCovered(start, last, step, m);
    forall i | 0 <= i < |bs| && Holds(bs[i], m) ensures i == k {
      if i < k {
        HeldOnce(bs, step, i, k);
      } else {
        HeldOnce(bs, step, k, i);
      }
    }
  }

  lemma {:induction false} BucketsCounted(w: Window, kind: Kind)
    requires FirstMark(w) < EndMark(w)
    ensures var start := Floor(FirstMark(w), kind.Step());
            |BucketsOf(w, kind)| * kind.Step() == Floor(EndMark(w) - MINUTE, kind.Step()) - start + kind.Step()
    ensures FirstMark(w) <= EndMark(w) - MINUTE
  {
    hide Floor, Ceil, BucketsFrom;
    var step, first, end := kind.Step(), FirstMark(w), EndMark(w);
    MultiplesApart(first, end, MINUTE);
    Ordered(first, end - MINUTE, step);
    CountTimesStep(Floor(first, step), Floor(end - MINUTE, step), step);
  }

  /** An accepted window has at most 1440 buckets; by hour at most 169, by day at most 31. */
  lemma {:induction false} AcceptedWindowsHaveFewBuckets(from: Bound, to: Bound, now: int)
    requires TrendWindow(from, to, now).Some?
    ensures var w := TrendWindow(from, to, now).value;
            var kind := BucketKind(w);
            |BucketsOf(w, kind)| <= if kind.ByMinute? then 1440 else if kind.ByHour? then 169 else 31
  {
    var w := TrendWindow(from, to, now).value;
    var kind := BucketKind(w);
    if FirstMark(w) < EndMark(w) {
      hide *;
      BucketsCounted(w, kind);
      FewBuckets(|BucketsOf(w, kind)|, w, kind, FirstMark(w), EndMark(w), Floor(FirstMark(w), kind.Step()),
                 Floor(EndMark(w) - MINUTE, kind.Step()));
    }
  }

  lemma {:induction false} FewBuckets(n: nat, w: Window, kind: Kind, first: int, end: int, start: int, last: int)
    requires 0 < w.to - w.from <= 30 * DAY && kind == BucketKind(w)
    requires w.from <= first && end < w.to + MINUTE && first % MINUTE == 0 && end % MINUTE == 0
    requires first < start + kind.Step() && last <= end - MINUTE && start % kind.Step() == 0
    requires n * kind.Step() == last - start + kind.Step()
    ensures n <= if kind.ByMinute? then 1440 else if kind.ByHour? then 169 else 31
  {
    match kind
    case ByMinute => CountByMinute(n, w.from, w.to, first, end, start, last);
    case ByHour => assert n * HOUR < w.to - w.from + 2 * HOUR;
    case ByDay => assert n * DAY < w.to - w.from + 2 * DAY;
  }

  /** Marks of a span of at most a day: the ends are rounded up together. */
  lemma {:induction false} CountByMinute(n: nat, from: int, to: int, first: int, end: int, start: int, last: int)
    requires to - from <= DAY && from <= first && end < to + MINUTE && first % MINUTE == 0 && end % MINUTE == 0
    requires n * MINUTE == last - start + MINUTE && last <= end - MINUTE && first < start + MINUTE
    requires start % MINUTE == 0
    ensures n <= 1440
  {
    if start < first {
      MultiplesApart(start, first, MINUTE);
    }
    assert n * MINUTE <= end - first < DAY + MINUTE;
  }

  /** An accepted window and its buckets, written out: the last day, or what was asked for; in minutes up to one day, in
      hours up to seven, in days beyond. */
  lemma {:induction false} TrendWrittenOut(from: Bound, to: Bound, now: int)
    requires TrendWindow(from, to, now).Some?
    ensures var w := TrendWindow(from, to, now).value;
            var step := if w.to - w.from <= 86_400_000 then 60_000
                        else if w.to - w.from <= 7 * 86_400_000 then 3_600_000
                        else 86_400_000;
            && w.to == (if to.At? then to.time else now)
            && w.from == (if from.At? then from.time else now - 86_400_000)
            && forall b :: b in BucketsOf(w, BucketKind(w)) ==> b.to - b.from == step && b.from % step == 0
  {
    var w := TrendWindow(from, to, now).value;
    BucketsCoverTheWindow(w, BucketKind(w));
    hide BucketsOf, HeldByExactlyOne, IsMark, Holds;
  }
}
