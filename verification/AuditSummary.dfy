/** The overview computed over the events of a snapshot: totals, rates and the trend. */
module AuditSummary {
  import opened Wrappers
  import opened Text
  import opened Rfc3339
  import opened AuditEvents
  import opened AuditGroups
  import opened AuditAttention
  import opened Seqs

  const SLOW_MS := 1000

  /** The half-open bucket [from, to) and the events in it. */
  datatype TrendPoint = TrendPoint(from: Instant, to: int, total: nat, failures: nat, counts: Counts)

  /** The optional fields stay unset when there is no event at all. */
  datatype Summary = Summary(totalCount: nat, successCount: nat, failureCount: nat, highRiskCount: nat,
                             distinctActors: nat, failureRate: real, counts: Counts, trend: seq<TrendPoint>,
                             distinctClientIps: Option<nat>, slowRequests: Option<nat>,
                             clientErrors: Option<nat>, serverErrors: Option<nat>, averageDurationMs: Option<int>)

  // ----- Counters -----

  predicate IsSlow(e: Event) { e.durationMs >= SLOW_MS }

  predicate HasDuration(e: Event) { e.durationMs > 0 }

  predicate IsClientError(e: Event) { 400 <= e.statusCode < 500 }

  predicate IsServerError(e: Event) { e.statusCode >= 500 }

  function DurationSum(s: seq<Event>): int {
    if s == [] then 0 else DurationSum(s[..|s| - 1]) + if HasDuration(s[|s| - 1]) then s[|s| - 1].durationMs else 0
  }

  /** Who acted: the user id when there is one, else the name recorded by the audit source. */
  function ActorKey(e: Event): Option<string> {
    match e.userId
    case Some(id) => Some("id:" + Decimal(id))
    case None => if e.source.Audit? && e.actor != "" then Some("name:" + e.actor) else None
  }

  ghost function ActorKeys(s: seq<Event>): set<string> { set e | e in s && ActorKey(e).Some? :: ActorKey(e).value }

  ghost function ClientIps(s: seq<Event>): set<string> { set e | e in s && e.clientIp != "" :: e.clientIp }

  /** Two events count as one actor exactly when they share the user id, or have none and share the name. */
  lemma {:induction false} SameActorKey(d: Event, e: Event)
    requires ActorKey(d).Some? && ActorKey(e).Some?
    ensures ActorKey(d) == ActorKey(e) <==> d.userId == e.userId && (d.userId.None? ==> d.actor == e.actor)
  {
    if ActorKey(d) == ActorKey(e) {
      var k := ActorKey(d).value;
      assert k[0] == ActorKey(e).value[0];
      if d.userId.Some? {
        assert k[3..] == Decimal(d.userId.value) && ActorKey(e).value[3..] == Decimal(e.userId.value);
        DecimalIsInjective(d.userId.value, e.userId.value);
      } else {
        assert k[5..] == d.actor && ActorKey(e).value[5..] == e.actor;
      }
    }
  }

  /** The counters the loop over the events keeps. */
  datatype Counters = Counters(successes: nat, failures: nat, highRisk: nat, slow: nat, clientErrors: nat,
                               serverErrors: nat, durationSum: int, samples: nat, counts: Counts,
                               actors: set<string>, ips: set<string>)
  {
    ghost predicate Of(s: seq<Event>) {
      && successes == |Filter(HasSucceeded, s)| && failures == |Filter(HasFailed, s)|
      && highRisk == |Filter(IsHighRisk, s)| && slow == |Filter(IsSlow, s)|
      && clientErrors == |Filter(IsClientError, s)| && serverErrors == |Filter(IsServerError, s)|
      && durationSum == DurationSum(s) && samples == |Filter(HasDuration, s)|
      && counts == CountsOf(s) && actors == ActorKeys(s) && ips == ClientIps(s)
    }
  }

  const NO_COUNTS := Counts(0, 0, 0, 0)
  const NO_COUNTERS := Counters(0, 0, 0, 0, 0, 0, 0, 0, NO_COUNTS, {}, {})

  function One(b: bool): nat { if b then 1 else 0 }

  lemma {:induction false} CountersStep(s: seq<Event>, e: Event, c: Counters, c': Counters)
    requires c.Of(s)
    requires c'.successes == c.successes + One(HasSucceeded(e)) && c'.failures == c.failures + One(HasFailed(e))
    requires c'.highRisk == c.highRisk + One(IsHighRisk(e)) && c'.slow == c.slow + One(IsSlow(e))
    requires c'.clientErrors == c.clientErrors + One(IsClientError(e))
    requires c'.serverErrors == c.serverErrors + One(IsServerError(e))
    requires c'.durationSum == c.durationSum + (if HasDuration(e) then e.durationMs else 0)
    requires c'.samples == c.samples + One(HasDuration(e)) && c'.counts == c.counts.Increment(ClassifyCategory(e))
    requires c'.actors == c.actors + (if ActorKey(e).Some? then {ActorKey(e).value} else {})
    requires c'.ips == c.ips + (if e.clientIp != "" then {e.clientIp} else {})
    ensures c'.Of(s + [e])
  {
    hide Filter, HasSucceeded, HasFailed, IsHighRisk, IsSlow, IsClientError, IsServerError, HasDuration,
         ClassifyCategory, ActorKey,
         CountsOf, DurationSum, ActorKeys, ClientIps, Counts.Increment;
    OneMoreCounted(HasSucceeded, s, e);
    OneMoreCounted(HasFailed, s, e);
    OneMoreCounted(IsHighRisk, s, e);
    OneMoreCounted(IsSlow, s, e);
    OneMoreCounted(IsClientError, s, e);
    OneMoreCounted(IsServerError, s, e);
    OneMoreCounted(HasDuration, s, e);
    CountsStep(s, e);
    SetsStep(s, e);
  }

  lemma {:induction false} OneMoreCounted(p: Event -> bool, s: seq<Event>, e: Event)
    ensures |Filter(p, s + [e])| == |Filter(p, s)| + One(p(e))
  {
    FilterStep(p, s, e);
  }

  lemma {:induction false} SetsStep(s: seq<Event>, e: Event)
    ensures DurationSum(s + [e]) == DurationSum(s) + if HasDuration(e) then e.durationMs else 0
    ensures ActorKeys(s + [e]) == ActorKeys(s) + if ActorKey(e).Some? then {ActorKey(e).value} else {}
    ensures ClientIps(s + [e]) == ClientIps(s) + if e.clientIp != "" then {e.clientIp} else {}
  {
    hide ActorKey;
    assert (s + [e])[..|s|] == s;
    assert forall d :: d in s + [e] <==> d in s || d == e;
  }

  method Tally(c: Counters, event: Event, ghost before: seq<Event>) returns (c': Counters)
    requires c.Of(before)
    ensures c'.Of(before + [event])
  {
    OutcomesExclude(event);
    hide HasSucceeded, HasFailed, IsHighRisk, ClassifyCategory, ActorKey, Counters.Of, Counts.Increment;
    var r := TallyRequest(c, event);
    var failures, successes, highRisk := c.failures, c.successes, c.highRisk;
    if HasFailed(event) {
      failures := failures + 1;
    } else if HasSucceeded(event) {
      successes := successes + 1;
    }
    if IsHighRisk(event) {
      highRisk := highRisk + 1;
    }
    var actors := c.actors;
    match ActorKey(event) {
      case Some(actor) => actors := actors + {actor};
      case None =>
    }
    c' := r.(successes := successes, failures := failures, highRisk := highRisk, actors := actors,
             counts := c.counts.Increment(ClassifyCategory(event)));
    CountersStep(before, event, c, c');
  }

  /** The counters of the request behind an event: client, duration and status. */
  method TallyRequest(c: Counters, event: Event) returns (c': Counters)
    ensures c' == c.(ips := c.ips + (if event.clientIp != "" then {event.clientIp} else {}),
                     durationSum := c.durationSum + (if HasDuration(event) then event.durationMs else 0),
                     samples := c.samples + One(HasDuration(event)), slow := c.slow + One(IsSlow(event)),
                     clientErrors := c.clientErrors + One(IsClientError(event)),
                     serverErrors := c.serverErrors + One(IsServerError(event)))
  {
    var slow, serverErrors, clientErrors := c.slow, c.serverErrors, c.clientErrors;
    var durationSum, samples, ips := c.durationSum, c.samples, c.ips;
    if event.clientIp != "" {
      ips := ips + {event.clientIp};
    }
    if event.durationMs > 0 {
      durationSum, samples := durationSum + event.durationMs, samples + 1;
      if event.durationMs >= SLOW_MS {
        slow := slow + 1;
      }
    }
    if event.statusCode >= 500 {
      serverErrors := serverErrors + 1;
    } else if event.statusCode >= 400 {
      clientErrors := clientErrors + 1;
    }
    assert c.ips + {} == c.ips;
    c' := c.(slow := slow, serverErrors := serverErrors, clientErrors := clientErrors, durationSum := durationSum,
             samples := samples, ips := ips);
  }

  lemma {:induction false} OutcomesExclude(e: Event)
    ensures !(HasFailed(e) && HasSucceeded(e))
  {}

  // ----- The trend -----

  predicate IsTimed(e: Event) { Parsed(e).Some? }

  function Timed(s: seq<Event>): seq<Event> { Filter(IsTimed, s) }

  function BucketIn(range: int): Event -> string { (e: Event) => BucketText(Occurred(e), range) }

  function StartIn(range: int): Event -> int { (e: Event) => BucketStart(Occurred(e), range) }

  function PointOf(s: seq<Event>, range: int): TrendPoint
    requires s != []
  {
    var from := BucketStart(Occurred(s[0]), range);
    TrendPoint(from, NextBucket(from, range), |s|, |Filter(HasFailed, s)|, CountsOf(s))
  }

  /** Each point counts exactly the events of its bucket, every timed event has a point,
      and the buckets come in ascending order without overlap. */
  ghost predicate IsTrend(trend: seq<TrendPoint>, events: seq<Event>, range: int) {
    && (forall i :: 0 <= i < |trend| ==> IsPoint(trend[i], events, range))
    && (forall i, j :: 0 <= i < j < |trend| ==> trend[i].to <= trend[j].from)
    && (forall e :: e in Timed(events) ==> exists i :: 0 <= i < |trend| && trend[i].from == StartIn(range)(e))
  }

  ghost predicate IsPoint(p: TrendPoint, events: seq<Event>, range: int) {
    var s := Bucket(StartIn(range), p.from, Timed(events));
    s != [] && p == PointOf(s, range)
  }

  ghost predicate IsTrendMap(trend: map<string, TrendPoint>, groups: map<string, seq<Event>>, range: int) {
    trend.Keys == groups.Keys && forall k :: k in groups ==> groups[k] != [] && trend[k] == PointOf(groups[k], range)
  }

  ghost predicate TrendSoFar(
      trend: map<string, TrendPoint>, groups: map<string, seq<Event>>, timed: seq<Event>, range: int)
  {
    Grouped(groups, BucketIn(range), timed) && IsTrendMap(trend, groups, range)
  }

  /** One more event in the point of its bucket. */
  lemma {:induction false} TrendStep(
      trend: map<string, TrendPoint>, groups: map<string, seq<Event>>, before: seq<Event>, range: int, e: Event,
      p: TrendPoint)
    requires Grouped(groups, BucketIn(range), before) && IsTrendMap(trend, groups, range)
    requires var k, from := BucketText(Occurred(e), range), BucketStart(Occurred(e), range);
             p == if k in trend then trend[k] else TrendPoint(from, NextBucket(from, range), 0, 0, Counts(0, 0, 0, 0))
    ensures var k := BucketText(Occurred(e), range);
            var groups' := groups[k := (if k in groups then groups[k] else []) + [e]];
            var p' := p.(total := p.total + 1, failures := p.failures + One(HasFailed(e)),
                         counts := p.counts.Increment(ClassifyCategory(e)));
            Grouped(groups', BucketIn(range), before + [e]) && IsTrendMap(trend[k := p'], groups', range)
  {
    hide Filter, Bucket, BucketText, BucketStart, Occurred, ClassifyCategory, HasFailed, CountsOf;
    var k := BucketText(Occurred(e), range);
    assert BucketIn(range)(e) == k;
    GroupedSnoc(groups, BucketIn(range), before, e);
    var s := if k in groups then groups[k] else [];
    CountsStep(s, e);
    FilterStep(HasFailed, s, e);
    if k !in groups {
      NothingCounted();
    } else {
      assert (s + [e])[0] == s[0];
    }
  }

  lemma {:induction false} NothingCounted()
    ensures CountsOf([]) == Counts(0, 0, 0, 0) && Filter(HasFailed, []) == []
  {}

  method SortedKeys(keys: set<string>) returns (s: seq<string>)
    ensures forall k :: k in s <==> k in keys
    ensures forall i, j :: 0 <= i < j < |s| ==> Before(s[i], s[j])
  {
    s := [];
    var rest := keys;
    while rest != {}
      invariant rest <= keys && Distinct(s)
      invariant forall k :: k in s <==> k in keys && k !in rest
      decreases rest
    {
      var k :| k in rest;
      s, rest := s + [k], rest - {k};
    }
    SortedTextsAscend(s);
    s := SortBy(AtOrBefore, s);
  }

  lemma {:induction false} BucketsByText(range: int, t: Instant, s: seq<Event>)
    requires WholeSecond(t)
    ensures Bucket(BucketIn(range), Format(t), s) == Bucket(StartIn(range), t, s)
  {
    if s != [] {
      hide Format, BucketStart, Occurred;
      var e := s[|s| - 1];
      BucketsByText(range, t, s[..|s| - 1]);
      if BucketIn(range)(e) == Format(t) {
        FormatIsInjective(BucketStart(Occurred(e), range), t);
      }
    }
  }

  /** Listing the points by the text of their bucket lists them in time. */
  lemma {:induction false} KeysInTextOrderAreATrend(
      trend: map<string, TrendPoint>, groups: map<string, seq<Event>>, events: seq<Event>, range: int,
      keys: seq<string>, points: seq<TrendPoint>)
    requires Grouped(groups, BucketIn(range), Timed(events)) && IsTrendMap(trend, groups, range)
    requires forall k :: k in keys <==> k in trend
    requires forall i, j :: 0 <= i < j < |keys| ==> Before(keys[i], keys[j])
    requires |points| == |keys| && forall i :: 0 <= i < |keys| ==> points[i] == trend[keys[i]]
    ensures IsTrend(points, events, range)
  {
    hide Filter, Bucket, BucketText, BucketStart, Occurred, HasFailed, CountsOf, Timed, Format, Before, IsPoint,
         KeyPoint, IsTrendMap;
    assert trend.Keys == groups.Keys by { KeysOfTrend(trend, groups, range); }
    forall i | 0 <= i < |keys|
      ensures KeyPoint(keys[i], points[i], groups, range) && IsPoint(points[i], events, range)
    {
      PointOfKey(trend, groups, events, range, keys[i]);
    }
    forall i, j | 0 <= i < j < |keys| ensures points[i].to <= points[j].from {
      PointsApart(keys[i], points[i], keys[j], points[j], groups, range);
    }
    forall e | e in Timed(events) ensures exists i :: 0 <= i < |points| && points[i].from == StartIn(range)(e) {
      var k := BucketIn(range)(e);
      assert k in groups && k in keys;
      var i :| 0 <= i < |keys| && keys[i] == k;
      StartOfKey(points[i], groups, range, e);
    }
  }

  lemma {:induction false} StartOfKey(p: TrendPoint, groups: map<string, seq<Event>>, range: int, e: Event)
    requires KeyPoint(BucketIn(range)(e), p, groups, range)
    ensures p.from == StartIn(range)(e)
  {
    hide Format, BucketStart, Occurred;
    FormatIsInjective(p.from, BucketStart(Occurred(e), range));
  }

  lemma {:induction false} KeysOfTrend(trend: map<string, TrendPoint>, groups: map<string, seq<Event>>, range: int)
    requires IsTrendMap(trend, groups, range)
    ensures trend.Keys == groups.Keys
  {}

  ghost predicate KeyPoint(k: string, p: TrendPoint, groups: map<string, seq<Event>>, range: int) {
    k in groups && groups[k] != [] && p.from == BucketStart(Occurred(groups[k][0]), range)
    && p.to == NextBucket(p.from, range) && k == Format(p.from)
  }

  lemma {:induction false} PointOfKey(
      trend: map<string, TrendPoint>, groups: map<string, seq<Event>>, events: seq<Event>, range: int, k: string)
    requires Grouped(groups, BucketIn(range), Timed(events)) && IsTrendMap(trend, groups, range) && k in trend
    ensures KeyPoint(k, trend[k], groups, range) && IsPoint(trend[k], events, range)
  {
    hide Filter, Bucket, Occurred, BucketStart, HasFailed, CountsOf, Timed, Format;
    var s := groups[k];
    assert s[0] in Bucket(BucketIn(range), k, Timed(events));
    assert BucketIn(range)(s[0]) == k;
    BucketStartIsWhole(Occurred(s[0]), range);
    BucketsByText(range, trend[k].from, Timed(events));
  }

  lemma {:induction false} PointsApart(
      j: string, p: TrendPoint, k: string, q: TrendPoint, groups: map<string, seq<Event>>, range: int)
    requires KeyPoint(j, p, groups, range) && KeyPoint(k, q, groups, range) && Before(j, k)
    ensures p.to <= q.from
  {
    hide Format, BucketStart, Occurred, Before;
    var s, t := Occurred(groups[j][0]), Occurred(groups[k][0]);
    BucketStartIsWhole(s, range);
    BucketStartIsWhole(t, range);
    WholeSecondOrder(BucketStart(s, range), BucketStart(t, range));
    BucketsApart(s, t, range);
  }

  /** What the overview says of the events. */
  ghost predicate Summarises(r: Summary, events: seq<Event>, range: int) {
    var samples, finished := |Filter(HasDuration, events)|, r.successCount + r.failureCount;
    && r.totalCount == |events|
    && r.successCount == |Filter(HasSucceeded, events)| && r.failureCount == |Filter(HasFailed, events)|
    && r.highRiskCount == |Filter(IsHighRisk, events)|
    && r.distinctActors == |ActorKeys(events)|
    && r.failureRate == (if finished > 0 then r.failureCount as real / finished as real else 0.0)
    && r.counts == CountsOf(events)
    && IsTrend(r.trend, events, range)
    && if events == [] then
         r.distinctClientIps.None? && r.slowRequests.None? && r.clientErrors.None? && r.serverErrors.None?
         && r.averageDurationMs.None?
       else
         && r.distinctClientIps == Some(|ClientIps(events)|)
         && r.slowRequests == Some(|Filter(IsSlow, events)|)
         && r.clientErrors == Some(|Filter(IsClientError, events)|)
         && r.serverErrors == Some(|Filter(IsServerError, events)|)
         && r.averageDurationMs == Some(if samples > 0 then DurationSum(events) / samples else 0)
  }

  method AuditSummary(events: seq<Event>, filter: ViewFilter) returns (summary: Summary)
    ensures Summarises(summary, events, filter.Range())
  {
    hide Parsed, Counters.Of, IsTrend, TrendSoFar, Timed, Summarises, Overview;
    var range := filter.Range();
    if events == [] {
      summary := Summary(0, 0, 0, 0, 0, 0.0, NO_COUNTS, [], None, None, None, None, None);
      EmptyOverview(range);
      return;
    }
    var total := 0;
    var c := NO_COUNTERS;
    var trend: map<string, TrendPoint> := map[];
    ghost var groups: map<string, seq<Event>> := map[];
    NothingYet(range);
    for i := 0 to |events|
      invariant total == i && c.Of(events[..i])
      invariant TrendSoFar(trend, groups, Timed(events[..i]), range)
    {
      assert events[..i + 1] == events[..i] + [events[i]];
      TimedStep(events[..i], events[i]);
      total := total + 1;
      c := Tally(c, events[i], events[..i]);
      match Parsed(events[i]) {
        case None =>
        case Some(occurred) =>
          trend, groups := AddToTrend(trend, groups, Timed(events[..i]), range, events[i], occurred);
      }
    }
    assert events[..|events|] == events;
    var points := ListTrend(trend, groups, events, range);
    summary := Overview(total, c, points);
    OverviewSummarises(c, points, events, range);
  }

  /** The rates and averages of the collected counters. */
  function Overview(total: nat, c: Counters, points: seq<TrendPoint>): Summary {
    var average := if c.samples > 0 then c.durationSum / c.samples else 0;
    var finished := c.successes + c.failures;
    var rate := if finished > 0 then c.failures as real / finished as real else 0.0;
    Summary(total, c.successes, c.failures, c.highRisk, |c.actors|, rate, c.counts, points,
            Some(|c.ips|), Some(c.slow), Some(c.clientErrors), Some(c.serverErrors), Some(average))
  }

  lemma {:induction false} OverviewSummarises(c: Counters, points: seq<TrendPoint>, events: seq<Event>, range: int)
    requires events != [] && c.Of(events) && IsTrend(points, events, range)
    ensures Summarises(Overview(|events|, c, points), events, range)
  {
    hide IsTrend, Filter, DurationSum, CountsOf, ActorKeys, ClientIps;
  }

  /** Counts one timed event in the point of its bucket, creating the point on first use. */
  method AddToTrend(trend: map<string, TrendPoint>, ghost groups: map<string, seq<Event>>, ghost before: seq<Event>,
                    range: int, event: Event, occurred: Instant)
    returns (trend': map<string, TrendPoint>, ghost groups': map<string, seq<Event>>)
    requires TrendSoFar(trend, groups, before, range)
    requires Parsed(event) == Some(occurred)
    ensures TrendSoFar(trend', groups', before + [event], range)
  {
    OccurredIsParsed(event);
    hide Filter, HasFailed, ClassifyCategory, BucketText, BucketStart, Occurred, Parsed, CountsOf, Bucket, Format;
    var bucket := BucketText(occurred, range);
    var point: TrendPoint;
    if bucket in trend {
      point := trend[bucket];
    } else {
      var from := match Parse(bucket) case Some(t) => t case None => ZERO_TIME;
      BucketTextParses(occurred, range);
      point := TrendPoint(from, NextBucket(from, range), 0, 0, Counts(0, 0, 0, 0));
    }
    TrendStep(trend, groups, before, range, event, point);
    groups' := groups[bucket := (if bucket in groups then groups[bucket] else []) + [event]];
    trend' := trend[bucket := point.(total := point.total + 1, failures := point.failures + One(HasFailed(event)),
                                     counts := point.counts.Increment(ClassifyCategory(event)))];
  }

  /** Lists the points by sorting the texts of their buckets. */
  method ListTrend(
      trend: map<string, TrendPoint>, ghost groups: map<string, seq<Event>>, ghost events: seq<Event>, range: int)
    returns (points: seq<TrendPoint>)
    requires TrendSoFar(trend, groups, Timed(events), range)
    ensures IsTrend(points, events, range)
  {
    hide Filter, HasFailed, BucketText, BucketStart, Occurred, CountsOf, Bucket, IsTrend, IsTrendMap, Grouped, Timed,
         Before;
    var keys := SortedKeys(trend.Keys);
    points := [];
    for i := 0 to |keys|
      invariant |points| == i && forall j :: 0 <= j < i ==> points[j] == trend[keys[j]]
    {
      points := points + [trend[keys[i]]];
    }
    KeysInTextOrderAreATrend(trend, groups, events, range, keys, points);
  }

  lemma {:induction false} EmptyOverview(range: int)
    ensures Summarises(Summary(0, 0, 0, 0, 0, 0.0, NO_COUNTS, [], None, None, None, None, None), [], range)
  {}

  lemma {:induction false} NothingYet(range: int)
    ensures NO_COUNTERS.Of([]) && TrendSoFar(map[], map[], Timed([]), range)
  {}

  lemma {:induction false} TimedStep(s: seq<Event>, e: Event)
    ensures Timed(s + [e]) == if Parsed(e).Some? then Timed(s) + [e] else Timed(s)
  {
    hide Parsed;
    FilterStep(IsTimed, s, e);
  }

  lemma {:induction false} OccurredIsParsed(e: Event)
    requires Parsed(e).Some?
    ensures Occurred(e) == Parsed(e).value
  {}

  lemma {:induction false} BucketTextParses(at: Instant, range: int)
    ensures Parse(BucketText(at, range)) == Some(BucketStart(at, range))
  {
    ParseFormat(BucketStart(at, range));
  }

  // ----- What follows -----

  /** An event is in a point's bucket exactly when its time lies in [from, to). */
  lemma {:induction false} PointHoldsItsInterval(
      trend: seq<TrendPoint>, events: seq<Event>, range: int, i: nat, e: Event)
    requires IsTrend(trend, events, range) && i < |trend| && e in Timed(events)
    ensures e in Bucket(StartIn(range), trend[i].from, Timed(events)) <==> trend[i].from <= Occurred(e) < trend[i].to
  {
    hide Bucket, Occurred, Timed, CountsOf, HasFailed, Filter;
    assert IsPoint(trend[i], events, range);
    var d := Bucket(StartIn(range), trend[i].from, Timed(events))[0];
    assert BucketStart(Occurred(d), range) == trend[i].from;
    if BucketStart(Occurred(e), range) < trend[i].from {
      BucketsApart(Occurred(e), Occurred(d), range);
    } else if BucketStart(Occurred(e), range) > trend[i].from {
      BucketsApart(Occurred(d), Occurred(e), range);
    }
  }

  function InInterval(from: int, to: int): Event -> bool {
    (e: Event) => match Parse(e.occurredAt) case Some(t) => from <= t < to case None => false
  }

  lemma {:induction false} BucketIsInterval(range: int, from: int, to: int, events: seq<Event>)
    requires forall e :: e in Timed(events) ==> (StartIn(range)(e) == from <==> from <= Occurred(e) < to)
    ensures Bucket(StartIn(range), from, Timed(events)) == Filter(InInterval(from, to), events)
  {
    if events != [] {
      var init, e := events[..|events| - 1], events[|events| - 1];
      hide Parse, BucketStart, Occurred, StartIn, InInterval, Bucket, Filter;
      assert events == init + [e];
      TimedStep(init, e);
      BucketIsInterval(range, from, to, init);
      OneMoreInInterval(range, from, to, init, e);
    } else {
      assert Timed(events) == [];
    }
  }

  lemma {:induction false} OneMoreInInterval(range: int, from: int, to: int, init: seq<Event>, e: Event)
    requires Bucket(StartIn(range), from, Timed(init)) == Filter(InInterval(from, to), init)
    requires e in Timed(init + [e]) ==> (StartIn(range)(e) == from <==> from <= Occurred(e) < to)
    ensures Bucket(StartIn(range), from, Timed(init + [e])) == Filter(InInterval(from, to), init + [e])
  {
    InIntervalMeans(from, to, e);
    hide Parse, BucketStart, Occurred, StartIn, InInterval, Bucket;
    TimedStep(init, e);
    FilterStep(InInterval(from, to), init, e);
    if Parsed(e).Some? {
      BucketStep(StartIn(range), from, Timed(init), e);
      assert e in Timed(init) + [e];
    }
  }

  lemma {:induction false} InIntervalMeans(from: int, to: int, e: Event)
    ensures InInterval(from, to)(e) <==> Parsed(e).Some? && from <= Occurred(e) < to
  {
    hide Parse;
  }

  /** The trend written out: a point spans a minute up to a range of one day, an hour up to seven days and a day beyond,
      starts at a multiple of that, and counts exactly the events, and the failed ones, whose time lies in it. */
  lemma {:induction false} PointCountsItsInterval(trend: seq<TrendPoint>, events: seq<Event>, range: int, i: nat)
    requires IsTrend(trend, events, range) && i < |trend|
    ensures var w := if range <= 86_400 * NANOS then 60 * NANOS
                     else if range <= 7 * 86_400 * NANOS then 3_600 * NANOS
                     else 86_400 * NANOS;
            var p, inside := trend[i], Filter(InInterval(trend[i].from, trend[i].to), events);
            && p.to - p.from == w && p.from % w == 0
            && p.total == |inside| && p.failures == |Filter(HasFailed, inside)|
  {
    hide Occurred, Timed, CountsOf, HasFailed, Filter, Bucket;
    var p, s := trend[i], Bucket(StartIn(range), trend[i].from, Timed(events));
    assert IsPoint(p, events, range);
    RoundedStarts(Occurred(s[0]), AuditEvents.Step(range));
    assert s[0] in s;
    forall e | e in Timed(events) ensures StartIn(range)(e) == p.from <==> p.from <= Occurred(e) < p.to {
      PointHoldsItsInterval(trend, events, range, i, e);
    }
    BucketIsInterval(range, p.from, p.to, events);
  }

  lemma {:induction false} RoundedStarts(at: int, w: int)
    requires w in {MINUTE, HOUR, DAY}
    ensures (at - at % w) % w == 0
  {}

  /** The category counts add up to the total, in the overview and in every point, and the points'
      totals add up to the number of events whose time parses. */
  lemma {:induction false} SummaryConserves(r: Summary, events: seq<Event>, range: int)
    requires Summarises(r, events, range)
    ensures r.totalCount == r.counts.Total() == |events|
    ensures forall i :: 0 <= i < |r.trend| ==> r.trend[i].counts.Total() == r.trend[i].total > 0
    ensures Sum(Map((p: TrendPoint) => p.total as int, r.trend)) == |Timed(events)|
  {
    hide Bucket, Occurred, Timed, CountsOf, HasFailed, Filter, BucketStart;
    CountsTotal(events);
    var froms := Map((p: TrendPoint) => p.from as int, r.trend);
    var totals := Map((p: TrendPoint) => p.total as int, r.trend);
    forall i | 0 <= i < |r.trend|
      ensures r.trend[i].counts.Total() == r.trend[i].total > 0
      ensures totals[i] == |Bucket(StartIn(range), froms[i], Timed(events))|
    {
      assert IsPoint(r.trend[i], events, range);
      CountsTotal(Bucket(StartIn(range), r.trend[i].from, Timed(events)));
    }
    forall e | e in Timed(events) ensures StartIn(range)(e) in froms {
      var i :| 0 <= i < |r.trend| && r.trend[i].from == StartIn(range)(e);
      assert froms[i] == StartIn(range)(e);
    }
    forall i, j | 0 <= i < j < |froms| ensures froms[i] != froms[j] {
      assert IsPoint(r.trend[i], events, range);
    }
    BucketSizesSum(StartIn(range), froms, Timed(events), totals);
  }

  // ----- The overview written out -----

  /** Who acted: the user, or else the name recorded by the audit source. */
  datatype Identity = ById(id: nat) | ByName(name: string)

  function IdentityOf(e: Event): Option<Identity> {
    match e.userId
    case Some(id) => Some(ById(id))
    case None => if e.source == Audit && e.actor != "" then Some(ByName(e.actor)) else None
  }

  ghost function Identities(events: seq<Event>): set<Identity> {
    set e | e in events && IdentityOf(e).Some? :: IdentityOf(e).value
  }

  function KeyText(i: Identity): string {
    match i case ById(id) => "id:" + Decimal(id) case ByName(name) => "name:" + name
  }

  lemma {:induction false} KeyTextIsInjective(i: Identity, j: Identity)
    requires KeyText(i) == KeyText(j)
    ensures i == j
  {
    assert KeyText(i)[0] == KeyText(j)[0];
    match i
    case ById(id) =>
      assert KeyText(i)[3..] == Decimal(id) && KeyText(j)[3..] == Decimal(j.id);
      DecimalIsInjective(id, j.id);
    case ByName(name) => assert KeyText(i)[5..] == name && KeyText(j)[5..] == j.name;
  }

  lemma {:induction false} InjectiveImage<T, U>(s: set<T>, r: set<U>, f: T -> U)
    requires r == (set x | x in s :: f(x)) && forall x, y :: x in s && y in s && f(x) == f(y) ==> x == y
    ensures |r| == |s|
  {
    if s == {} {
      assert r == {};
    } else {
      var x :| x in s;
      assert r - {f(x)} == (set y | y in s - {x} :: f(y));
      InjectiveImage(s - {x}, r - {f(x)}, f);
    }
  }

  lemma {:induction false} ActorsAreIdentities(events: seq<Event>)
    ensures |ActorKeys(events)| == |Identities(events)|
  {
    var keys, identities := ActorKeys(events), Identities(events);
    forall e ensures ActorKey(e) == match IdentityOf(e) case Some(i) => Some(KeyText(i)) case None => None {}
    hide KeyText, ActorKey, IdentityOf;
    assert keys == (set i | i in identities :: KeyText(i)) by {
      forall e | e in events && IdentityOf(e).Some? ensures KeyText(IdentityOf(e).value) in keys {
        assert ActorKey(e).Some?;
      }
    }
    forall i, j | i in identities && j in identities && KeyText(i) == KeyText(j) ensures i == j {
      KeyTextIsInjective(i, j);
    }
    InjectiveImage(identities, keys, KeyText);
  }

  function Duration(e: Event): int { if e.durationMs > 0 then e.durationMs else 0 }

  lemma {:induction false} DurationsSum(events: seq<Event>)
    ensures DurationSum(events) == Sum(Map(Duration, events))
  {
    if events != [] {
      var init, e := events[..|events| - 1], events[|events| - 1];
      DurationsSum(init);
      assert events == init + [e];
      MapSnoc(Duration, init, e);
      SumSnoc(Map(Duration, init), Duration(e));
    }
  }

  lemma {:induction false} RequestsWrittenOut(events: seq<Event>)
    ensures |Filter(HasDuration, events)| == |Filter((e: Event) => e.durationMs > 0, events)|
    ensures |Filter(IsSlow, events)| == |Filter((e: Event) => e.durationMs >= 1000, events)|
    ensures |Filter(IsClientError, events)| == |Filter((e: Event) => 400 <= e.statusCode < 500, events)|
    ensures |Filter(IsServerError, events)| == |Filter((e: Event) => e.statusCode >= 500, events)|
  {
    hide Filter;
    FilterAgrees(HasDuration, (e: Event) => e.durationMs > 0, events);
    FilterAgrees(IsSlow, (e: Event) => e.durationMs >= 1000, events);
    FilterAgrees(IsClientError, (e: Event) => 400 <= e.statusCode < 500, events);
    FilterAgrees(IsServerError, (e: Event) => e.statusCode >= 500, events);
  }

  lemma {:induction false} OutcomesWrittenOut(events: seq<Event>)
    ensures |Filter(HasSucceeded, events)| == |Filter((e: Event) => ClassifyOutcome(e).Succeeded?, events)|
    ensures |Filter(HasFailed, events)| == |Filter((e: Event) => ClassifyOutcome(e).Failed?, events)|
    ensures forall c :: CountsOf(events).Of(c) == |Filter((e: Event) => ClassifyCategory(e) == c, events)|
  {
    hide Filter, ClassifyOutcome, ClassifyCategory;
    FilterAgrees(HasSucceeded, (e: Event) => ClassifyOutcome(e).Succeeded?, events);
    FilterAgrees(HasFailed, (e: Event) => ClassifyOutcome(e).Failed?, events);
    forall c ensures CountsOf(events).Of(c) == |Filter((e: Event) => ClassifyCategory(e) == c, events)| {
      FilterAgrees(InCategory(c), (e: Event) => ClassifyCategory(e) == c, events);
    }
  }

  /** Who acted and from where, and how often with which outcome, in terms of the events alone. */
  lemma {:induction false} OverviewWrittenOut(r: Summary, events: seq<Event>, range: int)
    requires Summarises(r, events, range) && events != []
    ensures r.totalCount == |events|
    ensures r.successCount == |Filter((e: Event) => ClassifyOutcome(e).Succeeded?, events)|
    ensures r.failureCount == |Filter((e: Event) => ClassifyOutcome(e).Failed?, events)|
    ensures r.failureRate == if r.successCount + r.failureCount == 0 then 0.0
                             else r.failureCount as real / (r.successCount + r.failureCount) as real
    ensures forall c :: r.counts.Of(c) == |Filter((e: Event) => ClassifyCategory(e) == c, events)|
    ensures r.distinctActors == |Identities(events)|
    ensures r.distinctClientIps == Some(|set e | e in events && e.clientIp != "" :: e.clientIp|)
  {
    hide Filter, ClassifyOutcome, ClassifyCategory, IsTrend, DurationSum, ActorKeys, Identities, CountsOf, HasSucceeded,
         HasFailed, HasDuration, IsSlow, IsClientError, IsServerError, IsHighRisk;
    ActorsAreIdentities(events);
    OutcomesWrittenOut(events);
  }

  /** The requests behind the events, in terms of the events alone. */
  lemma {:induction false} RequestFiguresWrittenOut(r: Summary, events: seq<Event>, range: int)
    requires Summarises(r, events, range) && events != []
    ensures r.slowRequests == Some(|Filter((e: Event) => e.durationMs >= 1000, events)|)
    ensures r.clientErrors == Some(|Filter((e: Event) => 400 <= e.statusCode < 500, events)|)
    ensures r.serverErrors == Some(|Filter((e: Event) => e.statusCode >= 500, events)|)
    ensures var samples := |Filter((e: Event) => e.durationMs > 0, events)|;
            r.averageDurationMs == Some(if samples == 0 then 0 else Sum(Map(Duration, events)) / samples)
  {
    hide Filter, IsTrend, Sum, DurationSum, ActorKeys, CountsOf, Duration, HasSucceeded, HasFailed, HasDuration, IsSlow,
         IsClientError, IsServerError, IsHighRisk;
    RequestsWrittenOut(events);
    DurationsSum(events);
  }
}
