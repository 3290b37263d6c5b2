/** Audit events: classification, time buckets, group keys and the order among the events of a batch. */
module AuditEvents {
  import opened Wrappers
  import opened Text
  import opened Rfc3339

  /** The two event sources; there is no other. */
  datatype Source = Audit | Replication

  datatype Category = ManagementChange | AssetChange | SecurityEvent | ReplicationEvent
  datatype Outcome = Succeeded | Failed | Pending | Unknown
  datatype Severity = Normal | High | Critical

  datatype Event = Event(source: Source, id: nat, occurredAt: string, userId: Option<nat>, actor: string,
                         action: string, repository: string, result: string, correlationId: string,
                         statusCode: int, durationMs: int, clientIp: string)

  function SourceText(s: Source): string { if s.Audit? then "audit" else "replication" }

  /** What identifies an event: its source and its number there. */
  function EventKey(e: Event): string { SourceText(e.source) + ":" + Decimal(e.id) }

  function Parsed(e: Event): Option<Instant> { Parse(e.occurredAt) }

  /** The time of the event; the zero time when the text does not parse. */
  function Occurred(e: Event): Instant {
    match Parsed(e) case Some(t) => t case None => ZERO_TIME
  }

  // ----- Classification -----

  function LowerAscii(c: char): char { if 'A' <= c <= 'Z' then (c as int + 32) as char else c }

  predicate EqualFold(s: string, t: string) {
    |s| == |t| && forall i :: 0 <= i < |s| ==> LowerAscii(s[i]) == LowerAscii(t[i])
  }

  /** Texts that differ at most in the case of letters from A to Z. */
  lemma {:induction false} EqualFoldMeans(s: string, t: string)
    ensures EqualFold(s, t) <==> |s| == |t| && forall i :: 0 <= i < |s| ==>
      || s[i] == t[i]
      || ('A' <= s[i] <= 'Z' && s[i] as int + 32 == t[i] as int)
      || ('A' <= t[i] <= 'Z' && t[i] as int + 32 == s[i] as int)
  {}

  function ClassifyOutcome(e: Event): Outcome {
    if e.result in {"ok", "applied", "success"} then Succeeded
    else if e.result in {"failed", "error", "rejected", "partial"} then Failed
    else if e.result == "pending" then Pending
    else Unknown
  }

  function ClassifyCategory(e: Event): Category {
    if e.source.Replication? then ReplicationEvent
    else if ClassifyOutcome(e).Failed? || EqualFold(e.result, "rejected") then SecurityEvent
    else if "asset." <= e.action || Contains(e.action, ".publish") || Contains(e.action, ".unpublish") then AssetChange
    else ManagementChange
  }

  predicate IsCriticalRisk(e: Event) {
    e.action in {"repository.delete", "repo.delete", "asset.delete", "user.delete", "token.revoke",
                 "migration.switch", "migration.complete"}
  }

  predicate IsHighRisk(e: Event) {
    || IsCriticalRisk(e)
    || e.action in {"acl.set", "settings.update", "setting.set", "group.delete", "group.member.add",
                    "group.member.remove"}
  }

  predicate IsRisk(e: Event) { ClassifyOutcome(e).Failed? || IsHighRisk(e) }

  function SeverityOf(e: Event): Severity {
    if IsCriticalRisk(e) then Critical
    else if ClassifyOutcome(e).Failed? || IsHighRisk(e) then High
    else Normal
  }

  /** The severity of an event from its action and whether it failed; the risk events are those above Normal. */
  lemma {:induction false} SeverityWrittenOut(e: Event)
    ensures SeverityOf(e) ==
      match e.action
      case "repository.delete" => Critical
      case "repo.delete" => Critical
      case "asset.delete" => Critical
      case "user.delete" => Critical
      case "token.revoke" => Critical
      case "migration.switch" => Critical
      case "migration.complete" => Critical
      case "acl.set" => High
      case "settings.update" => High
      case "setting.set" => High
      case "group.delete" => High
      case "group.member.add" => High
      case "group.member.remove" => High
      case _ => if ClassifyOutcome(e).Failed? then High else Normal
    ensures IsRisk(e) <==> !SeverityOf(e).Normal?
    ensures IsHighRisk(e) <==> !SeverityOf(e.(result := "ok")).Normal?
  {}

  // ----- Time buckets -----

  const MINUTE := 60 * NANOS
  const HOUR := 3600 * NANOS
  const DAY := DAY_SECONDS * NANOS

  function Step(range: int): (step: int)
    ensures step in {MINUTE, HOUR, DAY}
  {
    if range <= DAY then MINUTE else if range <= 7 * DAY then HOUR else DAY
  }

  function BucketStart(at: Instant, range: int): (t: Instant)
    ensures t <= at < t + Step(range)
  {
    at - at % Step(range)
  }

  function BucketText(at: Instant, range: int): string { Format(BucketStart(at, range)) }

  function NextBucket(from: Instant, range: int): int { from + Step(range) }

  lemma {:induction false} MinutesApart(a: nat, b: nat)
    requires a - a % MINUTE < b - b % MINUTE
    ensures a - a % MINUTE + MINUTE <= b - b % MINUTE
  {}

  lemma {:induction false} HoursApart(a: nat, b: nat)
    requires a - a % HOUR < b - b % HOUR
    ensures a - a % HOUR + HOUR <= b - b % HOUR
  {}

  lemma {:induction false} DaysApart(a: nat, b: nat)
    requires a - a % DAY < b - b % DAY
    ensures a - a % DAY + DAY <= b - b % DAY
  {}

  /** Times rounded down to one step are equal or a step apart. */
  lemma {:induction false} Rounded(a: nat, b: nat, step: int)
    requires step in {MINUTE, HOUR, DAY} && a - a % step < b - b % step
    ensures a - a % step + step <= b - b % step
  {
    if step == MINUTE {
      MinutesApart(a, b);
    } else if step == HOUR {
      HoursApart(a, b);
    } else {
      DaysApart(a, b);
    }
  }

  lemma {:induction false} WholeSeconds(k: int)
    ensures NANOS * k % NANOS == 0
  {}

  /** Rounding down to a step leaves whole seconds. */
  lemma {:induction false} RoundedIsWhole(a: nat, step: int)
    requires step in {MINUTE, HOUR, DAY}
    ensures (a - a % step) % NANOS == 0
  {
    if step == MINUTE {
      assert a - a % MINUTE == NANOS * (60 * (a / MINUTE));
      WholeSeconds(60 * (a / MINUTE));
    } else if step == HOUR {
      assert a - a % HOUR == NANOS * (3600 * (a / HOUR));
      WholeSeconds(3600 * (a / HOUR));
    } else {
      assert a - a % DAY == NANOS * (DAY_SECONDS * (a / DAY));
      WholeSeconds(DAY_SECONDS * (a / DAY));
    }
  }

  lemma {:induction false} BucketStartIsWhole(at: Instant, range: int)
    ensures WholeSecond(BucketStart(at, range))
  {
    RoundedIsWhole(at, Step(range));
  }

  lemma {:induction false} BucketTextWidth(at: Instant, range: int)
    ensures |BucketText(at, range)| == 20
  {
    BucketStartIsWhole(at, range);
    WholeSecondWidth(BucketStart(at, range));
  }

  lemma {:induction false} QuotientsDiffer(a: int, b: int, w: int)
    requires w > 0 && a / w < b / w
    ensures w * (a / w) < w * (b / w)
  {}

  /** Rounding down to a step agrees exactly when the quotients do. */
  lemma {:induction false} SameRounding(a: int, b: int, w: int)
    requires w > 0
    ensures a - a % w == b - b % w <==> a / w == b / w
  {
    assert a - a % w == w * (a / w) && b - b % w == w * (b / w);
    if a / w < b / w {
      QuotientsDiffer(a, b, w);
    } else if b / w < a / w {
      QuotientsDiffer(b, a, w);
    }
  }

  /** Distinct buckets of one range do not overlap. */
  lemma {:induction false} BucketsApart(s: Instant, t: Instant, range: int)
    requires BucketStart(s, range) < BucketStart(t, range)
    ensures NextBucket(BucketStart(s, range), range) <= BucketStart(t, range)
  {
    Rounded(s, t, Step(range));
  }

  // ----- Group keys -----

  function GroupKey(e: Event, bucket: string): string {
    (if e.correlationId != "" then "operation:" + e.correlationId else EventKey(e)) + ":" + bucket
  }

  /** What a group key is about, apart from the time bucket. */
  datatype Subject = Operation(correlationId: string) | Single(source: Source, id: nat)

  function SubjectOf(e: Event): Subject {
    if e.correlationId != "" then Operation(e.correlationId) else Single(e.source, e.id)
  }

  lemma {:induction false} SplitAtSameTail(a: string, b: string, x: string, y: string)
    requires a + x == b + y && |x| == |y|
    ensures a == b && x == y
  {
    assert (a + x)[..|a|] == a && (b + y)[..|b|] == b;
    assert (a + x)[|a|..] == x && (b + y)[|b|..] == y;
  }

  function SubjectText(s: Subject): string {
    match s
    case Operation(c) => "operation:" + c
    case Single(source, id) => SourceText(source) + ":" + Decimal(id)
  }

  lemma {:induction false} SubjectTextIsInjective(s: Subject, t: Subject)
    requires SubjectText(s) == SubjectText(t)
    ensures s == t
  {
    assert SubjectText(s)[0] == SubjectText(t)[0];
    match s
    case Operation(c) =>
      assert SubjectText(s)[10..] == c && SubjectText(t)[10..] == t.correlationId;
    case Single(source, id) =>
      assert t.Single? && source == t.source;
      var n := |SourceText(source)| + 1;
      assert SubjectText(s)[n..] == Decimal(id) && SubjectText(t)[n..] == Decimal(t.id);
      DecimalIsInjective(id, t.id);
  }

  lemma {:induction false} EventKeyIsInjective(d: Event, e: Event)
    ensures EventKey(d) == EventKey(e) <==> d.source == e.source && d.id == e.id
  {
    if EventKey(d) == EventKey(e) {
      SubjectTextIsInjective(Single(d.source, d.id), Single(e.source, e.id));
    }
  }

  lemma {:induction false} GroupKeySplits(e: Event, b: string)
    ensures GroupKey(e, b) == SubjectText(SubjectOf(e)) + (":" + b)
  {
    assert SubjectText(SubjectOf(e)) + ":" + b == SubjectText(SubjectOf(e)) + (":" + b);
  }

  /** Two keys are equal exactly when subject and bucket are. */
  lemma {:induction false} GroupKeyIsInjective(d: Event, e: Event, b: string, c: string)
    requires |b| == |c|
    ensures GroupKey(d, b) == GroupKey(e, c) <==> SubjectOf(d) == SubjectOf(e) && b == c
  {
    GroupKeySplits(d, b);
    GroupKeySplits(e, c);
    if GroupKey(d, b) == GroupKey(e, c) {
      SplitAtSameTail(SubjectText(SubjectOf(d)), SubjectText(SubjectOf(e)), ":" + b, ":" + c);
      assert (":" + b)[1..] == b && (":" + c)[1..] == c;
      SubjectTextIsInjective(SubjectOf(d), SubjectOf(e));
    }
  }

  /** The key an event is grouped under, and with it its bucket. */
  function KeyOf(e: Event, range: int): string { GroupKey(e, BucketText(Occurred(e), range)) }

  lemma {:induction false} SameKey(d: Event, e: Event, range: int)
    ensures KeyOf(d, range) == KeyOf(e, range)
       <==> SubjectOf(d) == SubjectOf(e) && BucketStart(Occurred(d), range) == BucketStart(Occurred(e), range)
    ensures KeyOf(d, range) == KeyOf(e, range) ==> BucketText(Occurred(d), range) == BucketText(Occurred(e), range)
  {
    BucketTextWidth(Occurred(d), range);
    BucketTextWidth(Occurred(e), range);
    GroupKeyIsInjective(d, e, BucketText(Occurred(d), range), BucketText(Occurred(e), range));
    if BucketText(Occurred(d), range) == BucketText(Occurred(e), range) {
      FormatIsInjective(BucketStart(Occurred(d), range), BucketStart(Occurred(e), range));
    }
  }

  // ----- The order that picks a batch's primary event -----

  /** Failures first, then severity High (and only High), then later text, then greater key. */
  predicate EventLess(l: Event, r: Event) {
    var lf, rf := ClassifyOutcome(l).Failed?, ClassifyOutcome(r).Failed?;
    var lh, rh := SeverityOf(l).High?, SeverityOf(r).High?;
    if lf != rf then lf
    else if lh != rh then lh
    else if l.occurredAt != r.occurredAt then Before(r.occurredAt, l.occurredAt)
    else Before(EventKey(r), EventKey(l))
  }

  lemma {:induction false} EventLessIsConnected(a: Event, b: Event)
    ensures !(EventLess(a, b) && EventLess(b, a))
    ensures EventLess(a, b) || EventLess(b, a) || EventKey(a) == EventKey(b)
  {
    BeforeIsStrict(a.occurredAt, b.occurredAt);
    BeforeIsStrict(EventKey(a), EventKey(b));
  }

  lemma {:induction false} EventLessIsTransitive(a: Event, b: Event, c: Event)
    requires EventLess(a, b) && EventLess(b, c)
    ensures EventLess(a, c)
  {
    if Before(b.occurredAt, a.occurredAt) && Before(c.occurredAt, b.occurredAt) {
      BeforeIsTransitive(c.occurredAt, b.occurredAt, a.occurredAt);
      BeforeIsStrict(c.occurredAt, a.occurredAt);
    }
    if a.occurredAt == b.occurredAt == c.occurredAt {
      if Before(EventKey(b), EventKey(a)) && Before(EventKey(c), EventKey(b)) {
        BeforeIsTransitive(EventKey(c), EventKey(b), EventKey(a));
      }
    }
  }

  /** Between events alike in failure and severity, with times as the store writes them, the one with the
      later time precedes exactly unless the texts of the two times are reversed. */
  lemma {:induction false} LaterPrecedesUnlessReversed(l: Event, r: Event, earlier: Instant, later: Instant)
    requires ClassifyOutcome(l).Failed? == ClassifyOutcome(r).Failed? && SeverityOf(l).High? == SeverityOf(r).High?
    requires l.occurredAt == Format(later) && r.occurredAt == Format(earlier) && earlier < later
    ensures EventLess(l, r) <==> !Reversed(earlier, later)
    ensures EventLess(r, l) <==> Reversed(earlier, later)
  {
    hide ClassifyOutcome, SeverityOf, Format, Before;
    TextOrderExactly(earlier, later);
    TextOrderExactly(later, earlier);
    FormatDiffers(earlier, later);
  }

  /** The order does not put the most severe event first: a failed event of severity High
      precedes any failed event of severity Critical. */
  lemma {:induction false} HighFailurePrecedesCritical(high: Event, critical: Event)
    requires ClassifyOutcome(high).Failed? && !IsCriticalRisk(high)
    requires ClassifyOutcome(critical).Failed? && IsCriticalRisk(critical)
    ensures EventLess(high, critical) && !EventLess(critical, high)
  {}
}
