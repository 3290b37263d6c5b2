/** The summary shown for an attention batch. */
module AuditAttention {
  import opened Wrappers
  import opened Rfc3339
  import opened Text
  import opened AuditEvents
  import opened AuditGroups
  import opened Seqs

  /** A stored acknowledgement, kept under the key of the event it acknowledges. */
  datatype Ack = Ack(acknowledgedAt: string, actor: string)
  type Acks = map<string, Ack>

  datatype Acknowledgement = Acknowledgement(at: Instant, actor: string)

  function ToApi(a: Ack): Acknowledgement {
    Acknowledgement(match Parse(a.acknowledgedAt) case Some(t) => t case None => ZERO_TIME, a.actor)
  }

  datatype BatchResult = MixedResult | FailureResult | SuccessResult

  /** Action, severity, summary and target of a batch are those of its primary event. */
  datatype Attention = Attention(id: string, counts: Counts, acknowledged: bool, firstOccurredAt: Instant,
                                 latestOccurredAt: Instant, failureCount: nat, successCount: nat,
                                 operationId: Option<string>, riskEventCount: nat, acknowledgedCount: nat,
                                 unacknowledgedCount: nat, firstAcknowledgement: Option<Acknowledgement>,
                                 primary: Event, affectedCount: nat, result: BatchResult)

  // ----- Counts by category -----

  datatype Counts = Counts(management: nat, asset: nat, security: nat, replication: nat) {
    function Of(c: Category): nat {
      match c
      case ManagementChange => management
      case AssetChange => asset
      case SecurityEvent => security
      case ReplicationEvent => replication
    }

    function Increment(c: Category): Counts {
      match c
      case ManagementChange => this.(management := management + 1)
      case AssetChange => this.(asset := asset + 1)
      case SecurityEvent => this.(security := security + 1)
      case ReplicationEvent => this.(replication := replication + 1)
    }

    function Total(): nat { management + asset + security + replication }
  }

  function InCategory(c: Category): Event -> bool { (e: Event) => ClassifyCategory(e) == c }

  function CountsOf(s: seq<Event>): Counts {
    Counts(|Filter(InCategory(ManagementChange), s)|, |Filter(InCategory(AssetChange), s)|,
           |Filter(InCategory(SecurityEvent), s)|, |Filter(InCategory(ReplicationEvent), s)|)
  }

  lemma {:induction false} CountsStep(s: seq<Event>, e: Event)
    ensures CountsOf(s + [e]) == CountsOf(s).Increment(ClassifyCategory(e))
  {
    hide Filter, ClassifyCategory;
    FilterStep(InCategory(ManagementChange), s, e);
    FilterStep(InCategory(AssetChange), s, e);
    FilterStep(InCategory(SecurityEvent), s, e);
    FilterStep(InCategory(ReplicationEvent), s, e);
  }

  /** Every event is counted in exactly one category. */
  lemma {:induction false} CountsTotal(s: seq<Event>)
    ensures CountsOf(s).Total() == |s|
  {
    if s != [] {
      hide ClassifyCategory;
      Unsnoc(s);
      CountsTotal(s[..|s| - 1]);
      CountsStep(s[..|s| - 1], s[|s| - 1]);
    }
  }

  // ----- What the loop over the members computes -----

  predicate HasFailed(e: Event) { ClassifyOutcome(e).Failed? }

  predicate HasSucceeded(e: Event) { ClassifyOutcome(e).Succeeded? }

  function AckedRisk(acks: Acks): Event -> bool { (e: Event) => IsRisk(e) && EventKey(e) in acks }

  function OpenRisk(acks: Acks): Event -> bool { (e: Event) => IsRisk(e) && EventKey(e) !in acks }

  function FirstTime(s: seq<Event>): Instant {
    if s == [] then ZERO_TIME
    else
      var t, o := FirstTime(s[..|s| - 1]), Occurred(s[|s| - 1]);
      if t == ZERO_TIME || o < t then o else t
  }

  function LatestTime(s: seq<Event>): Instant {
    if s == [] then ZERO_TIME
    else
      var t, o := LatestTime(s[..|s| - 1]), Occurred(s[|s| - 1]);
      if t < o then o else t
  }

  function LastOperation(s: seq<Event>): Option<string> {
    if s == [] then None
    else if s[|s| - 1].correlationId != "" then Some(s[|s| - 1].correlationId)
    else LastOperation(s[..|s| - 1])
  }

  function EarliestAck(acks: Acks, s: seq<Event>): Option<Acknowledgement> {
    if s == [] then None
    else
      var first, e := EarliestAck(acks, s[..|s| - 1]), s[|s| - 1];
      if !IsRisk(e) || EventKey(e) !in acks then first
      else if first.None? || ToApi(acks[EventKey(e)]).at < first.value.at then Some(ToApi(acks[EventKey(e)]))
      else first
  }

  function Primary(s: seq<Event>): Event
    requires s != []
  {
    if |s| == 1 then s[0]
    else
      var p := Primary(s[..|s| - 1]);
      if EventLess(s[|s| - 1], p) then s[|s| - 1] else p
  }

  function Summarise(sign: Payload -> string, payload: Payload, s: seq<Event>, acks: Acks): Attention
    requires s != []
  {
    var failed, succeeded := |Filter(HasFailed, s)|, |Filter(HasSucceeded, s)|;
    Attention(sign(payload), CountsOf(s), |Filter(OpenRisk(acks), s)| == 0, FirstTime(s), LatestTime(s),
              failed, succeeded, LastOperation(s), |Filter(IsRisk, s)|, |Filter(AckedRisk(acks), s)|,
              |Filter(OpenRisk(acks), s)|, EarliestAck(acks, s), Primary(s), |s|,
              if failed > 0 && succeeded > 0 then MixedResult else if failed > 0 then FailureResult else SuccessResult)
  }

  /** How each part of the summary grows by one more member. */
  lemma {:induction false} SummaryStep(acks: Acks, s: seq<Event>, e: Event)
    ensures CountsOf(s + [e]) == CountsOf(s).Increment(ClassifyCategory(e))
    ensures FirstTime(s + [e])
         == if FirstTime(s) == ZERO_TIME || Occurred(e) < FirstTime(s) then Occurred(e) else FirstTime(s)
    ensures LatestTime(s + [e]) == if LatestTime(s) < Occurred(e) then Occurred(e) else LatestTime(s)
    ensures |Filter(HasFailed, s + [e])| == |Filter(HasFailed, s)| + if ClassifyOutcome(e).Failed? then 1 else 0
    ensures |Filter(HasSucceeded, s + [e])|
         == |Filter(HasSucceeded, s)| + if ClassifyOutcome(e).Succeeded? then 1 else 0
    ensures LastOperation(s + [e]) == if e.correlationId != "" then Some(e.correlationId) else LastOperation(s)
    ensures |Filter(IsRisk, s + [e])| == |Filter(IsRisk, s)| + if IsRisk(e) then 1 else 0
    ensures |Filter(AckedRisk(acks), s + [e])|
         == |Filter(AckedRisk(acks), s)| + if IsRisk(e) && EventKey(e) in acks then 1 else 0
    ensures |Filter(OpenRisk(acks), s + [e])|
         == |Filter(OpenRisk(acks), s)| + if IsRisk(e) && EventKey(e) !in acks then 1 else 0
    ensures EarliestAck(acks, s + [e])
         == if !IsRisk(e) || EventKey(e) !in acks then EarliestAck(acks, s)
            else if EarliestAck(acks, s).None? || ToApi(acks[EventKey(e)]).at < EarliestAck(acks, s).value.at
            then Some(ToApi(acks[EventKey(e)])) else EarliestAck(acks, s)
  {
    hide Filter, IsRisk, ClassifyCategory, Occurred, EventKey, ToApi, ClassifyOutcome;
    assert (s + [e])[..|s|] == s;
    CountsStep(s, e);
    FilterStep(HasFailed, s, e);
    FilterStep(HasSucceeded, s, e);
    FilterStep(IsRisk, s, e);
    FilterStep(AckedRisk(acks), s, e);
    FilterStep(OpenRisk(acks), s, e);
  }

  lemma {:induction false} EmptySummary(acks: Acks)
    ensures CountsOf([]) == Counts(0, 0, 0, 0) && FirstTime([]) == ZERO_TIME && LatestTime([]) == ZERO_TIME
    ensures Filter(HasFailed, []) == [] && Filter(HasSucceeded, []) == [] && Filter(IsRisk, []) == []
    ensures Filter(AckedRisk(acks), []) == [] && Filter(OpenRisk(acks), []) == []
    ensures LastOperation([]) == None && EarliestAck(acks, []) == None
  {}

  method ToApiAttention(sign: Payload -> string, payload: Payload, group: Group, acks: Acks) returns (a: Attention)
    requires group.events != []
    ensures a == Summarise(sign, payload, group.events, acks)
  {
    hide IsRisk, ClassifyCategory, Occurred, EventKey, ToApi, EventLess, ClassifyOutcome, Filter, CountsOf, FirstTime,
         LatestTime, LastOperation, EarliestAck, Primary, AckedRisk, OpenRisk;
    var counts := Counts(0, 0, 0, 0);
    var firstAt, latestAt := ZERO_TIME, ZERO_TIME;
    var failures, successes, risks, acked, unacked := 0, 0, 0, 0, 0;
    var operation: Option<string>, first: Option<Acknowledgement> := None, None;
    EmptySummary(acks);
    for i := 0 to |group.events|
      invariant counts == CountsOf(group.events[..i])
      invariant firstAt == FirstTime(group.events[..i]) && latestAt == LatestTime(group.events[..i])
      invariant failures == |Filter(HasFailed, group.events[..i])|
      invariant successes == |Filter(HasSucceeded, group.events[..i])|
      invariant operation == LastOperation(group.events[..i]) && first == EarliestAck(acks, group.events[..i])
      invariant risks == |Filter(IsRisk, group.events[..i])|
      invariant acked == |Filter(AckedRisk(acks), group.events[..i])|
      invariant unacked == |Filter(OpenRisk(acks), group.events[..i])|
    {
      var event := group.events[i];
      assert group.events[..i + 1] == group.events[..i] + [event];
      SummaryStep(acks, group.events[..i], event);
      var occurred := Occurred(event);
      if firstAt == ZERO_TIME || occurred < firstAt {
        firstAt := occurred;
      }
      if latestAt < occurred {
        latestAt := occurred;
      }
      counts := counts.Increment(ClassifyCategory(event));
      if ClassifyOutcome(event).Failed? {
        failures := failures + 1;
      } else if ClassifyOutcome(event).Succeeded? {
        successes := successes + 1;
      }
      if event.correlationId != "" {
        operation := Some(event.correlationId);
      }
      if IsRisk(event) {
        risks := risks + 1;
        if EventKey(event) in acks {
          acked := acked + 1;
          var converted := ToApi(acks[EventKey(event)]);
          if first.None? || converted.at < first.value.at {
            first := Some(converted);
          }
        } else {
          unacked := unacked + 1;
        }
      }
    }
    assert group.events[..|group.events|] == group.events;
    var primary := PickPrimary(group.events);
    var result := if failures > 0 && successes > 0 then MixedResult
                  else if failures > 0 then FailureResult
                  else SuccessResult;
    a := Attention(sign(payload), counts, unacked == 0, firstAt, latestAt, failures, successes, operation,
                   risks, acked, unacked, first, primary, |group.events|, result);
  }

  method PickPrimary(events: seq<Event>) returns (primary: Event)
    requires events != []
    ensures primary == Primary(events)
  {
    hide EventLess;
    primary := events[0];
    // The first candidate is the event itself, which is not less than itself.
    EventLessIsConnected(events[0], events[0]);
    for i := 0 to |events|
      invariant primary == if i == 0 then events[0] else Primary(events[..i])
    {
      assert events[..i + 1][..i] == events[..i];
      if EventLess(events[i], primary) {
        primary := events[i];
      }
    }
    assert events[..|events|] == events;
  }

  // ----- What the parts of the summary mean -----

  /** A member at the zero time and a later one, and none before: the case in which the zero time, being also
      the mark of "no time yet", makes the first time depend on the order of the members. */
  ghost predicate ZeroTimeMatters(s: seq<Event>) {
    && (exists e :: e in s && Occurred(e) == ZERO_TIME) && (exists e :: e in s && Occurred(e) > ZERO_TIME)
    && forall e :: e in s ==> Occurred(e) >= ZERO_TIME
  }

  lemma {:induction false} FirstTimeStep(s: seq<Event>, e: Event)
    ensures FirstTime(s + [e])
         == if FirstTime(s) == ZERO_TIME || Occurred(e) < FirstTime(s) then Occurred(e) else FirstTime(s)
  {
    assert (s + [e])[..|s|] == s;
  }

  lemma {:induction false} FirstTimeIsAMembers(s: seq<Event>)
    requires s != []
    ensures exists e :: e in s && FirstTime(s) == Occurred(e)
  {
    hide Occurred, FirstTime;
    var init, last := s[..|s| - 1], s[|s| - 1];
    Unsnoc(s);
    FirstTimeStep(init, last);
    if init == [] {
      NoTimeYet();
    } else {
      FirstTimeIsAMembers(init);
    }
  }

  /** What the running first time is worth: it is below the zero time once a member is, and it is a lower
      bound unless the zero time has been met. */
  lemma {:induction false} RunningFirstTime(s: seq<Event>)
    requires s != []
    ensures FirstTime(s) < ZERO_TIME <==> exists e :: e in s && Occurred(e) < ZERO_TIME
    ensures FirstTime(s) < ZERO_TIME || (forall e :: e in s ==> Occurred(e) > ZERO_TIME) ==>
      FirstTime(s) != ZERO_TIME && forall e :: e in s ==> FirstTime(s) <= Occurred(e)
  {
    hide Occurred, FirstTime;
    var init, last := s[..|s| - 1], s[|s| - 1];
    assert forall e :: e in s <==> e in init || e == last by { Unsnoc(s); }
    FirstTimeStep(init, last);
    assert s == init + [last];
    if init == [] {
      NoTimeYet();
    } else {
      RunningFirstTime(init);
    }
  }

  lemma {:induction false} NoTimeYet()
    ensures FirstTime([]) == ZERO_TIME
  {}

  /** The first time is the least time of the members, whenever the zero time does not matter. */
  lemma {:induction false} FirstTimeIsLeast(s: seq<Event>)
    requires s != [] && !ZeroTimeMatters(s)
    ensures exists e :: e in s && FirstTime(s) == Occurred(e)
    ensures forall e :: e in s ==> FirstTime(s) <= Occurred(e)
  {
    hide Occurred, FirstTime;
    FirstTimeIsAMembers(s);
    RunningFirstTime(s);
  }

  /** The latest time is the greatest time of the members, or the zero time when no member is after it. */
  lemma {:induction false} LatestTimeIsGreatest(s: seq<Event>)
    ensures LatestTime(s) == ZERO_TIME || exists e :: e in s && LatestTime(s) == Occurred(e)
    ensures LatestTime(s) >= ZERO_TIME && forall e :: e in s ==> Occurred(e) <= LatestTime(s)
  {
    hide Occurred;
    if s != [] {
      var init, last := s[..|s| - 1], s[|s| - 1];
      Unsnoc(s);
      LatestTimeIsGreatest(init);
    }
  }

  /** With the zero time last, the first time is the zero time; with a later one behind it, it is not. */
  lemma {:induction false} ZeroTimeThenLater(rest: seq<Event>, zero: Event, later: Event)
    requires Occurred(zero) == ZERO_TIME && Occurred(later) > ZERO_TIME
    requires forall e :: e in rest ==> Occurred(e) >= ZERO_TIME
    ensures FirstTime(rest + [later] + [zero]) == ZERO_TIME && FirstTime(rest + [zero] + [later]) == Occurred(later)
  {
    hide Occurred, FirstTime;
    FirstTimeStep(rest + [later], zero);
    FirstTimeStep(rest + [zero], later);
    FirstTimeStep(rest, zero);
    RunningFirstTime(rest + [later]);
    if rest == [] {
      NoTimeYet();
    } else {
      RunningFirstTime(rest);
    }
  }

  lemma {:induction false} Without(s: seq<Event>, e: Event) returns (rest: seq<Event>)
    requires e in s
    ensures multiset(s) == multiset(rest + [e])
    ensures forall d :: d in rest ==> d in s
    ensures forall d :: d in s ==> d == e || d in rest
  {
    var i :| 0 <= i < |s| && s[i] == e;
    rest := s[..i] + s[i + 1..];
    Removed(s, i);
    assert s == s[..i] + [e] + s[i + 1..];
  }

  /** When the zero time matters, the members have two orders with different first times. */
  lemma {:induction false} TwoFirstTimes(s: seq<Event>) returns (t: seq<Event>, u: seq<Event>)
    requires ZeroTimeMatters(s)
    ensures multiset(t) == multiset(s) && multiset(u) == multiset(s) && FirstTime(t) != FirstTime(u)
  {
    hide Occurred, FirstTime;
    var zero :| zero in s && Occurred(zero) == ZERO_TIME;
    var later :| later in s && Occurred(later) > ZERO_TIME;
    var others := Without(s, zero);
    var rest := Without(others, later);
    t, u := rest + [later] + [zero], rest + [zero] + [later];
    ZeroTimeThenLater(rest, zero, later);
  }

  ghost predicate DistinctKeys(s: seq<Event>) {
    forall d, e :: d in s && e in s && EventKey(d) == EventKey(e) ==> d == e
  }

  lemma {:induction false} LessThanLeast(x: Event, p: Event, s: seq<Event>)
    requires EventLess(x, p) && forall e :: e in s ==> e == p || EventLess(p, e)
    ensures forall e :: e in s ==> EventLess(x, e)
  {
    hide EventLess;
    forall e | e in s ensures EventLess(x, e) {
      if e != p {
        EventLessIsTransitive(x, p, e);
      }
    }
  }

  /** The primary event precedes every other member. */
  lemma {:induction false} PrimaryIsLeast(s: seq<Event>)
    requires s != [] && DistinctKeys(s)
    ensures Primary(s) in s && forall e :: e in s ==> e == Primary(s) || EventLess(Primary(s), e)
  {
    hide EventLess, EventKey;
    var init, last := s[..|s| - 1], s[|s| - 1];
    assert forall e :: e in s <==> e in init || e == last;
    if init != [] {
      PrimaryIsLeast(init);
      EventLessIsConnected(last, Primary(init));
      if EventLess(last, Primary(init)) {
        LessThanLeast(last, Primary(init), init);
      }
    }
  }

  predicate FailedHigh(e: Event) { ClassifyOutcome(e).Failed? && SeverityOf(e).High? }

  /** A batch with a Critical member shows it, or any Critical event, as its primary event exactly when no
      member is a failed event of severity High and, unless some member failed, every member is Critical. */
  lemma {:induction false} PrimaryIsCriticalExactly(s: seq<Event>)
    requires s != [] && DistinctKeys(s) && (forall e :: e in s ==> IsRisk(e))
    requires exists e :: e in s && SeverityOf(e).Critical?
    ensures SeverityOf(Primary(s)).Critical? <==>
              && (forall e :: e in s ==> !FailedHigh(e))
              && ((exists e :: e in s && HasFailed(e)) || forall e :: e in s ==> SeverityOf(e).Critical?)
  {
    hide Primary, EventKey, IsCriticalRisk, ClassifyOutcome, IsHighRisk;
    var p := Primary(s);
    PrimaryIsLeast(s);
    forall e | e in s ensures SeverityOf(e).Critical? || SeverityOf(e).High? {}
    forall e | e in s && e != p ensures HasFailed(e) ==> HasFailed(p) {
      assert EventLess(p, e);
    }
    forall e | e in s && e != p && HasFailed(e) == HasFailed(p) ensures SeverityOf(e).High? ==> SeverityOf(p).High? {
      assert EventLess(p, e);
    }
  }

  ghost predicate Acked(acks: Acks, s: seq<Event>, e: Event) { e in s && IsRisk(e) && EventKey(e) in acks }

  /** The first acknowledgement is one of a member's, and none of a member's is earlier. */
  lemma {:induction false} EarliestAckIsLeast(acks: Acks, s: seq<Event>)
    ensures EarliestAck(acks, s).Some? ==>
              exists e :: Acked(acks, s, e) && EarliestAck(acks, s).value == ToApi(acks[EventKey(e)])
    ensures forall e :: Acked(acks, s, e) ==>
              EarliestAck(acks, s).Some? && EarliestAck(acks, s).value.at <= ToApi(acks[EventKey(e)]).at
  {
    hide ToApi, IsRisk, EventKey;
    if s != [] {
      var init, last := s[..|s| - 1], s[|s| - 1];
      assert forall e :: e in s <==> e in init || e == last;
      EarliestAckIsLeast(acks, init);
      assert forall e :: Acked(acks, s, e) <==> Acked(acks, init, e) || (e == last && Acked(acks, s, last));
    }
  }

  lemma {:induction false} LastOperationOfSubject(s: seq<Event>, subject: Subject)
    requires s != [] && forall e :: e in s ==> SubjectOf(e) == subject
    ensures LastOperation(s) == if subject.Operation? then Some(subject.correlationId) else None
  {
    var init, last := s[..|s| - 1], s[|s| - 1];
    assert SubjectOf(last) == subject;
    if init != [] {
      LastOperationOfSubject(init, subject);
    }
  }

  // ----- The summary of a batch -----

  /** The summary without the identity of the first acknowledgement, which ties leave open. */
  function WithoutFirstAck(a: Attention): Attention { a.(firstAcknowledgement := None) }

  lemma {:induction false} TimesIgnoreOrder(s: seq<Event>, t: seq<Event>)
    requires s != [] && multiset(s) == multiset(t) && !ZeroTimeMatters(s)
    ensures FirstTime(s) == FirstTime(t) && LatestTime(s) == LatestTime(t)
  {
    hide Occurred, FirstTime, LatestTime;
    SameSize(s, t);
    FirstTimeIsLeast(s);
    FirstTimeIsLeast(t);
    LatestTimeIsGreatest(s);
    LatestTimeIsGreatest(t);
  }

  /** The first time is the same for every order of the members exactly when the zero time does not matter. */
  lemma {:induction false} FirstTimeIgnoresOrderExactly(s: seq<Event>)
    requires s != []
    ensures (forall t :: multiset(t) == multiset(s) ==> FirstTime(t) == FirstTime(s)) <==> !ZeroTimeMatters(s)
  {
    hide FirstTime, ZeroTimeMatters;
    if ZeroTimeMatters(s) {
      var t, u := TwoFirstTimes(s);
      assert FirstTime(t) != FirstTime(s) || FirstTime(u) != FirstTime(s);
    } else {
      forall t | multiset(t) == multiset(s) ensures FirstTime(t) == FirstTime(s) {
        TimesIgnoreOrder(s, t);
      }
    }
  }

  lemma {:induction false} PrimaryIgnoresOrder(s: seq<Event>, t: seq<Event>)
    requires s != [] && t != [] && multiset(s) == multiset(t) && DistinctKeys(s)
    ensures Primary(s) == Primary(t)
  {
    hide EventLess, EventKey, Primary;
    SameSize(s, t);
    PrimaryIsLeast(s);
    PrimaryIsLeast(t);
    EventLessIsConnected(Primary(s), Primary(t));
  }

  lemma {:induction false} CountsIgnoreOrder(s: seq<Event>, t: seq<Event>, acks: Acks)
    requires multiset(s) == multiset(t)
    ensures CountsOf(s) == CountsOf(t) && |s| == |t|
    ensures |Filter(HasFailed, s)| == |Filter(HasFailed, t)| && |Filter(HasSucceeded, s)| == |Filter(HasSucceeded, t)|
    ensures |Filter(IsRisk, s)| == |Filter(IsRisk, t)|
    ensures |Filter(AckedRisk(acks), s)| == |Filter(AckedRisk(acks), t)|
    ensures |Filter(OpenRisk(acks), s)| == |Filter(OpenRisk(acks), t)|
  {
    hide Filter;
    SameSize(s, t);
    FilterPermutes(InCategory(ManagementChange), s, t);
    FilterPermutes(InCategory(AssetChange), s, t);
    FilterPermutes(InCategory(SecurityEvent), s, t);
    FilterPermutes(InCategory(ReplicationEvent), s, t);
    FilterPermutes(HasFailed, s, t);
    FilterPermutes(HasSucceeded, s, t);
    FilterPermutes(IsRisk, s, t);
    FilterPermutes(AckedRisk(acks), s, t);
    FilterPermutes(OpenRisk(acks), s, t);
  }

  lemma {:induction false} EarliestAckIgnoresOrder(s: seq<Event>, t: seq<Event>, acks: Acks)
    requires multiset(s) == multiset(t)
    ensures EarliestAck(acks, s).Some? == EarliestAck(acks, t).Some?
    ensures EarliestAck(acks, s).Some? ==> EarliestAck(acks, s).value.at == EarliestAck(acks, t).value.at
  {
    hide EarliestAck, IsRisk, EventKey, ToApi;
    SameSize(s, t);
    assert forall e :: Acked(acks, s, e) <==> Acked(acks, t, e);
    EarliestAckIsLeast(acks, s);
    EarliestAckIsLeast(acks, t);
  }

  /** The summary of a batch does not depend on the order its events were read in, but for who
      gave the first acknowledgement when several were given at the same earliest time. */
  lemma {:induction false} SummaryIgnoresOrder(
      sign: Payload -> string, groups: Groups, snapshot: Snapshot, events: seq<Event>, range: int, k: string,
      t: seq<Event>, acks: Acks)
    requires IsGrouping(groups, snapshot, events, range) && k in groups
    requires DistinctKeys(events) && !ZeroTimeMatters(groups[k].events)
    requires multiset(t) == multiset(groups[k].events) && t != []
    ensures var a := Summarise(sign, groups[k].payload, groups[k].events, acks);
            var b := Summarise(sign, groups[k].payload, t, acks);
            && WithoutFirstAck(a) == WithoutFirstAck(b)
            && a.firstAcknowledgement.Some? == b.firstAcknowledgement.Some?
            && (a.firstAcknowledgement.Some? ==> a.firstAcknowledgement.value.at == b.firstAcknowledgement.value.at)
  {
    hide Occurred, EventKey, KeyOf, InScope, Filter, FirstTime, LatestTime, LastOperation, EarliestAck, Primary,
         CountsOf, IsGrouping, SubjectOf, BucketStart;
    var s := groups[k].events;
    var d := t[0];
    SameSize(s, t);
    forall e | e in s ensures e in events && SubjectOf(e) == SubjectOf(d) {
      InBatch(groups, snapshot, events, range, k, e);
      BatchMembers(groups, snapshot, events, range, k, d, e);
    }
    TimesIgnoreOrder(s, t);
    PrimaryIgnoresOrder(s, t);
    CountsIgnoreOrder(s, t, acks);
    EarliestAckIgnoresOrder(s, t, acks);
    LastOperationOfSubject(s, SubjectOf(d));
    LastOperationOfSubject(t, SubjectOf(d));
  }

  lemma {:induction false} RiskSplits(acks: Acks, s: seq<Event>)
    ensures |Filter(AckedRisk(acks), s)| + |Filter(OpenRisk(acks), s)| == |Filter(IsRisk, s)|
  {
    if s != [] {
      hide IsRisk, EventKey;
      RiskSplits(acks, s[..|s| - 1]);
    }
  }

  /** All counts of a batch agree, and it is acknowledged exactly when every member is. */
  lemma {:induction false} BatchCountsAgree(
      sign: Payload -> string, groups: Groups, snapshot: Snapshot, events: seq<Event>, range: int, k: string,
      acks: Acks)
    requires IsGrouping(groups, snapshot, events, range) && k in groups && groups[k].events != []
    ensures var a, s := Summarise(sign, groups[k].payload, groups[k].events, acks), groups[k].events;
            && a.affectedCount == a.riskEventCount == a.counts.Total() == |s|
            && a.acknowledgedCount + a.unacknowledgedCount == |s|
            && (a.acknowledged <==> forall e :: e in s ==> EventKey(e) in acks)
            && (a.firstAcknowledgement.Some? <==> a.acknowledgedCount > 0)
  {
    hide IsRisk, EventKey, Filter, KeyOf, Parsed, CountsOf, IsGrouping, EarliestAck, FirstTime, LatestTime,
         LastOperation, Primary;
    var s := groups[k].events;
    forall e | e in s ensures IsRisk(e) {
      InBatch(groups, snapshot, events, range, k, e);
    }
    FilterAll(IsRisk, s);
    RiskSplits(acks, s);
    CountsTotal(s);
    EarliestAckIsLeast(acks, s);
    NoneKept(OpenRisk(acks), s);
    NoneKept(AckedRisk(acks), s);
    assert forall e :: e in s ==> (OpenRisk(acks)(e) <==> EventKey(e) !in acks);
    assert forall e :: e in s ==> (AckedRisk(acks)(e) <==> Acked(acks, s, e));
  }

  // ----- The summary written out -----

  /** The order of primary events: failures first; among those alike in this a severity High and nothing else; then
      the later time text; then replication before audit; then the number with the greater text. */
  ghost predicate Outranks(p: Event, e: Event) {
    && (HasFailed(e) ==> HasFailed(p))
    && ((HasFailed(e) <==> HasFailed(p)) ==>
         && (SeverityOf(e).High? ==> SeverityOf(p).High?)
         && ((SeverityOf(e).High? <==> SeverityOf(p).High?) ==>
              && AtOrBefore(e.occurredAt, p.occurredAt)
              && (e.occurredAt == p.occurredAt ==>
                   && (e.source.Replication? ==> p.source.Replication?)
                   && (e.source == p.source ==> AtOrBefore(Decimal(e.id), Decimal(p.id))))))
  }

  lemma {:induction false} KeysCompared(d: Event, e: Event)
    requires !Before(EventKey(d), EventKey(e))
    ensures e.source.Replication? ==> d.source.Replication?
    ensures d.source == e.source ==> AtOrBefore(Decimal(e.id), Decimal(d.id))
  {
    hide Decimal;
    var x, y := EventKey(d), EventKey(e);
    if d.source == e.source {
      var head := SourceText(d.source) + ":";
      assert x == head + Decimal(d.id) && y == head + Decimal(e.id);
      SameHead(head, Decimal(d.id), Decimal(e.id));
    } else {
      assert x[0] == SourceText(d.source)[0] && y[0] == SourceText(e.source)[0];
    }
  }

  lemma {:induction false} SameHead(head: string, a: string, b: string)
    ensures Before(head + a, head + b) <==> Before(a, b)
  {
    if head == [] {
      assert head + a == a && head + b == b;
    } else {
      SameHead(head[1..], a, b);
      assert (head + a)[1..] == head[1..] + a && (head + b)[1..] == head[1..] + b;
    }
  }

  lemma {:induction false} LeastOutranks(p: Event, e: Event)
    requires EventLess(p, e)
    ensures Outranks(p, e)
  {
    EventLessIsConnected(p, e);
    hide ClassifyOutcome, SeverityOf, EventKey, Decimal, Before;
    BeforeIsStrict(p.occurredAt, e.occurredAt);
    if !Before(EventKey(p), EventKey(e)) {
      KeysCompared(p, e);
    }
  }

  /** The summary of a batch in terms of its members alone. */
  lemma {:induction false} SummaryWrittenOut(sign: Payload -> string, payload: Payload, s: seq<Event>, acks: Acks)
    requires s != [] && DistinctKeys(s) && forall e :: e in s ==> IsRisk(e)
    ensures var a := Summarise(sign, payload, s, acks);
            && a.primary in s && (forall e :: e in s ==> e == a.primary || Outranks(a.primary, e))
            && a.failureCount == |Filter((e: Event) => ClassifyOutcome(e).Failed?, s)|
            && a.successCount == |Filter((e: Event) => ClassifyOutcome(e).Succeeded?, s)|
            && (forall c :: a.counts.Of(c) == |Filter((e: Event) => ClassifyCategory(e) == c, s)|)
            && a.acknowledgedCount == |Filter((e: Event) => EventKey(e) in acks, s)|
            && a.unacknowledgedCount == |Filter((e: Event) => EventKey(e) !in acks, s)|
            && (a.result.FailureResult? || a.result.MixedResult? <==> exists e :: e in s && ClassifyOutcome(e).Failed?)
            && (a.result.MixedResult? <==> a.failureCount > 0 && exists e :: e in s && ClassifyOutcome(e).Succeeded?)
  {
    hide Filter, ClassifyOutcome, ClassifyCategory, EventKey, IsRisk, Primary, SeverityOf, Outranks, EventLess,
         FirstTime, LatestTime, LastOperation, EarliestAck;
    PrimaryIsLeast(s);
    forall e | e in s && e != Primary(s) ensures Outranks(Primary(s), e) {
      LeastOutranks(Primary(s), e);
    }
    FilterAgrees(HasFailed, (e: Event) => ClassifyOutcome(e).Failed?, s);
    FilterAgrees(HasSucceeded, (e: Event) => ClassifyOutcome(e).Succeeded?, s);
    FilterAgrees(AckedRisk(acks), (e: Event) => EventKey(e) in acks, s);
    FilterAgrees(OpenRisk(acks), (e: Event) => EventKey(e) !in acks, s);
    forall c ensures CountsOf(s).Of(c) == |Filter((e: Event) => ClassifyCategory(e) == c, s)| {
      FilterAgrees(InCategory(c), (e: Event) => ClassifyCategory(e) == c, s);
    }
    NoneKept(HasFailed, s);
    NoneKept(HasSucceeded, s);
  }
}
