/** Read snapshots and the attention batches built from a snapshot's events. */
module AuditGroups {
  import opened Text
  import opened Rfc3339
  import opened AuditEvents
  import opened Seqs
  import opened Wrappers

  datatype ViewFilter = ViewFilter(from: Instant, to: Instant, categories: set<Category>, outcomes: set<Outcome>,
                                   actor: string, repository: string, query: string, method_: string,
                                   action: string, email: string, clientIp: string, authSource: string,
                                   attention: string)
  {
    function Range(): int { to - from }

    /** What the request parsing lets through: a non-empty range of at most 30 days. */
    ghost predicate Accepted() { from < to && Range() <= 30 * DAY }
  }

  datatype Snapshot = Snapshot(auditMax: nat, replicationMax: nat, from: string, to: string, sourceNode: string,
                               capturedAt: string, categories: seq<Category>, outcomes: seq<Outcome>,
                               actor: string, repository: string, query: string, method_: string,
                               action: string, email: string, clientIp: string, authSource: string,
                               attention: string)

  datatype Payload = Payload(snapshot: Snapshot, groupKey: string, bucket: string)
  datatype Group = Group(payload: Payload, events: seq<Event>)
  type Groups = map<string, Group>

  // ----- Snapshots -----

  /** The values in the text order of their names. */
  const CATEGORY_ORDER := [AssetChange, ManagementChange, ReplicationEvent, SecurityEvent]
  const OUTCOME_ORDER := [Failed, Pending, Succeeded, Unknown]

  function CategoryName(c: Category): string {
    match c
    case AssetChange => "asset_change"
    case ManagementChange => "management_change"
    case ReplicationEvent => "replication"
    case SecurityEvent => "security_event"
  }

  function OutcomeName(o: Outcome): string {
    match o
    case Failed => "failure"
    case Pending => "pending"
    case Succeeded => "success"
    case Unknown => "unknown"
  }

  function Member<T(==)>(values: set<T>): T -> bool { x => x in values }

  function SortedCategories(values: set<Category>): seq<Category> { Filter(Member(values), CATEGORY_ORDER) }

  function SortedOutcomes(values: set<Outcome>): seq<Outcome> { Filter(Member(values), OUTCOME_ORDER) }

  function NameOrder<T>(name: T -> string): (T, T) -> bool { (a, b) => AtOrBefore(name(a), name(b)) }

  /** Collects a set in whatever order it is iterated and sorts the values by name. */
  method SortedValues<T(==,!new)>(values: set<T>, name: T -> string, ghost order: seq<T>) returns (items: seq<T>)
    requires Distinct(order) && forall v :: v in values ==> v in order
    requires forall i, j :: 0 <= i < j < |order| ==> Before(name(order[i]), name(order[j]))
    ensures items == Filter(Member(values), order)
  {
    items := [];
    var rest := values;
    while rest != {}
      invariant rest <= values && Distinct(items)
      invariant forall v :: v in items <==> v in values && v !in rest
      decreases rest
    {
      var v :| v in rest;
      items, rest := items + [v], rest - {v};
    }
    SortedSelection(values, name, order, items);
    items := SortBy(NameOrder(name), items);
  }

  lemma {:induction false} OrdersAscend()
    ensures Distinct(CATEGORY_ORDER) && Distinct(OUTCOME_ORDER)
    ensures forall i, j :: 0 <= i < j < |CATEGORY_ORDER| ==>
      Before(CategoryName(CATEGORY_ORDER[i]), CategoryName(CATEGORY_ORDER[j]))
    ensures forall i, j :: 0 <= i < j < |OUTCOME_ORDER| ==>
      Before(OutcomeName(OUTCOME_ORDER[i]), OutcomeName(OUTCOME_ORDER[j]))
  {}

  method SortedAuditCategories(values: set<Category>) returns (items: seq<Category>)
    ensures items == SortedCategories(values)
  {
    OrdersAscend();
    OrdersAreComplete();
    items := SortedValues(values, CategoryName, CATEGORY_ORDER);
  }

  method SortedAuditResults(values: set<Outcome>) returns (items: seq<Outcome>)
    ensures items == SortedOutcomes(values)
  {
    OrdersAscend();
    OrdersAreComplete();
    items := SortedValues(values, OutcomeName, OUTCOME_ORDER);
  }

  method NewAuditReadSnapshot(
      auditMax: nat, replicationMax: nat, node: string, capturedAt: string, f: ViewFilter) returns (s: Snapshot)
    ensures s == NewSnapshot(auditMax, replicationMax, node, capturedAt, f)
  {
    var categories := SortedAuditCategories(f.categories);
    var outcomes := SortedAuditResults(f.outcomes);
    s := Snapshot(auditMax, replicationMax, Format(f.from), Format(f.to), node, capturedAt, categories, outcomes,
                  f.actor, f.repository, f.query, f.method_, f.action, f.email, f.clientIp, f.authSource, f.attention);
  }

  lemma {:induction false} NameOrderIsTotal<T(!new)>(name: T -> string)
    ensures Total(NameOrder(name)) && Transitive(NameOrder(name))
  {
    forall a, b: T ensures NameOrder(name)(a, b) || NameOrder(name)(b, a) {
      BeforeIsStrict(name(a), name(b));
    }
    forall a, b, c: T | NameOrder(name)(a, b) && NameOrder(name)(b, c) ensures NameOrder(name)(a, c) {
      AtOrBeforeIsTransitive(name(a), name(b), name(c));
    }
  }

  lemma {:induction false} SortedSelection<T(!new)>(values: set<T>, name: T -> string, order: seq<T>, items: seq<T>)
    requires Distinct(order) && forall v :: v in values ==> v in order
    requires forall i, j :: 0 <= i < j < |order| ==> Before(name(order[i]), name(order[j]))
    requires Distinct(items) && forall v :: v in items <==> v in values
    ensures SortBy(NameOrder(name), items) == Filter(Member(values), order)
  {
    var sorted, wanted := SortBy(NameOrder(name), items), Filter(Member(values), order);
    FilterDistinct(Member(values), order);
    DistinctSameMembers(items, wanted);
    SortPermutes(NameOrder(name), items);
    NameOrderIsTotal(name);
    SortSorts(NameOrder(name), items);
    SortedFilter(name, order, Member(values));
    forall a, b | a in sorted && b in sorted && NameOrder(name)(a, b) && NameOrder(name)(b, a) ensures a == b {
      BeforeIsStrict(name(a), name(b));
    }
    SortedIsUnique(NameOrder(name), sorted, wanted);
  }

  lemma {:induction false} SortedFilter<T(!new)>(name: T -> string, s: seq<T>, p: T -> bool)
    requires forall i, j :: 0 <= i < j < |s| ==> Before(name(s[i]), name(s[j]))
    ensures Sorted(NameOrder(name), Filter(p, s))
  {
    if s != [] {
      var kept := Filter(p, s[..|s| - 1]);
      SortedFilter(name, s[..|s| - 1], p);
      forall i | 0 <= i < |kept| ensures NameOrder(name)(kept[i], s[|s| - 1]) {
        assert kept[i] in s[..|s| - 1];
        BeforeIsStrict(name(kept[i]), name(s[|s| - 1]));
      }
    }
  }

  function NewSnapshot(auditMax: nat, replicationMax: nat, node: string, capturedAt: string, f: ViewFilter): Snapshot {
    Snapshot(auditMax, replicationMax, Format(f.from), Format(f.to), node, capturedAt,
             SortedCategories(f.categories), SortedOutcomes(f.outcomes), f.actor, f.repository, f.query,
             f.method_, f.action, f.email, f.clientIp, f.authSource, f.attention)
  }

  predicate MatchesFilter(s: Snapshot, f: ViewFilter) {
    && s.from == Format(f.from) && s.to == Format(f.to)
    && s.actor == f.actor && s.repository == f.repository && s.query == f.query && s.method_ == f.method_
    && s.action == f.action && s.email == f.email && s.clientIp == f.clientIp
    && s.authSource == f.authSource && s.attention == f.attention
    && s.categories == SortedCategories(f.categories) && s.outcomes == SortedOutcomes(f.outcomes)
  }

  function RangeDuration(s: Snapshot): int {
    match (Parse(s.from), Parse(s.to))
    case (Some(from), Some(to)) => if to <= from then DAY else to - from
    case _ => DAY
  }

  lemma {:induction false} OrdersAreComplete()
    ensures forall c: Category :: c in CATEGORY_ORDER
    ensures forall o: Outcome :: o in OUTCOME_ORDER
  {
    forall c: Category ensures c in CATEGORY_ORDER {
      match c case AssetChange => case ManagementChange => case ReplicationEvent => case SecurityEvent =>
    }
    forall o: Outcome ensures o in OUTCOME_ORDER {
      match o case Failed => case Pending => case Succeeded => case Unknown =>
    }
  }

  /** A snapshot accepts exactly the filter it was issued for. */
  lemma {:induction false} SnapshotMatchesOnlyItsFilter(
      auditMax: nat, replicationMax: nat, node: string, at: string, f: ViewFilter, g: ViewFilter)
    ensures MatchesFilter(NewSnapshot(auditMax, replicationMax, node, at, f), g) <==> f == g
  {
    hide Format;
    if MatchesFilter(NewSnapshot(auditMax, replicationMax, node, at, f), g) {
      FormatIsInjective(f.from, g.from);
      FormatIsInjective(f.to, g.to);
      OrdersAreComplete();
      SameSelection(f.categories, g.categories, CATEGORY_ORDER);
      SameSelection(f.outcomes, g.outcomes, OUTCOME_ORDER);
    }
  }

  lemma {:induction false} SameSelection<T(!new)>(a: set<T>, b: set<T>, order: seq<T>)
    requires Filter(Member(a), order) == Filter(Member(b), order)
    requires forall v :: v in order
    ensures a == b
  {
    forall v ensures v in a <==> v in b {
      assert v in Filter(Member(a), order) <==> v in a;
      assert v in Filter(Member(b), order) <==> v in b;
    }
  }

  /** The event list derives from the snapshot the range the batch list takes from the filter. */
  lemma {:induction false} SameRange(s: Snapshot, f: ViewFilter)
    requires f.Accepted() && MatchesFilter(s, f)
    ensures RangeDuration(s) == f.Range()
  {
    ParseFormat(f.from);
    ParseFormat(f.to);
  }

  // ----- Batches -----

  /** The events batches are made of: risk events whose time parses. */
  predicate InScope(e: Event) { IsRisk(e) && Parsed(e).Some? }

  function Scoped(events: seq<Event>): seq<Event> { Filter(InScope, events) }

  function KeyIn(range: int): Event -> string { (e: Event) => KeyOf(e, range) }

  /** The events of each group. */
  function Members(groups: Groups): map<string, seq<Event>> { map k | k in groups :: groups[k].events }

  function PayloadFor(snapshot: Snapshot, e: Event, range: int): Payload {
    Payload(snapshot, KeyOf(e, range), BucketText(Occurred(e), range))
  }

  ghost predicate IsGrouping(groups: Groups, snapshot: Snapshot, events: seq<Event>, range: int) {
    && Grouped(Members(groups), KeyIn(range), Scoped(events))
    && forall k :: k in groups ==>
         groups[k].events != [] && groups[k].payload == PayloadFor(snapshot, groups[k].events[0], range)
  }

  method AuditGroups(snapshot: Snapshot, events: seq<Event>, filter: ViewFilter) returns (groups: Groups)
    ensures IsGrouping(groups, snapshot, events, filter.Range())
  {
    hide Filter, Bucket, BucketText, GroupKey, Parsed, IsRisk;
    groups := map[];
    for i := 0 to |events|
      invariant IsGrouping(groups, snapshot, events[..i], filter.Range())
    {
      var event := events[i];
      assert events[..i + 1] == events[..i] + [event];
      FilterStep(InScope, events[..i], event);
      if !IsRisk(event) {
        continue;
      }
      match Parsed(event) {
        case None =>
        case Some(occurred) =>
          var bucket := BucketText(occurred, filter.Range());
          var key := GroupKey(event, bucket);
          var group := if key in groups then groups[key] else Group(Payload(snapshot, key, bucket), []);
          AddToGroup(groups, snapshot, events[..i], filter.Range(), event, group);
          groups := groups[key := group.(events := group.events + [event])];
      }
    }
    assert events[..|events|] == events;
  }

  lemma {:induction false} AddToGroup(
      groups: Groups, snapshot: Snapshot, before: seq<Event>, range: int, e: Event, group: Group)
    requires IsGrouping(groups, snapshot, before, range) && InScope(e)
    requires group == if KeyOf(e, range) in groups then groups[KeyOf(e, range)]
                      else Group(PayloadFor(snapshot, e, range), [])
    ensures IsGrouping(groups[KeyOf(e, range) := group.(events := group.events + [e])], snapshot, before + [e], range)
  {
    hide KeyOf, InScope, PayloadFor, Filter, Bucket;
    var key := KeyOf(e, range);
    assert KeyIn(range)(e) == key;
    GroupedSnoc(Members(groups), KeyIn(range), Scoped(before), e);
    FilterSnoc(InScope, before, e);
    MembersUpdated(groups, key, group.(events := group.events + [e]));
  }

  lemma {:induction false} MembersUpdated(groups: Groups, key: string, group: Group)
    ensures Members(groups[key := group]) == Members(groups)[key := group.events]
  {}

  /** No event is lost or batched twice: over any listing of the keys, batch sizes add up. */
  lemma {:induction false} BatchesPartitionScope(
      groups: Groups, snapshot: Snapshot, events: seq<Event>, range: int, keys: seq<string>)
    requires IsGrouping(groups, snapshot, events, range)
    requires Distinct(keys) && forall k :: k in keys <==> k in groups
    ensures Sum(seq(|keys|, i requires 0 <= i < |keys| => |groups[keys[i]].events|)) == |Scoped(events)|
    ensures multiset(Flatten(seq(|keys|, i requires 0 <= i < |keys| => groups[keys[i]].events)))
         == multiset(Scoped(events))
  {
    hide KeyOf, Parsed;
    var scope := Scoped(events);
    var sizes := seq(|keys|, i requires 0 <= i < |keys| => |groups[keys[i]].events|);
    var batches := seq(|keys|, i requires 0 <= i < |keys| => groups[keys[i]].events);
    assert batches == Buckets(KeyIn(range), keys, scope) by {
      forall i | 0 <= i < |keys| ensures batches[i] == Bucket(KeyIn(range), keys[i], scope) {
        assert keys[i] in Members(groups);
      }
    }
    assert forall i :: 0 <= i < |keys| ==> sizes[i] == |batches[i]|;
    BucketSizesSum(KeyIn(range), keys, scope, sizes);
    BucketsPartition(KeyIn(range), keys, scope);
  }

  /** The batch of a key holds exactly the events in scope with that key. */
  lemma {:induction false} InBatch(
      groups: Groups, snapshot: Snapshot, events: seq<Event>, range: int, k: string, e: Event)
    requires IsGrouping(groups, snapshot, events, range) && k in groups
    ensures e in groups[k].events <==> e in events && InScope(e) && KeyOf(e, range) == k
    ensures groups[k].events != [] && groups[k].events == Bucket(KeyIn(range), k, Scoped(events))
  {
    hide KeyOf, Parsed, IsRisk;
    assert Members(groups)[k] == groups[k].events;
    assert KeyIn(range)(e) == KeyOf(e, range);
  }

  /** What the members of one batch share, and what separates two batches. */
  lemma {:induction false} BatchMembers(
      groups: Groups, snapshot: Snapshot, events: seq<Event>, range: int, k: string, d: Event, e: Event)
    requires IsGrouping(groups, snapshot, events, range) && k in groups && d in groups[k].events
    ensures e in groups[k].events <==>
              && e in events && InScope(e) && SubjectOf(e) == SubjectOf(d)
              && BucketStart(Occurred(e), range) == BucketStart(Occurred(d), range)
  {
    hide KeyOf, Parsed, IsRisk, BucketStart, Occurred;
    InBatch(groups, snapshot, events, range, k, d);
    InBatch(groups, snapshot, events, range, k, e);
    SameKey(d, e, range);
  }

  lemma {:induction false} GroupingIsUnique(g: Groups, h: Groups, snapshot: Snapshot, events: seq<Event>, range: int)
    requires IsGrouping(g, snapshot, events, range) && IsGrouping(h, snapshot, events, range)
    ensures g == h
  {
    hide IsGrouping;
    GroupKeysAgree(g, h, snapshot, events, range);
    GroupKeysAgree(h, g, snapshot, events, range);
    forall k | k in g ensures g[k] == h[k] {
      SameGroup(g, h, snapshot, events, range, k);
    }
  }

  lemma {:induction false} SameGroup(
      g: Groups, h: Groups, snapshot: Snapshot, events: seq<Event>, range: int, k: string)
    requires IsGrouping(g, snapshot, events, range) && IsGrouping(h, snapshot, events, range) && k in g && k in h
    ensures g[k] == h[k]
  {
    hide Bucket, PayloadFor, Scoped;
    assert Members(g)[k] == g[k].events && Members(h)[k] == h[k].events;
  }

  lemma {:induction false} GroupKeysAgree(g: Groups, h: Groups, snapshot: Snapshot, events: seq<Event>, range: int)
    requires IsGrouping(g, snapshot, events, range) && IsGrouping(h, snapshot, events, range)
    ensures forall k :: k in g ==> k in h
  {
    hide KeyOf, BucketText, Parsed, IsRisk, Bucket;
    forall k | k in g ensures k in h {
      InBatch(g, snapshot, events, range, k, g[k].events[0]);
      assert KeyIn(range)(g[k].events[0]) == k && k in Members(h);
    }
  }

  // ----- Attention ids -----

  /** Signing, as far as it matters: different payloads get different ids. */
  ghost predicate Injective(sign: Payload -> string) {
    forall p, q :: sign(p) == sign(q) ==> p == q
  }

  /** The attention id the event list shows on a risk event. */
  function EventAttentionId(sign: Payload -> string, snapshot: Snapshot, e: Event): string {
    var bucket := BucketText(Occurred(e), RangeDuration(snapshot));
    sign(Payload(snapshot, GroupKey(e, bucket), bucket))
  }

  ghost predicate SameBatch(groups: Groups, d: Event, e: Event) {
    exists k :: k in groups && d in groups[k].events && e in groups[k].events
  }

  lemma {:induction false} PayloadOfBatch(
      groups: Groups, snapshot: Snapshot, events: seq<Event>, range: int, k: string, e: Event)
    requires IsGrouping(groups, snapshot, events, range) && k in groups && e in groups[k].events
    ensures groups[k].payload == PayloadFor(snapshot, e, range)
  {
    hide KeyOf, Parsed, IsRisk, BucketText, Occurred;
    var first := groups[k].events[0];
    InBatch(groups, snapshot, events, range, k, first);
    InBatch(groups, snapshot, events, range, k, e);
    SameKey(first, e, range);
  }

  /** A batched event is in one batch only, and the event list shows that batch's id on it. */
  lemma {:induction false} EventShowsItsBatch(
      sign: Payload -> string, groups: Groups, snapshot: Snapshot, events: seq<Event>, f: ViewFilter, e: Event)
    requires f.Accepted() && MatchesFilter(snapshot, f) && IsGrouping(groups, snapshot, events, f.Range())
    requires e in events && InScope(e)
    ensures forall k :: k in groups && e in groups[k].events <==> k == KeyOf(e, f.Range())
    ensures EventAttentionId(sign, snapshot, e) == sign(groups[KeyOf(e, f.Range())].payload)
  {
    SameRange(snapshot, f);
    hide BucketText, Occurred, Parsed, IsRisk, MatchesFilter, GroupKey, RangeDuration;
    var k := KeyOf(e, f.Range());
    assert e in Scoped(events) && KeyIn(f.Range())(e) == k;
    assert k in Members(groups);
    forall j | j in groups ensures e in groups[j].events <==> j == k {
      InBatch(groups, snapshot, events, f.Range(), j, e);
    }
    PayloadOfBatch(groups, snapshot, events, f.Range(), k, e);
  }

  /** What one batch is, written out: up to a range of one day two events of one operation, or one event, are in one
      batch exactly when they are in the same minute, up to seven days in the same hour, beyond in the same day. */
  lemma {:induction false} BatchWidths(
      groups: Groups, snapshot: Snapshot, events: seq<Event>, f: ViewFilter, d: Event, e: Event, s: Instant, t: Instant)
    requires IsGrouping(groups, snapshot, events, f.Range())
    requires d in events && IsRisk(d) && Parse(d.occurredAt) == Some(s)
    requires e in events && IsRisk(e) && Parse(e.occurredAt) == Some(t)
    ensures var w := if f.to - f.from <= 86_400 * NANOS then 60 * NANOS
                     else if f.to - f.from <= 7 * 86_400 * NANOS then 3_600 * NANOS
                     else 86_400 * NANOS;
            SameBatch(groups, d, e) <==>
              && s / w == t / w
              && if d.correlationId == "" && e.correlationId == "" then d.source == e.source && d.id == e.id
                 else d.correlationId == e.correlationId
  {
    hide Parse, IsRisk, IsGrouping, KeyOf, SubjectOf, BucketStart, SameBatch, AuditEvents.Step;
    SharedBatch(groups, snapshot, events, f.Range(), d, e);
    SameKey(d, e, f.Range());
    SameSubject(d, e);
    StepsWrittenOut(f.Range());
    SameStart(s, t, f.Range());
  }

  lemma {:induction false} SameSubject(d: Event, e: Event)
    ensures SubjectOf(d) == SubjectOf(e) <==>
      if d.correlationId == "" && e.correlationId == "" then d.source == e.source && d.id == e.id
      else d.correlationId == e.correlationId
  {}

  lemma {:induction false} StepsWrittenOut(range: int)
    ensures AuditEvents.Step(range) == if range <= 86_400 * NANOS then 60 * NANOS
                                       else if range <= 7 * 86_400 * NANOS then 3_600 * NANOS
                                       else 86_400 * NANOS
  {}

  lemma {:induction false} SameStart(s: Instant, t: Instant, range: int)
    ensures BucketStart(s, range) == BucketStart(t, range)
       <==> s / AuditEvents.Step(range) == t / AuditEvents.Step(range)
  {
    hide AuditEvents.Step;
    SameRounding(s, t, AuditEvents.Step(range));
  }

  lemma {:induction false} SharedBatch(
      groups: Groups, snapshot: Snapshot, events: seq<Event>, range: int, d: Event, e: Event)
    requires IsGrouping(groups, snapshot, events, range)
    requires d in events && InScope(d) && e in events && InScope(e)
    ensures SameBatch(groups, d, e) <==> KeyOf(d, range) == KeyOf(e, range)
  {
    hide KeyOf, Parsed, IsRisk, Bucket;
    assert d in Scoped(events) && KeyIn(range)(d) == KeyOf(d, range);
    assert KeyOf(d, range) in Members(groups);
    forall k | k in groups
      ensures (d in groups[k].events <==> k == KeyOf(d, range)) && (e in groups[k].events <==> k == KeyOf(e, range))
    {
      InBatch(groups, snapshot, events, range, k, d);
      InBatch(groups, snapshot, events, range, k, e);
    }
  }

  /** Two risk events with readable times show the same attention id exactly when they share a batch. */
  lemma {:induction false} SameIdIffSameBatch(
      sign: Payload -> string, groups: Groups, snapshot: Snapshot, events: seq<Event>, f: ViewFilter,
      d: Event, e: Event)
    requires Injective(sign)
    requires f.Accepted() && MatchesFilter(snapshot, f) && IsGrouping(groups, snapshot, events, f.Range())
    requires d in events && InScope(d) && e in events && InScope(e)
    ensures EventAttentionId(sign, snapshot, d) == EventAttentionId(sign, snapshot, e) <==> SameBatch(groups, d, e)
  {
    EventShowsItsBatch(sign, groups, snapshot, events, f, d);
    EventShowsItsBatch(sign, groups, snapshot, events, f, e);
    hide EventAttentionId, KeyOf, InScope, MatchesFilter;
    var j, k := KeyOf(d, f.Range()), KeyOf(e, f.Range());
    PayloadOfBatch(groups, snapshot, events, f.Range(), j, d);
    PayloadOfBatch(groups, snapshot, events, f.Range(), k, e);
    assert sign(groups[j].payload) == sign(groups[k].payload) ==> groups[j].payload == groups[k].payload;
    assert j == k ==> SameBatch(groups, d, e);
  }

  /** A risk event whose time does not parse is in no batch. The id shown on it is still that of a batch
      exactly when the batch has its subject and lies in the bucket of the zero time. */
  lemma {:induction false} UnreadableTimeIsUnbatched(
      sign: Payload -> string, groups: Groups, snapshot: Snapshot, events: seq<Event>, f: ViewFilter, e: Event,
      k: string)
    requires Injective(sign) && f.Accepted() && MatchesFilter(snapshot, f)
    requires IsGrouping(groups, snapshot, events, f.Range())
    requires Parsed(e).None? && k in groups
    ensures e !in groups[k].events
    ensures EventAttentionId(sign, snapshot, e) == sign(groups[k].payload) <==>
              exists d :: d in groups[k].events && SubjectOf(d) == SubjectOf(e)
                && BucketStart(Occurred(d), f.Range()) == BucketStart(ZERO_TIME, f.Range())
  {
    SameRange(snapshot, f);
    assert Occurred(e) == ZERO_TIME;
    InBatch(groups, snapshot, events, f.Range(), k, e);
    hide BucketText, BucketStart, Occurred, Parsed, IsRisk, MatchesFilter, GroupKey, RangeDuration, SubjectOf,
         IsGrouping;
    assert EventAttentionId(sign, snapshot, e) == sign(PayloadFor(snapshot, e, f.Range()));
    forall d | d in groups[k].events
      ensures groups[k].payload == PayloadFor(snapshot, d, f.Range())
      ensures groups[k].payload == PayloadFor(snapshot, e, f.Range())
         <==> SubjectOf(d) == SubjectOf(e) && BucketStart(Occurred(d), f.Range()) == BucketStart(Occurred(e), f.Range())
    {
      PayloadOfBatch(groups, snapshot, events, f.Range(), k, d);
      SameKey(d, e, f.Range());
    }
    assert groups[k].events[0] in groups[k].events;
  }
}
