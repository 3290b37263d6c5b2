/** The lists of the mock audit store and their batches, written out. */
module MockOrder {
  import opened Wrappers
  import opened Text
  import opened Seqs
  import opened MockObservability
  import opened ObservabilityStore

  /** Critical before High before Normal. */
  predicate AtLeastAsSevere(a: Severity, b: Severity) { (b.Critical? ==> a.Critical?) && (b.High? ==> !a.Normal?) }

  lemma {:induction false} RankMeans(a: Severity, b: Severity)
    ensures a.Rank() >= b.Rank() <==> AtLeastAsSevere(a, b)
    ensures a.Rank() == b.Rank() <==> a == b
  {}

  /** Failures first, then severity, then the later time. */
  predicate BatchBefore(st: Setting, a: Preview, b: Preview) {
    && (b.failures > 0 ==> a.failures > 0)
    && ((a.failures > 0 <==> b.failures > 0) ==>
         AtLeastAsSevere(a.severity, b.severity) && (a.severity == b.severity ==> st.locale(b.latest, a.latest)))
  }

  predicate MemberBefore(st: Setting, a: Event, b: Event) {
    && (b.result == "failure" ==> a.result == "failure")
    && ((a.result == "failure" <==> b.result == "failure") ==>
         && AtLeastAsSevere(a.severity, b.severity)
         && (a.severity == b.severity ==> st.locale(b.occurredAt, a.occurredAt)))
  }

  /** The events of a query come with the latest first. */
  lemma {:induction false} EventsInOrder(st: Setting, events: seq<Event>, acks: Acks, q: Query)
    requires Total(st.locale) && Transitive(st.locale)
    ensures var r := EventsFor(st, events, acks, q);
            && (forall i, j :: 0 <= i < j < |r| ==> st.locale(r[j].occurredAt, r[i].occurredAt))
            && multiset(r) == multiset(Filter(Selects(st, acks, q), events))
  {
    hide SortBy, Selects;
    var le, selected := NewestFirst(st), Filter(Selects(st, acks, q), events);
    forall a, b ensures le(a, b) || le(b, a) {
      assert st.locale(a.occurredAt, b.occurredAt) || st.locale(b.occurredAt, a.occurredAt);
    }
    forall a, b, c | le(a, b) && le(b, c) ensures le(a, c) {
      assert st.locale(c.occurredAt, b.occurredAt) && st.locale(b.occurredAt, a.occurredAt);
    }
    SortSorts(le, selected);
    SortPermutes(le, selected);
  }

  predicate Unset(s: string) { s == "" }

  /** What a query selects, condition by condition; one that is not set selects everything. */
  ghost predicate Wanted(st: Setting, acks: Acks, q: Query, e: Event) {
    && (Unset(q.q) || exists a, b ::
         st.lower(e.eventId + "\n" + e.action + "\n" + e.summary + "\n" + e.target + "\n" + e.repository
                  + "\n" + e.actor)
           == a + st.lower(st.trim(q.q)) + b)
    && (!Unset(q.attention) ==>
         && e.attentionId.Some? && e.attentionId.value != ""
         && (q.attention == "pending" ==> e.attentionId.value !in acks)
         && (q.attention == "acknowledged" ==> e.attentionId.value in acks))
    && (!Unset(q.clientIp) ==> |q.clientIp| <= |e.clientIp| && e.clientIp[..|q.clientIp|] == q.clientIp)
    && {q.httpMethod} <= {"", e.httpMethod} && {q.action} <= {"", e.action} && {q.authSource} <= {"", e.authSource}
    && {q.email} <= {"", e.email} && {q.actor} <= {"", e.actor} && {q.repository} <= {"", e.repository}
    && (|q.categories| > 0 ==> e.category in q.categories) && (|q.results| > 0 ==> e.result in q.results)
    && (match q.from case Some(t) => Unset(t) || AtOrBefore(t, e.occurredAt)
                     case None => Unset(st.dayAgo) || AtOrBefore(st.dayAgo, e.occurredAt))
    && (match q.to case Some(t) => Unset(t) || Before(e.occurredAt, t)
                   case None => Unset(st.now) || Before(e.occurredAt, st.now))
  }

  /** A list holds exactly the stored events its query wants. */
  lemma {:induction false} ListedIffWanted(st: Setting, events: seq<Event>, acks: Acks, q: Query, e: Event)
    ensures e in EventsFor(st, events, acks, q) <==> e in events && Wanted(st, acks, q, e)
  {
    SortPermutes(NewestFirst(st), Filter(Selects(st, acks, q), events));
    hide SortBy;
    SelectsWanted(st, acks, q, e);
  }

  lemma {:induction false} SelectsWanted(st: Setting, acks: Acks, q: Query, e: Event)
    ensures Selects(st, acks, q)(e) <==> Wanted(st, acks, q, e)
  {
    hide Contains, Before, AtOrBefore;
    ContainsMeans(st.lower(Haystack(e)), st.lower(st.trim(q.q)));
  }

  lemma {:induction false} NotificationOrderIsTotal(st: Setting)
    requires Total(st.locale) && Transitive(st.locale)
    ensures Total(NotificationOrder(st)) && Transitive(NotificationOrder(st))
  {
    var le := NotificationOrder(st);
    forall a, b ensures le(a, b) || le(b, a) {
      assert st.locale(a.latest, b.latest) || st.locale(b.latest, a.latest);
    }
    forall a, b, c | le(a, b) && le(b, c) ensures le(a, c) {
      assert st.locale(c.latest, b.latest) && st.locale(b.latest, a.latest) ==> st.locale(c.latest, a.latest);
    }
  }

  lemma {:induction false} SortedBatches(st: Setting, previews: seq<Preview>)
    requires Total(st.locale) && Transitive(st.locale)
    ensures var r := SortBy(NotificationOrder(st), previews);
            && (forall i, j :: 0 <= i < j < |r| ==> BatchBefore(st, r[i], r[j]))
            && forall p :: p in r <==> p in previews
  {
    hide SortBy, NotificationOrder, BatchBefore;
    NotificationOrderIsTotal(st);
    SortSorts(NotificationOrder(st), previews);
    SortPermutes(NotificationOrder(st), previews);
    var r := SortBy(NotificationOrder(st), previews);
    forall i, j | 0 <= i < j < |r| ensures BatchBefore(st, r[i], r[j]) {
      NotificationOrderMeans(st, r[i], r[j]);
    }
  }

  lemma {:induction false} PreviewsOfMembers(st: Setting, source: seq<Event>, ids: seq<string>, acks: Acks)
    requires Total(st.locale) && Transitive(st.locale) && forall id :: id in ids ==> MembersOf(source, id) != []
    ensures forall p :: p in Previews(st, source, ids, acks) ==> IsPreviewOf(st, p, MembersOf(source, p.attentionId))
  {
    hide IsPreviewOf, MembersOf;
    var previews := Previews(st, source, ids, acks);
    forall p | p in previews ensures IsPreviewOf(st, p, MembersOf(source, p.attentionId)) {
      var i :| 0 <= i < |previews| && previews[i] == p;
      assert ids[i] in ids;
      hide PreviewOf, Previews;
      PreviewWrittenOut(st, ids[i], MembersOf(source, ids[i]), acks);
    }
  }

  /** The batches of a list come in the order above, each with the number of its failed members and of its successful
      ones and the sum of what they affected. */
  lemma {:induction false} BatchesInOrder(st: Setting, source: seq<Event>, acks: Acks)
    requires Total(st.locale) && Transitive(st.locale)
    ensures var r := Batches(st, source, acks);
            && (forall i, j :: 0 <= i < j < |r| ==> BatchBefore(st, r[i], r[j]))
            && forall p :: p in r ==> IsPreviewOf(st, p, MembersOf(source, p.attentionId))
  {
    BatchesHaveMembers(source);
    hide SortBy, NotificationOrder, BatchBefore, IsPreviewOf, MembersOf, Previews, BatchIds;
    PreviewsOfMembers(st, source, BatchIds(source), acks);
    SortedBatches(st, Previews(st, source, BatchIds(source), acks));
    assert Batches(st, source, acks) == SortBy(NotificationOrder(st), Previews(st, source, BatchIds(source), acks));
  }

  lemma {:induction false} NotificationOrderMeans(st: Setting, a: Preview, b: Preview)
    requires NotificationOrder(st)(a, b)
    ensures BatchBefore(st, a, b)
  {
    hide AtLeastAsSevere, Severity.Rank;
    RankMeans(a.severity, b.severity);
  }

  lemma {:induction false} PrimaryFirstMeans(st: Setting, a: Event, b: Event)
    requires PrimaryFirst(st)(a, b)
    ensures MemberBefore(st, a, b)
  {
    hide AtLeastAsSevere, Severity.Rank;
    RankMeans(a.severity, b.severity);
    assert IsFailure(a) == (a.result == "failure") && IsFailure(b) == (b.result == "failure");
  }

  /** What a preview says of its members. */
  ghost predicate IsPreviewOf(st: Setting, p: Preview, members: seq<Event>) {
    && CountsMembers(p, members)
    && (forall e :: e in members ==> AtLeastAsSevere(p.severity, e.severity))
    && (exists e :: e in members && e.severity == p.severity)
    && (forall e :: e in members ==> AtOrBefore(p.first, e.occurredAt) && AtOrBefore(e.occurredAt, p.latest))
    && p.primary in members && forall e :: e in members ==> MemberBefore(st, p.primary, e)
  }

  ghost predicate CountsMembers(p: Preview, members: seq<Event>) {
    && p.failures == |Filter((e: Event) => e.result == "failure", members)|
    && p.successes == |Filter((e: Event) => e.result == "success", members)|
    && p.affected == Sum(Map((e: Event) => e.affected as int, members))
  }

  lemma {:induction false} PreviewWrittenOut(st: Setting, id: string, members: seq<Event>, acks: Acks)
    requires members != [] && Total(st.locale) && Transitive(st.locale)
    ensures IsPreviewOf(st, PreviewOf(st, id, members, acks), members)
  {
    hide *;
    PreviewEnclosesItsMembers(st, id, members, acks);
    PreviewSumsUpItsMembers(st, id, members, acks);
    PreviewCounts(st, id, members, acks);
    PartsOfPreview(st, PreviewOf(st, id, members, acks), members);
  }

  lemma {:induction false} PartsOfPreview(st: Setting, p: Preview, members: seq<Event>)
    requires CountsMembers(p, members)
    requires forall e :: e in members ==> AtOrBefore(p.first, e.occurredAt) && AtOrBefore(e.occurredAt, p.latest)
    requires p.primary in members && forall e :: e in members ==> PrimaryFirst(st)(p.primary, e)
    requires forall e :: e in members ==> e.severity.Rank() <= p.severity.Rank()
    requires exists e :: e in members && e.severity == p.severity
    ensures IsPreviewOf(st, p, members)
  {
    hide CountsMembers, PrimaryFirst, MemberBefore, AtLeastAsSevere, Severity.Rank, AtOrBefore;
    forall e | e in members ensures MemberBefore(st, p.primary, e) && AtLeastAsSevere(p.severity, e.severity) {
      PrimaryFirstMeans(st, p.primary, e);
      RankMeans(p.severity, e.severity);
    }
  }

  lemma {:induction false} PreviewCounts(st: Setting, id: string, members: seq<Event>, acks: Acks)
    requires members != []
    ensures CountsMembers(PreviewOf(st, id, members, acks), members)
  {
    hide SortBy, Filter, Sum, PrimaryFirst;
    FilterAgrees(IsFailure, (e: Event) => e.result == "failure", members);
    FilterAgrees(IsSuccess, (e: Event) => e.result == "success", members);
    assert Map(Affected, members) == Map((e: Event) => e.affected as int, members);
  }

  // ----- What requests answer -----

  /** A listing under a snapshot changes nothing; one without issues one snapshot, of exactly the events it lists. */
  lemma {:induction false} ListingsIssueOneSnapshot(
      st: Setting, s: State, q: Query, snapshot: string, offset: nat, limit: nat)
    ensures var events, none := Step(st, s, Request.Events(q, snapshot, offset, limit)),
                                Step(st, s, Request.EmptyEvents(q, snapshot));
            var batches := Step(st, s, Request.Attentions(q, snapshot, offset, limit));
            if snapshot != "" then events == none == batches == s
            else
              && events == batches == Issued(s, q, st.now, Map(IdOfEvent, EventsFor(st, s.events, s.acks, q)))
              && none == Issued(s, q, st.now, [])
  {
    hide EventsFor, KeyOf, Batches;
  }

  /** The state with one more snapshot of these ids, under the next number. */
  function Issued(s: State, q: Query, now: string, ids: seq<string>): State {
    var name := "audit-snapshot-" + Decimal(s.nextSnapshot + 1);
    State(s.events, s.acks, s.snapshots[name := Snapshot(ids, KeyOf(q), now)], s.nextSnapshot + 1)
  }

  /** Acknowledging a batch answers with its first acknowledgement and its size, all of it new exactly the first time;
      a batch without members, and the one that is always stale, are refused. */
  lemma {:induction false} AcknowledgeAnswers(s: State, id: string, actor: string, now: string)
    ensures var (t, reply) := Acknowledge(s, id, actor, now);
            var size := |Filter((e: Event) => e.attentionId == Some(id), s.events)|;
            if id == "attention-stale" || size == 0 then reply.NoSuchBatch? && t == s
            else
              && reply.Acknowledged? && reply.total == size
              && reply.newly == (if id in s.acks then 0 else size)
              && t == s.(acks := s.acks[id := reply.first])
              && if id in s.acks then reply.first == s.acks[id]
                 else reply.first.actor == actor && reply.first.time == now
  {
    hide Filter, Bucket;
    BucketIsFilter(id, s.events);
  }

  lemma {:induction false} BucketIsFilter(id: string, events: seq<Event>)
    ensures MembersOf(events, id) == Filter((e: Event) => e.attentionId == Some(id), events)
  {
    if events != [] {
      BucketIsFilter(id, events[..|events| - 1]);
    }
  }
}
