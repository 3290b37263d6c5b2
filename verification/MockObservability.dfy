/** The mock audit read model: which events a query selects, pages of lists, and previews of batches. */
module MockObservability {
  import opened Wrappers
  import opened Text
  import opened Seqs

  datatype Severity = Normal | High | Critical
  {
    function Rank(): nat { if Normal? then 0 else if High? then 1 else 2 }
  }

  /** A stored event; a missing text field is empty. */
  datatype Event = Event(eventId: string, occurredAt: string, category: string, severity: Severity, result: string,
                         action: string, summary: string, target: string, repository: string, actor: string,
                         email: string, authSource: string, httpMethod: string, clientIp: string,
                         operationId: string, affected: nat, attentionId: Option<string>)

  datatype Ack = Ack(actor: string, time: string)

  type Acks = map<string, Ack>

  datatype Query = Query(from: Option<string>, to: Option<string>, q: string, attention: string, httpMethod: string,
                         action: string, clientIp: string, email: string, authSource: string,
                         categories: seq<string>, results: seq<string>, actor: string, repository: string)

  datatype QueryKey = QueryKey(from: string, to: string, q: string, attention: string, httpMethod: string,
                               action: string, clientIp: string, email: string, authSource: string,
                               categories: seq<string>, results: seq<string>, actor: string, repository: string)

  /** Case folding, trimming, the order of the locale, and the fixed present of the store. */
  datatype Setting = Setting(lower: string -> string, trim: string -> string, locale: (string, string) -> bool,
                             now: string, dayAgo: string)

  function OrEmpty(s: Option<string>): string { match s case Some(t) => t case None => "" }

  function KeyOf(q: Query): QueryKey {
    QueryKey(OrEmpty(q.from), OrEmpty(q.to), q.q, q.attention, q.httpMethod, q.action, q.clientIp, q.email,
             q.authSource, SortBy(AtOrBefore, q.categories), SortBy(AtOrBefore, q.results), q.actor, q.repository)
  }

  // ----- Selecting events -----

  predicate InBatch(e: Event) { e.attentionId.Some? && e.attentionId.value != "" }

  predicate Confirmed(acks: Acks, e: Event) { InBatch(e) && e.attentionId.value in acks }

  function Haystack(e: Event): string {
    e.eventId + "\n" + e.action + "\n" + e.summary + "\n" + e.target + "\n" + e.repository + "\n" + e.actor
  }

  predicate Matches(st: Setting, acks: Acks, q: Query, from: string, to: string, e: Event) {
    && (q.q == "" || Contains(st.lower(Haystack(e)), st.lower(st.trim(q.q))))
    && (q.httpMethod == "" || e.httpMethod == q.httpMethod)
    && (q.action == "" || e.action == q.action)
    && (q.authSource == "" || e.authSource == q.authSource)
    && (q.email == "" || e.email == q.email)
    && (q.clientIp == "" || q.clientIp <= e.clientIp)
    && (q.attention == "" ||
        (InBatch(e) && !(q.attention == "pending" && Confirmed(acks, e))
         && !(q.attention == "acknowledged" && !Confirmed(acks, e))))
    && (from == "" || AtOrBefore(from, e.occurredAt)) && (to == "" || Before(e.occurredAt, to))
    && (q.categories == [] || e.category in q.categories) && (q.results == [] || e.result in q.results)
    && (q.actor == "" || e.actor == q.actor) && (q.repository == "" || e.repository == q.repository)
  }

  function Selects(st: Setting, acks: Acks, q: Query): Event -> bool {
    (e: Event) =>
      Matches(st, acks, q, if q.from.Some? then q.from.value else st.dayAgo,
              if q.to.Some? then q.to.value else st.now, e)
  }

  function NewestFirst(st: Setting): (Event, Event) -> bool {
    (a: Event, b: Event) => st.locale(b.occurredAt, a.occurredAt)
  }

  function EventsFor(st: Setting, events: seq<Event>, acks: Acks, q: Query): seq<Event> {
    SortBy(NewestFirst(st), Filter(Selects(st, acks, q), events))
  }

  /** What a query asks of an event besides its bounds in time. */
  predicate MatchesTimeless(st: Setting, acks: Acks, q: Query, e: Event) { Matches(st, acks, q, "", "", e) }

  predicate InBounds(from: string, to: string, e: Event) {
    (from == "" || AtOrBefore(from, e.occurredAt)) && (to == "" || Before(e.occurredAt, to))
  }

  function FromOf(st: Setting, q: Query): string { if q.from.Some? then q.from.value else st.dayAgo }

  function ToOf(st: Setting, q: Query): string { if q.to.Some? then q.to.value else st.now }

  lemma {:induction false} SelectsSplits(st: Setting, acks: Acks, q: Query, e: Event)
    ensures Selects(st, acks, q)(e) <==> MatchesTimeless(st, acks, q, e) && InBounds(FromOf(st, q), ToOf(st, q), e)
  {
    hide Contains, Before, Haystack;
  }

  lemma {:induction false} SameKeySameConditions(st: Setting, acks: Acks, p: Query, q: Query, e: Event)
    requires KeyOf(p) == KeyOf(q)
    ensures MatchesTimeless(st, acks, p, e) == MatchesTimeless(st, acks, q, e)
  {
    hide SortBy, Contains, Before, Haystack;
    SortPermutes(AtOrBefore, p.categories);
    SortPermutes(AtOrBefore, q.categories);
    SortPermutes(AtOrBefore, p.results);
    SortPermutes(AtOrBefore, q.results);
    assert p.categories == [] <==> q.categories == [];
    assert p.results == [] <==> q.results == [];
  }

  /** The bounds two queries with one key share: the one given in both or in neither. */
  predicate InCommonBounds(st: Setting, p: Query, q: Query, e: Event) {
    InBounds(if p.from.Some? == q.from.Some? then FromOf(st, p) else "",
             if p.to.Some? == q.to.Some? then ToOf(st, p) else "", e)
  }

  lemma {:induction false} SelectsAgreeExactly(st: Setting, acks: Acks, p: Query, q: Query, e: Event)
    requires KeyOf(p) == KeyOf(q) && st.dayAgo != "" && st.now != "" && AtOrBefore(st.dayAgo, st.now)
    ensures Selects(st, acks, p)(e) == Selects(st, acks, q)(e) <==>
              (MatchesTimeless(st, acks, p, e) && InCommonBounds(st, p, q, e) ==>
                 && (p.from.Some? != q.from.Some? ==> AtOrBefore(st.dayAgo, e.occurredAt))
                 && (p.to.Some? != q.to.Some? ==> Before(e.occurredAt, st.now)))
  {
    hide Selects, MatchesTimeless, Before, AtOrBefore, SortBy;
    SelectsSplits(st, acks, p, e);
    SelectsSplits(st, acks, q, e);
    SameKeySameConditions(st, acks, p, q, e);
    BeforeTheDayIsBeforeNow(st, e.occurredAt);
    assert OrEmpty(p.from) == OrEmpty(q.from) && OrEmpty(p.to) == OrEmpty(q.to);
  }

  lemma {:induction false} BeforeTheDayIsBeforeNow(st: Setting, time: string)
    requires AtOrBefore(st.dayAgo, st.now)
    ensures AtOrBefore(st.dayAgo, time) || Before(time, st.now)
  {
    if !AtOrBefore(st.dayAgo, time) && !Before(time, st.now) {
      AtOrBeforeIsTransitive(st.dayAgo, st.now, time);
    }
  }

  /** The lists are equal exactly when the queries agree on every stored event. */
  lemma {:induction false} SameListsExactly(st: Setting, events: seq<Event>, acks: Acks, p: Query, q: Query)
    ensures EventsFor(st, events, acks, p) == EventsFor(st, events, acks, q) <==>
              forall e :: e in events ==> Selects(st, acks, p)(e) == Selects(st, acks, q)(e)
  {
    hide Selects, SortBy;
    var le, s, t := NewestFirst(st), Filter(Selects(st, acks, p), events), Filter(Selects(st, acks, q), events);
    SortPermutes(le, s);
    SortPermutes(le, t);
    if forall e :: e in events ==> Selects(st, acks, p)(e) == Selects(st, acks, q)(e) {
      FilterAgrees(Selects(st, acks, p), Selects(st, acks, q), events);
    }
    if EventsFor(st, events, acks, p) == EventsFor(st, events, acks, q) {
      assert forall e :: e in s <==> e in SortBy(le, s);
      assert forall e :: e in t <==> e in SortBy(le, t);
    }
  }

  /** Two queries with one key select the same events exactly when every stored event that meets all they have in
      common lies in the last day where one gives a lower bound and the other does not, and before the
      present where one gives an upper bound and the other does not. */
  lemma {:induction false} SameKeySelectsTheSame(st: Setting, events: seq<Event>, acks: Acks, p: Query, q: Query)
    requires KeyOf(p) == KeyOf(q) && st.dayAgo != "" && st.now != "" && AtOrBefore(st.dayAgo, st.now)
    ensures EventsFor(st, events, acks, p) == EventsFor(st, events, acks, q) <==>
              forall e :: e in events && MatchesTimeless(st, acks, p, e) && InCommonBounds(st, p, q, e) ==>
                && (p.from.Some? != q.from.Some? ==> AtOrBefore(st.dayAgo, e.occurredAt))
                && (p.to.Some? != q.to.Some? ==> Before(e.occurredAt, st.now))
  {
    hide Selects, MatchesTimeless, InCommonBounds, AtOrBefore, Before, KeyOf, EventsFor;
    SameListsExactly(st, events, acks, p, q);
    forall e | e in events {
      SelectsAgreeExactly(st, acks, p, q, e);
    }
  }

  /** An absent bound and an empty one share a key; an event before the last day tells them apart. */
  lemma {:induction false} EmptyBoundIsNotAbsent(st: Setting, acks: Acks, p: Query, e: Event)
    requires p.from == Some("") && st.dayAgo != "" && Before(e.occurredAt, st.dayAgo)
    requires MatchesTimeless(st, acks, p, e) && InBounds("", ToOf(st, p), e)
    ensures KeyOf(p.(from := None)) == KeyOf(p)
    ensures EventsFor(st, [e], acks, p) != EventsFor(st, [e], acks, p.(from := None))
  {
    hide Contains, Before, Haystack, SortBy;
    SameListsExactly(st, [e], acks, p, p.(from := None));
    assert e in [e];
  }

  // ----- Pages -----

  datatype Page<T> = Page(items: seq<T>, next: Option<nat>)

  function PageOf<T>(items: seq<T>, offset: nat, limit: nat): Page<T> {
    var start := if offset < |items| then offset else |items|;
    var end := if start + limit < |items| then start + limit else |items|;
    var next := offset + (end - start);
    Page(items[start..end], if next < |items| then Some(next) else None)
  }

  lemma {:induction false} PageMaps<T, U>(f: T -> U, items: seq<T>, offset: nat, limit: nat)
    ensures PageOf(Map(f, items), offset, limit)
         == Page(Map(f, PageOf(items, offset, limit).items), PageOf(items, offset, limit).next)
  {
    assert Map(f, PageOf(items, offset, limit).items) == PageOf(Map(f, items), offset, limit).items;
  }

  // ----- Batches -----

  datatype Preview = Preview(attentionId: string, severity: Severity, first: string, latest: string, result: string,
                             primary: Event, successes: nat, failures: nat, affected: nat, risk: nat,
                             acknowledged: nat, unacknowledged: nat, firstAck: Option<Ack>)

  function IsFailure(e: Event): bool { e.result == "failure" }

  function IsSuccess(e: Event): bool { e.result == "success" }

  function OccurredAt(e: Event): string { e.occurredAt }

  function Affected(e: Event): int { e.affected }

  /** Failures first, then severity, then the latest. */
  function PrimaryFirst(st: Setting): (Event, Event) -> bool {
    (a: Event, b: Event) =>
      if IsFailure(a) != IsFailure(b) then IsFailure(a)
      else if a.severity != b.severity then a.severity.Rank() > b.severity.Rank()
      else st.locale(b.occurredAt, a.occurredAt)
  }

  lemma {:induction false} SumOfAffected(members: seq<Event>)
    ensures Sum(Map(Affected, members)) >= 0
  {
    if members != [] {
      SumOfAffected(members[..|members| - 1]);
      Unsnoc(members);
      MapSnoc(Affected, members[..|members| - 1], members[|members| - 1]);
      SumSnoc(Map(Affected, members[..|members| - 1]), Affected(members[|members| - 1]));
    }
  }

  /** What a list shows of a batch, of the members it has in the list. */
  function PreviewOf(st: Setting, id: string, members: seq<Event>, acks: Acks): (r: Preview)
    requires members != []
    ensures r.attentionId == id && r.risk == |members| == r.acknowledged + r.unacknowledged
    ensures r.acknowledged == (if id in acks then |members| else 0)
  {
    var times := SortBy(AtOrBefore, Map(OccurredAt, members));
    var ordered := SortBy(PrimaryFirst(st), members);
    SortPermutes(AtOrBefore, Map(OccurredAt, members));
    SortPermutes(PrimaryFirst(st), members);
    SumOfAffected(members);
    var severity :=
      if exists e :: e in members && e.severity.Critical? then Critical
      else if exists e :: e in members && e.severity.High? then High
      else Normal;
    Preview(id, severity, times[0], times[|times| - 1],
            if forall e :: e in members ==> e.result == members[0].result then members[0].result else "mixed",
            ordered[0], |Filter(IsSuccess, members)|, |Filter(IsFailure, members)|, Sum(Map(Affected, members)),
            |members|, if id in acks then |members| else 0, if id in acks then 0 else |members|,
            if id in acks then Some(acks[id]) else None)
  }

  lemma {:induction false} PrimaryOrderIsTotal(st: Setting)
    requires Total(st.locale) && Transitive(st.locale)
    ensures Total(PrimaryFirst(st)) && Transitive(PrimaryFirst(st))
  {
    var le := PrimaryFirst(st);
    forall a, b ensures le(a, b) || le(b, a) {
      assert st.locale(a.occurredAt, b.occurredAt) || st.locale(b.occurredAt, a.occurredAt);
    }
    forall a, b, c | le(a, b) && le(b, c) ensures le(a, c) {
      assert st.locale(c.occurredAt, b.occurredAt) && st.locale(b.occurredAt, a.occurredAt) ==>
        st.locale(c.occurredAt, a.occurredAt);
    }
  }

  /** The first element of a sorted list comes before every element, the last after every one. */
  lemma {:induction false} EndsOfSorted<T(!new)>(le: (T, T) -> bool, s: seq<T>)
    requires Total(le) && Transitive(le) && s != []
    ensures var r := SortBy(le, s);
            |r| == |s| && r[0] in s && r[|r| - 1] in s && forall x :: x in s ==> le(r[0], x) && le(x, r[|r| - 1])
  {
    hide SortBy;
    SortPermutes(le, s);
    SortSorts(le, s);
    var r := SortBy(le, s);
    assert r[0] in r && r[|r| - 1] in r;
    forall x | x in s ensures le(r[0], x) && le(x, r[|r| - 1]) {
      var i :| 0 <= i < |r| && r[i] == x;
      assert le(x, x) || le(x, x);
    }
  }

  /** The times of a preview enclose the members' times, and its primary event precedes every member. */
  lemma {:induction false} PreviewEnclosesItsMembers(st: Setting, id: string, members: seq<Event>, acks: Acks)
    requires members != [] && Total(st.locale) && Transitive(st.locale)
    ensures var r := PreviewOf(st, id, members, acks);
            && (forall e :: e in members ==> AtOrBefore(r.first, e.occurredAt) && AtOrBefore(e.occurredAt, r.latest))
            && r.first in Map(OccurredAt, members) && r.latest in Map(OccurredAt, members)
            && r.primary in members && forall e :: e in members ==> PrimaryFirst(st)(r.primary, e)
  {
    hide SortBy, PrimaryFirst, AtOrBefore, Filter, Sum;
    TextOrderIsTotal();
    EndsOfSorted(AtOrBefore, Map(OccurredAt, members));
    PrimaryOrderIsTotal(st);
    EndsOfSorted(PrimaryFirst(st), members);
    forall e | e in members ensures e.occurredAt in Map(OccurredAt, members) {
      var i :| 0 <= i < |members| && members[i] == e;
      assert Map(OccurredAt, members)[i] == e.occurredAt;
    }
  }

  lemma {:induction false} TwoOutcomesExclude(members: seq<Event>)
    ensures |Filter(IsSuccess, members)| + |Filter(IsFailure, members)| <= |members|
    ensures |Filter(IsSuccess, members)| + |Filter(IsFailure, members)| == |members| <==>
              forall e :: e in members ==> IsSuccess(e) || IsFailure(e)
  {
    if members != [] {
      var init, e := members[..|members| - 1], members[|members| - 1];
      Unsnoc(members);
      assert forall d :: d in members <==> d in init || d == e;
      TwoOutcomesExclude(init);
    }
  }

  /** A preview shows the greatest severity of its members and their result when they share one, else "mixed"; its
      successes and failures are distinct members, and all of them exactly when no other result occurs. */
  lemma {:induction false} PreviewSumsUpItsMembers(st: Setting, id: string, members: seq<Event>, acks: Acks)
    requires members != []
    ensures var r := PreviewOf(st, id, members, acks);
            && (forall e :: e in members ==> e.severity.Rank() <= r.severity.Rank())
            && (exists e :: e in members && e.severity == r.severity)
            && (if exists d, e :: d in members && e in members && d.result != e.result then r.result == "mixed"
                else forall e :: e in members ==> r.result == e.result)
            && r.successes + r.failures <= |members|
            && (r.successes + r.failures == |members| <==> forall e :: e in members ==> IsSuccess(e) || IsFailure(e))
            && (r.failures > 0 <==> exists e :: e in members && IsFailure(e))
  {
    hide SortBy, PrimaryFirst, Filter, Sum, IsSuccess, IsFailure;
    assert members[0] in members;
    TwoOutcomesExclude(members);
    NoneKept(IsFailure, members);
  }

  function NotificationOrder(st: Setting): (Preview, Preview) -> bool {
    (a: Preview, b: Preview) =>
      if (a.failures > 0) != (b.failures > 0) then a.failures > 0
      else if a.severity != b.severity then a.severity.Rank() > b.severity.Rank()
      else st.locale(b.latest, a.latest)
  }

  /** The batches of a list of events, in order of their first event. */
  function BatchIds(source: seq<Event>): (r: seq<string>)
    ensures forall id :: id in r <==> id != "" && exists e :: e in source && e.attentionId == Some(id)
    ensures Distinct(r)
  {
    if source == [] then []
    else
      var init, e := source[..|source| - 1], source[|source| - 1];
      assert source == init + [e];
      var ids := BatchIds(init);
      if InBatch(e) && e.attentionId.value !in ids then ids + [e.attentionId.value] else ids
  }

  function AttentionOf(e: Event): Option<string> { e.attentionId }

  function MembersOf(source: seq<Event>, id: string): seq<Event> { Bucket(AttentionOf, Some(id), source) }

  /** The previews of a list's batches, in the order given by their ids. */
  function Previews(st: Setting, source: seq<Event>, ids: seq<string>, acks: Acks): (r: seq<Preview>)
    requires forall id :: id in ids ==> MembersOf(source, id) != []
    ensures |r| == |ids|
    ensures forall i :: 0 <= i < |ids| ==> r[i] == PreviewOf(st, ids[i], MembersOf(source, ids[i]), acks)
  {
    seq(|ids|, i requires 0 <= i < |ids| =>
        assert ids[i] in ids; PreviewOf(st, ids[i], MembersOf(source, ids[i]), acks))
  }

  lemma {:induction false} BatchesHaveMembers(source: seq<Event>)
    ensures forall id :: id in BatchIds(source) ==> MembersOf(source, id) != []
  {
    forall id | id in BatchIds(source) ensures MembersOf(source, id) != [] {
      var e :| e in source && e.attentionId == Some(id);
      assert e in MembersOf(source, id);
    }
  }

  function Batches(st: Setting, source: seq<Event>, acks: Acks): seq<Preview> {
    BatchesHaveMembers(source);
    SortBy(NotificationOrder(st), Previews(st, source, BatchIds(source), acks))
  }

  function IdOf(p: Preview): string { p.attentionId }

  /** The preview as it was before any acknowledgement. */
  function Unacknowledged(p: Preview): Preview { p.(acknowledged := 0, unacknowledged := p.risk, firstAck := None) }

  /** Acknowledging moves no batch in a list. */
  lemma {:induction false} AcksKeepTheOrderOfBatches(st: Setting, source: seq<Event>, acks: Acks, later: Acks)
    ensures Map(IdOf, Batches(st, source, acks)) == Map(IdOf, Batches(st, source, later))
  {
    hide SortBy, BatchIds, MembersOf, PreviewOf;
    BatchesHaveMembers(source);
    WithoutAcks(st, source, acks);
    WithoutAcks(st, source, later);
  }

  lemma {:induction false} WithoutAcks(st: Setting, source: seq<Event>, acks: Acks)
    ensures Map(IdOf, Batches(st, source, acks)) == Map(IdOf, Batches(st, source, map[]))
  {
    BatchesHaveMembers(source);
    hide BatchIds, MembersOf, SortBy;
    var ids := BatchIds(source);
    var ps, qs := Previews(st, source, ids, acks), Previews(st, source, ids, map[]);
    assert Map(Unacknowledged, ps) == qs;
    hide PreviewOf;
    SortMaps(Unacknowledged, NotificationOrder(st), NotificationOrder(st), ps);
    var sorted := SortBy(NotificationOrder(st), ps);
    assert Map(IdOf, Map(Unacknowledged, sorted)) == Map(IdOf, sorted);
  }
}
