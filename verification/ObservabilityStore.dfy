/** The mock audit store: snapshots, listings under them, acknowledgements and appended events, and runs of these. */
module ObservabilityStore {
  import opened Wrappers
  import opened Text
  import opened Seqs
  import opened MockObservability

  datatype Snapshot = Snapshot(ids: seq<string>, query: QueryKey, snapshotAt: string)

  datatype State = State(events: seq<Event>, acks: Acks, snapshots: map<string, Snapshot>, nextSnapshot: nat)

  datatype Listing<T> = Stale
    | Listing(items: seq<T>, total: nat, snapshot: string, snapshotAt: string, next: Option<nat>)

  datatype AckReply = NoSuchBatch | Acknowledged(first: Ack, total: nat, newly: nat)

  datatype Shown = Shown(event: Event, ack: Option<Ack>)

  function IdOfEvent(e: Event): string { e.eventId }

  // ----- What each request does -----

  function SnapshotName(n: nat): string { "audit-snapshot-" + Decimal(n) }

  function WithSnapshot(st: Setting, s: State, q: Query, items: seq<Event>): State {
    var n := s.nextSnapshot + 1;
    s.(snapshots := s.snapshots[SnapshotName(n) := Snapshot(Map(IdOfEvent, items), KeyOf(q), st.now)],
       nextSnapshot := n)
  }

  predicate IsStale(s: State, q: Query, snapshot: string) {
    snapshot != "" && (snapshot !in s.snapshots || s.snapshots[snapshot].query != KeyOf(q))
  }

  function FindEvent(events: seq<Event>, id: string): Option<Event> {
    if events == [] then None
    else
      var before := FindEvent(events[..|events| - 1], id);
      if before.Some? then before else if events[|events| - 1].eventId == id then Some(events[|events| - 1]) else None
  }

  /** The stored events with these ids, in the order of the ids. */
  function Resolve(events: seq<Event>, ids: seq<string>): seq<Event> {
    if ids == [] then []
    else
      Resolve(events, ids[..|ids| - 1]) + match FindEvent(events, ids[|ids| - 1]) case Some(e) => [e] case None => []
  }

  /** The events a listing is made of. */
  function Source(st: Setting, s: State, q: Query, snapshot: string): seq<Event> {
    if snapshot in s.snapshots && snapshot != "" then Resolve(s.events, s.snapshots[snapshot].ids)
    else EventsFor(st, s.events, s.acks, q)
  }

  function Show(acks: Acks): Event -> Shown {
    (e: Event) => Shown(e, if Confirmed(acks, e) then Some(acks[e.attentionId.value]) else None)
  }

  /** The state and the snapshot after a listing was asked for. */
  function Opened(st: Setting, s: State, q: Query, snapshot: string): (State, string) {
    if snapshot != "" then (s, snapshot)
    else (WithSnapshot(st, s, q, EventsFor(st, s.events, s.acks, q)), SnapshotName(s.nextSnapshot + 1))
  }

  function ListingOf<T>(s: State, items: seq<T>, snapshot: string, offset: nat, limit: nat): Listing<T> {
    var page := PageOf(items, offset, limit);
    Listing(page.items, |items|, snapshot,
            if snapshot in s.snapshots then s.snapshots[snapshot].snapshotAt else "", page.next)
  }

  function ListEvents(
      st: Setting, s: State, q: Query, snapshot: string, offset: nat, limit: nat): (State, Listing<Shown>)
  {
    if IsStale(s, q, snapshot) then (s, Stale)
    else
      var (t, name) := Opened(st, s, q, snapshot);
      (t, ListingOf(t, Map(Show(s.acks), Source(st, s, q, snapshot)), name, offset, limit))
  }

  function ListAttentions(
      st: Setting, s: State, q: Query, snapshot: string, offset: nat, limit: nat): (State, Listing<Preview>)
  {
    if IsStale(s, q, snapshot) then (s, Stale)
    else
      var (t, name) := Opened(st, s, q, snapshot);
      (t, ListingOf(t, Batches(st, Source(st, s, q, snapshot), s.acks), name, offset, limit))
  }

  const STALE_ID := "attention-stale"

  function Acknowledge(s: State, id: string, actor: string, now: string): (State, AckReply) {
    var size := |MembersOf(s.events, id)|;
    if id == STALE_ID || size == 0 then (s, NoSuchBatch)
    else if id in s.acks then (s, Acknowledged(s.acks[id], size, 0))
    else (s.(acks := s.acks[id := Ack(actor, now)]), Acknowledged(Ack(actor, now), size, size))
  }

  function NewRiskEventId(n: nat): string { "audit-new-risk-" + Decimal(n) }

  function NewRiskAttentionId(n: nat): string { "attention-new-risk-" + Decimal(n) }

  function NewRisk(n: nat, occurredAt: string): Event {
    Event(NewRiskEventId(n), occurredAt, "security_event", Critical, "failure", "security.policy_rejected", "new risk",
          "policy", "", "system", "", "internal", "", "", "", 1, Some(NewRiskAttentionId(n)))
  }

  function Append(s: State, occurredAt: string): State {
    s.(events := s.events + [NewRisk(|s.events| + 1, occurredAt)])
  }

  // ----- Requests and runs -----

  datatype Request =
    | Summary(query: Query)
    | EmptySummary(query: Query)
    | Events(query: Query, snapshot: string, offset: nat, limit: nat)
    | EmptyEvents(query: Query, snapshot: string)
    | Attentions(query: Query, snapshot: string, offset: nat, limit: nat)
    | AcknowledgeBatch(id: string, actor: string, now: string)
    | AppendNewRisk(occurredAt: string)

  function Step(st: Setting, s: State, r: Request): State {
    match r
    case Summary(q) => WithSnapshot(st, s, q, EventsFor(st, s.events, s.acks, q))
    case EmptySummary(q) => WithSnapshot(st, s, q, [])
    case Events(q, snapshot, offset, limit) => ListEvents(st, s, q, snapshot, offset, limit).0
    case EmptyEvents(q, snapshot) => if snapshot != "" then s else WithSnapshot(st, s, q, [])
    case Attentions(q, snapshot, offset, limit) => ListAttentions(st, s, q, snapshot, offset, limit).0
    case AcknowledgeBatch(id, actor, now) => Acknowledge(s, id, actor, now).0
    case AppendNewRisk(occurredAt) => Append(s, occurredAt)
  }

  function Run(st: Setting, s: State, rs: seq<Request>): State {
    if rs == [] then s else Step(st, Run(st, s, rs[..|rs| - 1]), rs[|rs| - 1])
  }

  // ----- What every run keeps -----

  ghost predicate Valid(s: State) {
    && (forall i, j :: 0 <= i < j < |s.events| ==> s.events[i].eventId != s.events[j].eventId)
    && (forall e, n :: e in s.events && n > |s.events| ==>
          e.eventId != NewRiskEventId(n) && e.attentionId != Some(NewRiskAttentionId(n)))
    && (forall name :: name in s.snapshots ==>
        name != "" && (exists n :: 1 <= n <= s.nextSnapshot && name == SnapshotName(n)))
    && forall name, id :: name in s.snapshots && id in s.snapshots[name].ids ==> FindEvent(s.events, id).Some?
  }

  /** Events are only appended, snapshots stay as issued, and a first acknowledgement is never replaced. */
  ghost predicate Extends(s: State, t: State) {
    && s.events <= t.events
    && (forall name :: name in s.snapshots ==> name in t.snapshots && t.snapshots[name] == s.snapshots[name])
    && forall id :: id in s.acks ==> id in t.acks && t.acks[id] == s.acks[id]
  }

  lemma {:induction false} FindInLonger(events: seq<Event>, more: seq<Event>, id: string)
    requires events <= more && FindEvent(events, id).Some?
    ensures FindEvent(more, id) == FindEvent(events, id)
  {
    if |more| == |events| {
      assert more == events;
    } else {
      FindInLonger(events, more[..|more| - 1], id);
    }
  }

  lemma {:induction false} FindStored(events: seq<Event>, e: Event)
    requires e in events && forall i, j :: 0 <= i < j < |events| ==> events[i].eventId != events[j].eventId
    ensures FindEvent(events, e.eventId) == Some(e)
  {
    var init, last := events[..|events| - 1], events[|events| - 1];
    if e in init {
      FindStored(init, e);
    } else {
      FindOnlyStored(init, e.eventId);
      assert e == last;
      assert forall i :: 0 <= i < |init| ==> init[i] == events[i] && events[i].eventId != last.eventId;
    }
  }

  lemma {:induction false} FindOnlyStored(events: seq<Event>, id: string)
    ensures FindEvent(events, id).Some? ==>
      FindEvent(events, id).value in events && FindEvent(events, id).value.eventId == id
  {
    if events != [] {
      FindOnlyStored(events[..|events| - 1], id);
    }
  }

  lemma {:induction false} SnapshotNameIsInjective(m: nat, n: nat)
    ensures SnapshotName(m) == SnapshotName(n) <==> m == n
  {
    if SnapshotName(m) == SnapshotName(n) {
      var p := |"audit-snapshot-"|;
      assert Decimal(m) == SnapshotName(m)[p..] && Decimal(n) == SnapshotName(n)[p..];
      DecimalIsInjective(m, n);
    }
  }

  lemma {:induction false} NewRiskIdsAreInjective(m: nat, n: nat)
    ensures NewRiskEventId(m) == NewRiskEventId(n) <==> m == n
    ensures NewRiskAttentionId(m) == NewRiskAttentionId(n) <==> m == n
  {
    var p, q := |"audit-new-risk-"|, |"attention-new-risk-"|;
    assert Decimal(m) == NewRiskEventId(m)[p..] && Decimal(n) == NewRiskEventId(n)[p..];
    assert Decimal(m) == NewRiskAttentionId(m)[q..] && Decimal(n) == NewRiskAttentionId(n)[q..];
    if Decimal(m) == Decimal(n) {
      DecimalIsInjective(m, n);
    }
  }

  lemma {:induction false} IssuedSnapshot(st: Setting, s: State, q: Query, items: seq<Event>)
    requires Valid(s) && forall e :: e in items ==> e in s.events
    ensures Valid(WithSnapshot(st, s, q, items)) && Extends(s, WithSnapshot(st, s, q, items))
    ensures SnapshotName(s.nextSnapshot + 1) !in s.snapshots
  {
    hide SnapshotName, FindEvent, KeyOf;
    var n := s.nextSnapshot + 1;
    forall m | 1 <= m <= s.nextSnapshot ensures SnapshotName(m) != SnapshotName(n) {
      SnapshotNameIsInjective(m, n);
    }
    assert SnapshotName(n) != "" by { NamedSnapshot(n); }
    var t := WithSnapshot(st, s, q, items);
    forall id | id in Map(IdOfEvent, items) ensures FindEvent(s.events, id).Some? {
      var i :| 0 <= i < |items| && items[i].eventId == id;
      assert items[i] in items;
      FindStored(s.events, items[i]);
    }
    forall name | name in t.snapshots ensures exists k :: 1 <= k <= n && name == SnapshotName(k) {
      if name in s.snapshots && name != SnapshotName(n) {
        var k :| 1 <= k <= s.nextSnapshot && name == SnapshotName(k);
      }
    }
  }

  lemma {:induction false} NamedSnapshot(n: nat)
    ensures SnapshotName(n) != ""
  {}

  lemma {:induction false} SelectedAreStored(st: Setting, s: State, q: Query)
    ensures forall e :: e in EventsFor(st, s.events, s.acks, q) ==> e in s.events
  {
    hide Selects, SortBy;
    SortPermutes(NewestFirst(st), Filter(Selects(st, s.acks, q), s.events));
  }

  lemma {:induction false} AppendKeeps(s: State, occurredAt: string)
    requires Valid(s)
    ensures Valid(Append(s, occurredAt)) && Extends(s, Append(s, occurredAt))
  {
    hide SnapshotName, FindEvent, NewRiskEventId, NewRiskAttentionId;
    var t := Append(s, occurredAt);
    var e := t.events[|s.events|];
    forall i | 0 <= i < |s.events| ensures t.events[i] in s.events {
      assert t.events[i] == s.events[i];
    }
    forall n | n > |t.events| ensures e.eventId != NewRiskEventId(n) && e.attentionId != Some(NewRiskAttentionId(n)) {
      NewRiskIdsAreInjective(|t.events|, n);
    }
    forall name, id | name in s.snapshots && id in s.snapshots[name].ids ensures FindEvent(t.events, id).Some? {
      FindInLonger(s.events, t.events, id);
    }
  }

  lemma {:induction false} StepKeeps(st: Setting, s: State, r: Request)
    requires Valid(s)
    ensures Valid(Step(st, s, r)) && Extends(s, Step(st, s, r))
  {
    hide Valid, Extends, EventsFor, MembersOf, SnapshotName, KeyOf;
    SameExtends(s);
    match r
    case AppendNewRisk(occurredAt) => AppendKeeps(s, occurredAt);
    case AcknowledgeBatch(id, actor, now) => AcknowledgeKeeps(s, id, actor, now);
    case _ =>
      SelectedAreStored(st, s, r.query);
      IssuedSnapshot(st, s, r.query, EventsFor(st, s.events, s.acks, r.query));
      IssuedSnapshot(st, s, r.query, []);
  }

  lemma {:induction false} SameExtends(s: State)
    ensures Extends(s, s)
  {}

  lemma {:induction false} AcknowledgeKeeps(s: State, id: string, actor: string, now: string)
    requires Valid(s)
    ensures Valid(Acknowledge(s, id, actor, now).0) && Extends(s, Acknowledge(s, id, actor, now).0)
  {
    hide SnapshotName, FindEvent, NewRiskEventId, NewRiskAttentionId, MembersOf;
  }

  lemma {:induction false} ExtendsChains(s: State, t: State, u: State)
    requires Extends(s, t) && Extends(t, u)
    ensures Extends(s, u)
  {}

  lemma {:induction false} RunKeeps(st: Setting, s: State, rs: seq<Request>)
    requires Valid(s)
    ensures Valid(Run(st, s, rs)) && Extends(s, Run(st, s, rs))
  {
    if rs == [] {
      SameExtends(s);
    } else {
      hide Valid, Step, Extends;
      var init := Run(st, s, rs[..|rs| - 1]);
      RunKeeps(st, s, rs[..|rs| - 1]);
      StepKeeps(st, init, rs[|rs| - 1]);
      ExtendsChains(s, init, Step(st, init, rs[|rs| - 1]));
    }
  }

  // ----- Snapshots are isolated -----

  lemma {:induction false} ResolveStep(events: seq<Event>, ids: seq<string>, id: string)
    requires FindEvent(events, id).Some?
    ensures Resolve(events, ids + [id]) == Resolve(events, ids) + [FindEvent(events, id).value]
    ensures FindEvent(events, id).value.eventId == id
  {
    hide FindEvent;
    assert (ids + [id])[..|ids|] == ids;
    FindOnlyStored(events, id);
  }

  lemma {:induction false} ResolveInLonger(events: seq<Event>, more: seq<Event>, ids: seq<string>)
    requires events <= more && forall id :: id in ids ==> FindEvent(events, id).Some?
    ensures Resolve(more, ids) == Resolve(events, ids)
    ensures Map(IdOfEvent, Resolve(events, ids)) == ids
  {
    if ids != [] {
      hide FindEvent, Resolve;
      var init, id := ids[..|ids| - 1], ids[|ids| - 1];
      assert ids == init + [id];
      ResolveInLonger(events, more, init);
      FindInLonger(events, more, id);
      ResolveStep(events, init, id);
      ResolveStep(more, init, id);
      MapSnoc(IdOfEvent, Resolve(events, init), FindEvent(events, id).value);
    }
  }

  lemma {:induction false} ResolveStored(events: seq<Event>, items: seq<Event>)
    requires forall i, j :: 0 <= i < j < |events| ==> events[i].eventId != events[j].eventId
    requires forall e :: e in items ==> e in events
    ensures Resolve(events, Map(IdOfEvent, items)) == items
  {
    if items != [] {
      hide FindEvent;
      var init, e := items[..|items| - 1], items[|items| - 1];
      assert items == init + [e];
      ResolveStored(events, init);
      MapSnoc(IdOfEvent, init, e);
      FindStored(events, e);
      assert Map(IdOfEvent, items)[..|items| - 1] == Map(IdOfEvent, init);
    }
  }

  lemma {:induction false} SourceStays(st: Setting, s: State, t: State, q: Query, snapshot: string)
    requires Valid(s) && Extends(s, t) && snapshot in s.snapshots
    ensures Source(st, t, q, snapshot) == Source(st, s, q, snapshot)
    ensures Map(IdOfEvent, Source(st, s, q, snapshot)) == s.snapshots[snapshot].ids
  {
    hide FindEvent, SnapshotName, EventsFor;
    ResolveInLonger(s.events, t.events, s.snapshots[snapshot].ids);
  }

  function IdOfShown(x: Shown): string { x.event.eventId }

  lemma {:induction false} ShownIds(acks: Acks, source: seq<Event>)
    ensures Map(IdOfShown, Map(Show(acks), source)) == Map(IdOfEvent, source)
  {}

  /** What a listing shows of the order of things: which ids, how many in all, and where to go on. */
  ghost predicate SameIds<T>(id: T -> string, a: Listing<T>, b: Listing<T>) {
    (a.Stale? && b.Stale?) ||
    (a.Listing? && b.Listing? && Map(id, a.items) == Map(id, b.items) && a.total == b.total && a.next == b.next
     && a.snapshot == b.snapshot && a.snapshotAt == b.snapshotAt)
  }

  lemma {:induction false} SamePage<T>(
      id: T -> string, s: State, t: State, xs: seq<T>, ys: seq<T>, snapshot: string, offset: nat, limit: nat)
    requires Map(id, xs) == Map(id, ys) && snapshot in s.snapshots && snapshot in t.snapshots
    requires s.snapshots[snapshot] == t.snapshots[snapshot]
    ensures SameIds(id, ListingOf(s, xs, snapshot, offset, limit), ListingOf(t, ys, snapshot, offset, limit))
  {
    hide Map, PageOf;
    PageMaps(id, xs, offset, limit);
    PageMaps(id, ys, offset, limit);
    assert |Map(id, xs)| == |xs| && |Map(id, ys)| == |ys|;
  }

  /** Under an issued snapshot the ids, the total and the cursors of both lists never change, whatever is
      appended, acknowledged or asked for in between; the events listed are the snapshot's. */
  lemma {:induction false} SnapshotsAreIsolated(
      st: Setting, s: State, rs: seq<Request>, q: Query, snapshot: string, offset: nat, limit: nat)
    requires Valid(s) && snapshot in s.snapshots
    ensures var t := Run(st, s, rs);
            && SameIds(IdOfShown, ListEvents(st, s, q, snapshot, offset, limit).1,
                       ListEvents(st, t, q, snapshot, offset, limit).1)
            && SameIds(IdOf, ListAttentions(st, s, q, snapshot, offset, limit).1,
                       ListAttentions(st, t, q, snapshot, offset, limit).1)
            && (!IsStale(s, q, snapshot) ==>
                  var r := ListEvents(st, t, q, snapshot, offset, limit).1;
                  && Page(Map(IdOfShown, r.items), r.next) == PageOf(s.snapshots[snapshot].ids, offset, limit)
                  && r.total == |s.snapshots[snapshot].ids|)
  {
    hide Source, Show, Batches, Map, PageOf, KeyOf, EventsFor, Run, Valid, SameIds, ListingOf;
    RunKeeps(st, s, rs);
    var t := Run(st, s, rs);
    NamedInValid(s, snapshot);
    SourceStays(st, s, t, q, snapshot);
    var source := Source(st, s, q, snapshot);
    ShownIds(s.acks, source);
    ShownIds(t.acks, source);
    SamePage(IdOfShown, s, t, Map(Show(s.acks), source), Map(Show(t.acks), source), snapshot, offset, limit);
    AcksKeepTheOrderOfBatches(st, source, s.acks, t.acks);
    SamePage(IdOf, s, t, Batches(st, source, s.acks), Batches(st, source, t.acks), snapshot, offset, limit);
    StaleStays(s, t, q, snapshot);
    if !IsStale(s, q, snapshot) {
      ListedIds(t, Map(Show(t.acks), source), s.snapshots[snapshot].ids, snapshot, offset, limit);
    } else {
      BothStale(IdOfShown);
      BothStale(IdOf);
    }
  }

  lemma {:induction false} NamedInValid(s: State, snapshot: string)
    requires Valid(s) && snapshot in s.snapshots
    ensures snapshot != ""
  {}

  lemma {:induction false} BothStale<T>(id: T -> string)
    ensures SameIds<T>(id, Stale, Stale)
  {}

  lemma {:induction false} ListedIds(
      t: State, items: seq<Shown>, ids: seq<string>, snapshot: string, offset: nat, limit: nat)
    requires Map(IdOfShown, items) == ids
    ensures var r := ListingOf(t, items, snapshot, offset, limit);
            r.Listing? && Page(Map(IdOfShown, r.items), r.next) == PageOf(ids, offset, limit) && r.total == |ids|
  {
    hide PageOf, IdOfShown;
    PageMaps(IdOfShown, items, offset, limit);
  }

  lemma {:induction false} StaleStays(s: State, t: State, q: Query, snapshot: string)
    requires Extends(s, t) && snapshot in s.snapshots
    ensures IsStale(s, q, snapshot) == IsStale(t, q, snapshot)
  {
    hide KeyOf;
  }

  /** A listing under its snapshot shows what was listed when the snapshot was issued. */
  lemma {:induction false} SnapshotReproducesItsListing(st: Setting, s: State, q: Query, rs: seq<Request>)
    requires Valid(s)
    ensures var (t, name) := Opened(st, s, q, "");
            && !IsStale(Run(st, t, rs), q, name)
            && Source(st, Run(st, t, rs), q, name) == EventsFor(st, s.events, s.acks, q)
  {
    hide Run, Valid, KeyOf, EventsFor, Resolve, SnapshotName;
    var (t, name) := Opened(st, s, q, "");
    var items := EventsFor(st, s.events, s.acks, q);
    SelectedAreStored(st, s, q);
    IssuedSnapshot(st, s, q, items);
    NamedInValid(t, name);
    RunKeeps(st, t, rs);
    SourceStays(st, t, Run(st, t, rs), q, name);
    StaleStays(t, Run(st, t, rs), q, name);
    StoredIdsDiffer(s);
    ResolveStored(s.events, items);
  }

  lemma {:induction false} StoredIdsDiffer(s: State)
    requires Valid(s)
    ensures forall i, j :: 0 <= i < j < |s.events| ==> s.events[i].eventId != s.events[j].eventId
  {
    hide FindEvent, SnapshotName;
  }

  /** Requests that come between two pages, and the limit of the page after them. */
  datatype Turn = Turn(between: seq<Request>, limit: nat)

  /** The ids met by following the cursors of the event list under one snapshot, and where the last page ends. */
  function Follow(
      st: Setting, s: State, q: Query, snapshot: string, offset: nat, turns: seq<Turn>): (seq<string>, Option<nat>)
    decreases |turns|
  {
    if turns == [] then ([], Some(offset))
    else
      var t := Run(st, s, turns[0].between);
      var r := ListEvents(st, t, q, snapshot, offset, turns[0].limit).1;
      if r.Stale? then ([], None)
      else if r.next.None? then (Map(IdOfShown, r.items), None)
      else
        var (rest, end) := Follow(st, t, q, snapshot, r.next.value, turns[1..]);
        (Map(IdOfShown, r.items) + rest, end)
  }

  /** The ids from an offset to where the pages ended; each page met at least one. */
  ghost predicate MetFrom(ids: seq<string>, offset: nat, pages: nat, met: seq<string>, end: Option<nat>)
    requires offset <= |ids|
  {
    if end.None? then met == ids[offset..]
    else offset + pages <= end.value <= |ids| && met == ids[offset..end.value]
  }

  lemma {:induction false} MetMore(
      ids: seq<string>, offset: nat, next: nat, pages: nat, met: seq<string>, end: Option<nat>)
    requires offset < next <= |ids| && MetFrom(ids, next, pages, met, end)
    ensures MetFrom(ids, offset, pages + 1, ids[offset..next] + met, end)
  {}

  /** Following the cursors to the end meets every event of the snapshot exactly once, in its order; with
      limits of at least 1 no more pages have a next cursor than there are events left. */
  lemma {:induction false} CursorsMeetEveryEventOnce(
      st: Setting, s: State, q: Query, snapshot: string, offset: nat, turns: seq<Turn>)
    requires Valid(s) && snapshot in s.snapshots && !IsStale(s, q, snapshot) && offset <= |s.snapshots[snapshot].ids|
    requires forall i :: 0 <= i < |turns| ==> turns[i].limit >= 1
    ensures var (met, end) := Follow(st, s, q, snapshot, offset, turns);
            MetFrom(s.snapshots[snapshot].ids, offset, |turns|, met, end)
    decreases |turns|
  {
    if turns == [] {
      assert s.snapshots[snapshot].ids[offset..offset] == [];
    } else {
      hide *;
      var t := Run(st, s, turns[0].between);
      OneTurn(st, s, q, snapshot, offset, turns[0]);
      FollowStep(st, s, q, snapshot, offset, turns);
      var next := ListEvents(st, t, q, snapshot, offset, turns[0].limit).1.next;
      if next.None? {
        LastTurn(s.snapshots[snapshot].ids, offset, |turns|);
      } else {
        CursorsMeetEveryEventOnce(st, t, q, snapshot, next.value, turns[1..]);
        var (met, end) := Follow(st, t, q, snapshot, next.value, turns[1..]);
        MetMore(s.snapshots[snapshot].ids, offset, next.value, |turns| - 1, met, end);
      }
    }
  }

  lemma {:induction false} LastTurn(ids: seq<string>, offset: nat, pages: nat)
    requires offset <= |ids|
    ensures MetFrom(ids, offset, pages, ids[offset..], None)
  {}

  lemma {:induction false} FollowStep(st: Setting, s: State, q: Query, snapshot: string, offset: nat, turns: seq<Turn>)
    requires turns != []
    ensures var t := Run(st, s, turns[0].between);
            var r := ListEvents(st, t, q, snapshot, offset, turns[0].limit).1;
            Follow(st, s, q, snapshot, offset, turns) ==
              if r.Stale? then ([], None)
              else if r.next.None? then (Map(IdOfShown, r.items), None)
              else
                var (rest, end) := Follow(st, t, q, snapshot, r.next.value, turns[1..]);
                (Map(IdOfShown, r.items) + rest, end)
  {
    hide Run, ListEvents;
  }

  lemma {:induction false} OneTurn(st: Setting, s: State, q: Query, snapshot: string, offset: nat, turn: Turn)
    requires Valid(s) && snapshot in s.snapshots && !IsStale(s, q, snapshot)
    requires offset <= |s.snapshots[snapshot].ids| && turn.limit >= 1
    ensures var t := Run(st, s, turn.between);
            var ids := s.snapshots[snapshot].ids;
            && Valid(t) && snapshot in t.snapshots && t.snapshots[snapshot].ids == ids && !IsStale(t, q, snapshot)
            && var r := ListEvents(st, t, q, snapshot, offset, turn.limit).1;
               r.Listing? && if r.next.None? then Map(IdOfShown, r.items) == ids[offset..]
                 else offset < r.next.value < |ids| && Map(IdOfShown, r.items) == ids[offset..r.next.value]
  {
    hide Run, Valid, ListEvents, ListAttentions, SameIds, IsStale, Extends;
    SnapshotsAreIsolated(st, s, turn.between, q, snapshot, offset, turn.limit);
    RunKeeps(st, s, turn.between);
    var t := Run(st, s, turn.between);
    SnapshotStays(s, t, q, snapshot);
    NotStale(st, t, q, snapshot, offset, turn.limit);
  }

  lemma {:induction false} SnapshotStays(s: State, t: State, q: Query, snapshot: string)
    requires Extends(s, t) && snapshot in s.snapshots
    ensures snapshot in t.snapshots && t.snapshots[snapshot] == s.snapshots[snapshot]
    ensures IsStale(s, q, snapshot) == IsStale(t, q, snapshot)
  {
    hide KeyOf;
  }

  lemma {:induction false} NotStale(st: Setting, s: State, q: Query, snapshot: string, offset: nat, limit: nat)
    requires !IsStale(s, q, snapshot)
    ensures ListEvents(st, s, q, snapshot, offset, limit).1.Listing?
  {
    hide Source, Opened, Show;
  }

  // ----- Counting new acknowledgements -----

  /** What a request reports as newly acknowledged in a batch. */
  function Newly(s: State, r: Request, id: string): nat {
    if r.AcknowledgeBatch? && r.id == id then
      var reply := Acknowledge(s, id, r.actor, r.now).1;
      if reply.Acknowledged? then reply.newly else 0
    else 0
  }

  function NewlyInRun(st: Setting, s: State, rs: seq<Request>, id: string): nat {
    if rs == [] then 0
    else NewlyInRun(st, s, rs[..|rs| - 1], id) + Newly(Run(st, s, rs[..|rs| - 1]), rs[|rs| - 1], id)
  }

  lemma {:induction false} AppendedElsewhere(s: State, occurredAt: string, id: string)
    requires Valid(s) && MembersOf(s.events, id) != []
    ensures MembersOf(Append(s, occurredAt).events, id) == MembersOf(s.events, id)
  {
    hide FindEvent, SnapshotName, NewRiskEventId, NewRiskAttentionId;
    var e := NewRisk(|s.events| + 1, occurredAt);
    var m := MembersOf(s.events, id)[0];
    assert m in MembersOf(s.events, id);
    BucketStep(AttentionOf, Some(id), s.events, e);
  }

  /** A batch that has members never gets more. */
  lemma {:induction false} BatchesDoNotGrow(st: Setting, s: State, r: Request, id: string)
    requires Valid(s) && MembersOf(s.events, id) != []
    ensures MembersOf(Step(st, s, r).events, id) == MembersOf(s.events, id)
  {
    hide Valid, EventsFor, MembersOf, Acknowledge;
    match r
    case AppendNewRisk(occurredAt) => AppendedElsewhere(s, occurredAt, id);
    case AcknowledgeBatch(other, actor, now) => AcknowledgeKeepsEvents(s, other, actor, now);
    case _ =>
  }

  lemma {:induction false} AcknowledgeKeepsEvents(s: State, id: string, actor: string, now: string)
    ensures Acknowledge(s, id, actor, now).0.events == s.events
    ensures forall other :: other in Acknowledge(s, id, actor, now).0.acks <==>
              other in s.acks || (other == id && id != STALE_ID && MembersOf(s.events, id) != [])
  {}

  lemma {:induction false} OnlyAcknowledgingAcknowledges(st: Setting, s: State, r: Request)
    requires !r.AcknowledgeBatch?
    ensures Step(st, s, r).acks == s.acks
  {
    hide EventsFor;
  }

  /** What a run reports as newly acknowledged in a batch adds up to the size of the batch if the run
      acknowledged it first, and to zero otherwise. */
  lemma {:induction false} NewlyAcknowledgedSumToSizeOrZero(st: Setting, s: State, rs: seq<Request>, id: string)
    requires Valid(s)
    ensures var t := Run(st, s, rs);
            && NewlyInRun(st, s, rs, id) == (if id !in s.acks && id in t.acks then |MembersOf(t.events, id)| else 0)
            && (id !in s.acks && id in t.acks ==> MembersOf(t.events, id) != [])
  {
    if rs != [] {
      var init, r := Run(st, s, rs[..|rs| - 1]), rs[|rs| - 1];
      NewlyAcknowledgedSumToSizeOrZero(st, s, rs[..|rs| - 1], id);
      RunKeeps(st, s, rs[..|rs| - 1]);
      NewlyStep(st, s, init, r, id);
    }
  }

  lemma {:induction false} NewlyStep(st: Setting, s: State, t: State, r: Request, id: string)
    requires Valid(t) && Extends(s, t) && (id !in s.acks && id in t.acks ==> MembersOf(t.events, id) != [])
    ensures var u := Step(st, t, r);
            && (if id !in s.acks && id in u.acks then |MembersOf(u.events, id)| else 0)
               == (if id !in s.acks && id in t.acks then |MembersOf(t.events, id)| else 0) + Newly(t, r, id)
            && (id !in s.acks && id in u.acks ==> MembersOf(u.events, id) != [])
  {
    hide Valid, EventsFor, MembersOf, ListEvents, ListAttentions;
    if MembersOf(t.events, id) != [] {
      BatchesDoNotGrow(st, t, r, id);
    }
    if r.AcknowledgeBatch? {
      AcknowledgeKeepsEvents(t, r.id, r.actor, r.now);
    } else {
      OnlyAcknowledgingAcknowledges(st, t, r);
    }
  }
}
