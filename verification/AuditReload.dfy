/** Loading an attention batch again by its id. */
module AuditReload {
  import opened Wrappers
  import opened Rfc3339
  import opened AuditEvents
  import opened AuditGroups
  import opened AuditReads
  import opened Text
  import AuditPaging
  import opened Seqs

  const MAX_RELOADED := 5_000

  function MembersOf<T(!new)>(values: seq<T>): set<T> { set v | v in values }

  /** The filter a snapshot gives back: range, actor, repository, categories and results, and nothing else. */
  function RestoredFilter(s: Snapshot): Option<ViewFilter> {
    match (Parse(s.from), Parse(s.to))
    case (Some(from), Some(to)) =>
      if to <= from || to - from > 30 * DAY then None
      else Some(ViewFilter(from, to, MembersOf(s.categories), MembersOf(s.outcomes), s.actor, s.repository,
                           "", "", "", "", "", "", ""))
    case _ => None
  }

  /** A snapshot of an accepted filter restores exactly the filter without the conditions it drops. */
  lemma {:induction false} RestoredFromAccepted(s: Snapshot, f: ViewFilter)
    requires f.Accepted() && MatchesFilter(s, f)
    ensures RestoredFilter(s) == Some(Restored(f))
  {
    ParseFormat(f.from);
    ParseFormat(f.to);
    hide Parse, Format;
    OrdersAreComplete();
    assert MembersOf(SortedCategories(f.categories)) == f.categories;
    assert MembersOf(SortedOutcomes(f.outcomes)) == f.outcomes;
  }

  datatype Loaded = StaleBatch | TooLargeBatch | Reloaded(group: Group)

  /** What loading a batch answers, given what the store returns for the restored filter. */
  ghost predicate IsLoaded(r: Loaded, node: string, payload: Payload, read: (Snapshot, ViewFilter) -> seq<Event>) {
    match RestoredFilter(payload.snapshot)
    case None => r.StaleBatch?
    case Some(filter) =>
      var events := read(payload.snapshot, filter);
      if payload.snapshot.sourceNode != node then r.StaleBatch?
      else if |events| > 5_000 then r.TooLargeBatch?
      else forall groups: Groups :: IsGrouping(groups, payload.snapshot, events, filter.Range()) ==>
        r == if payload.groupKey in groups && groups[payload.groupKey].payload.bucket == payload.bucket
             then Reloaded(groups[payload.groupKey]) else StaleBatch
  }

  method LoadAttention(node: string, payload: Payload, read: (Snapshot, ViewFilter) -> seq<Event>) returns (r: Loaded)
    ensures IsLoaded(r, node, payload, read)
  {
    hide RestoredFilter, IsGrouping;
    if payload.snapshot.sourceNode != node {
      return StaleBatch;
    }
    var filter := RestoredFilter(payload.snapshot);
    if filter.None? {
      return StaleBatch;
    }
    var events := read(payload.snapshot, filter.value);
    if |events| > MAX_RELOADED {
      return TooLargeBatch;
    }
    var groups := AuditGroups.AuditGroups(payload.snapshot, events, filter.value);
    forall gs | IsGrouping(gs, payload.snapshot, events, filter.value.Range()) ensures gs == groups {
      GroupingIsUnique(gs, groups, payload.snapshot, events, filter.value.Range());
    }
    var key := payload.groupKey;
    if key !in groups {
      return StaleBatch;
    }
    HasRisk(groups, payload.snapshot, events, filter.value.Range(), key);
    if groups[key].payload.bucket != payload.bucket || |Filter(IsRisk, groups[key].events)| == 0 {
      return StaleBatch;
    }
    r := Reloaded(groups[key]);
  }

  lemma {:induction false} HasRisk(groups: Groups, snapshot: Snapshot, events: seq<Event>, range: int, k: string)
    requires IsGrouping(groups, snapshot, events, range) && k in groups
    ensures |Filter(IsRisk, groups[k].events)| > 0
  {
    hide IsRisk, KeyOf, Parsed;
    var e := groups[k].events[0];
    InBatch(groups, snapshot, events, range, k, e);
    assert e in Filter(IsRisk, groups[k].events);
  }

  /** The events of the log that belong to a batch, whether a read returns them or not. */
  predicate Belongs(e: Event, range: int, k: string) { InScope(e) && KeyOf(e, range) == k }

  /** Two reads of one log, each through its own conditions, and a batch of the first: what the second has of it. */
  lemma {:induction false} ReloadFindsListedBatch(
      listed: Groups, reloaded: Groups, snapshot: Snapshot, log: seq<Event>, inList: Event -> bool,
      inReload: Event -> bool, range: int, k: string)
    requires IsGrouping(listed, snapshot, Filter(inList, log), range)
    requires IsGrouping(reloaded, snapshot, Filter(inReload, log), range)
    requires k in listed
    ensures k in reloaded <==> exists e :: e in log && Belongs(e, range, k) && inReload(e)
    ensures k in reloaded ==> reloaded[k].payload == listed[k].payload
    ensures k in reloaded ==> Filter(inList, reloaded[k].events) == Filter(inReload, listed[k].events)
    ensures k in reloaded && reloaded[k] == listed[k]
       <==> forall e :: e in log && Belongs(e, range, k) ==> inList(e) == inReload(e)
    ensures forall e :: e in listed[k].events <==> e in log && Belongs(e, range, k) && inList(e)
    ensures listed[k].events != []
  {
    hide KeyOf, InScope, Bucket, Filter, IsGrouping, PayloadFor;
    BatchInLog(listed, snapshot, log, inList, range, k);
    if k in reloaded {
      BatchInLog(reloaded, snapshot, log, inReload, range, k);
      FiltersCommute(inList, inReload, BatchOf(log, range, k));
      SamePayload(listed, reloaded, snapshot, log, inList, inReload, range, k);
      SameSelection(BatchOf(log, range, k), inList, inReload);
      assert reloaded[k].events[0] in reloaded[k].events;
    } else {
      MissingBatch(reloaded, snapshot, log, inReload, range, k);
      var e := listed[k].events[0];
      assert e in listed[k].events;
    }
  }

  function BatchOf(log: seq<Event>, range: int, k: string): seq<Event> { Bucket(KeyIn(range), k, Filter(InScope, log)) }

  lemma {:induction false} BatchInLog(
      groups: Groups, snapshot: Snapshot, log: seq<Event>, p: Event -> bool, range: int, k: string)
    requires IsGrouping(groups, snapshot, Filter(p, log), range) && k in groups
    ensures groups[k].events == Filter(p, BatchOf(log, range, k)) && groups[k].events != []
    ensures forall e :: e in BatchOf(log, range, k) <==> e in log && Belongs(e, range, k)
    ensures forall e :: e in groups[k].events <==> e in log && Belongs(e, range, k) && p(e)
  {
    hide KeyOf, InScope, PayloadFor;
    FiltersCommute(InScope, p, log);
    BucketOfFilter(KeyIn(range), k, p, Filter(InScope, log));
    assert Members(groups)[k] == groups[k].events;
  }

  lemma {:induction false} MissingBatch(
      groups: Groups, snapshot: Snapshot, log: seq<Event>, p: Event -> bool, range: int, k: string)
    requires IsGrouping(groups, snapshot, Filter(p, log), range) && k !in groups
    ensures forall e :: e in log && Belongs(e, range, k) ==> !p(e)
  {
    hide KeyOf, InScope, PayloadFor, Bucket;
    forall e | e in log && Belongs(e, range, k) ensures !p(e) {
      assert p(e) ==> e in Scoped(Filter(p, log)) && KeyIn(range)(e) == k;
      assert k !in Members(groups);
    }
  }

  lemma {:induction false} SamePayload(listed: Groups, reloaded: Groups, snapshot: Snapshot, log: seq<Event>,
                                       inList: Event -> bool, inReload: Event -> bool, range: int, k: string)
    requires IsGrouping(listed, snapshot, Filter(inList, log), range)
    requires IsGrouping(reloaded, snapshot, Filter(inReload, log), range)
    requires k in listed && k in reloaded
    ensures reloaded[k].payload == listed[k].payload
  {
    hide KeyOf, InScope, BucketText, Occurred;
    var d, e := listed[k].events[0], reloaded[k].events[0];
    InBatch(listed, snapshot, Filter(inList, log), range, k, d);
    InBatch(reloaded, snapshot, Filter(inReload, log), range, k, e);
    SameKey(d, e, range);
  }

  lemma {:induction false} SameSelection(s: seq<Event>, p: Event -> bool, q: Event -> bool)
    ensures Filter(p, s) == Filter(q, s) <==> forall e :: e in s ==> p(e) == q(e)
  {
    if forall e :: e in s ==> p(e) == q(e) {
      FilterAgrees(p, q, s);
    }
    if Filter(p, s) == Filter(q, s) {
      assert forall e :: e in Filter(p, s) <==> e in Filter(q, s);
    }
  }

  // ----- What a reload has of a listed batch -----

  /** The groups of the list and of the reload, made from their reads of one log, and a batch of the list. */
  ghost predicate ReadTwice(listed: Groups, reloaded: Groups, snapshot: Snapshot, f: ViewFilter, aliases: set<string>,
                            others: Event -> bool, log: seq<Event>, k: string) {
    && IsGrouping(listed, snapshot, Filter(InList(snapshot, f, aliases, others), log), f.Range()) && k in listed
    && IsGrouping(reloaded, snapshot, Filter(InReload(snapshot, Restored(f)), log), f.Range())
  }

  ghost predicate ComesBack(listed: Groups, reloaded: Groups, k: string)
    requires k in listed
  {
    k in reloaded && reloaded[k] == listed[k]
  }

  /** What the reload reads of the batch is only what the list was to read: audit rows that meet the dropped
      conditions. */
  ghost predicate NothingJoins(snapshot: Snapshot, f: ViewFilter, others: Event -> bool, log: seq<Event>, k: string) {
    forall e :: e in log && Belongs(e, f.Range(), k) && InReload(snapshot, Restored(f))(e) ==>
      e.source.Audit? && (DropsNothing(f) || others(e))
  }

  /** A listed batch comes back as it was listed exactly when its members carry the name the filter asks for, no
      replication event joins it, and no event that a dropped condition kept out. */
  lemma {:induction false} ComesBackExactly(
      listed: Groups, reloaded: Groups, snapshot: Snapshot, f: ViewFilter, aliases: set<string>,
      others: Event -> bool, log: seq<Event>, k: string)
    requires ReadTwice(listed, reloaded, snapshot, f, aliases, others, log, k)
    ensures ComesBack(listed, reloaded, k)
       <==> (forall e :: e in listed[k].events ==> HasOwnName(f, e)) && NothingJoins(snapshot, f, others, log, k)
    ensures k in reloaded <==> exists e :: e in log && Belongs(e, f.Range(), k) && InReload(snapshot, Restored(f))(e)
    ensures (exists e :: e in listed[k].events && HasOwnName(f, e)) ==> k in reloaded
    ensures listed[k].events != []
  {
    hide Belongs, IsGrouping, Filter, InList, InReload, DropsNothing;
    var inList, inReload := InList(snapshot, f, aliases, others), InReload(snapshot, Restored(f));
    ReloadFindsListedBatch(listed, reloaded, snapshot, log, inList, inReload, f.Range(), k);
    forall e ensures inList(e) ==> e.source.Audit? && (inReload(e) <==> HasOwnName(f, e))
             ensures inReload(e) ==>
               HasOwnName(f, e) && (inList(e) <==> e.source.Audit? && (DropsNothing(f) || others(e)))
    {
      ReadsCompared(snapshot, f, aliases, others, e);
    }
  }

  /** Without a repository filter and without dropped conditions the batch is always there again, and it is the listed
      one exactly when the reload reads no replication event that belongs to it. */
  lemma {:induction false} WithoutRepositoryFilter(
      listed: Groups, reloaded: Groups, snapshot: Snapshot, f: ViewFilter, aliases: set<string>,
      others: Event -> bool, log: seq<Event>, k: string)
    requires ReadTwice(listed, reloaded, snapshot, f, aliases, others, log, k)
    requires f.repository == "" && DropsNothing(f)
    ensures k in reloaded
    ensures ComesBack(listed, reloaded, k)
       <==> forall e :: e in log && e.source.Replication? && InReload(snapshot, Restored(f))(e) ==>
              !Belongs(e, f.Range(), k)
  {
    hide Belongs, IsGrouping, Filter, InList, InReload, DropsNothing;
    ComesBackExactly(listed, reloaded, snapshot, f, aliases, others, log, k);
    assert listed[k].events[0] in listed[k].events;
  }

  /** With a repository filter, and without dropped conditions, the batch is there again exactly when one of its members
      carries the name the filter asks for, and it is the listed one exactly when all of them do. */
  lemma {:induction false} WithRepositoryFilter(
      listed: Groups, reloaded: Groups, snapshot: Snapshot, f: ViewFilter, aliases: set<string>,
      others: Event -> bool, log: seq<Event>, k: string)
    requires ReadTwice(listed, reloaded, snapshot, f, aliases, others, log, k) && ReplicationHasNoRepository(log)
    requires f.repository != "" && DropsNothing(f)
    ensures k in reloaded <==> exists e :: e in listed[k].events && e.repository == f.repository
    ensures ComesBack(listed, reloaded, k) <==> forall e :: e in listed[k].events ==> e.repository == f.repository
  {
    hide Belongs, IsGrouping, Filter, InList, InReload, DropsNothing;
    ComesBackExactly(listed, reloaded, snapshot, f, aliases, others, log, k);
    InListedExactly(listed, snapshot, f, aliases, others, log, k);
    forall e | e in log && Belongs(e, f.Range(), k) && InReload(snapshot, Restored(f))(e)
      ensures e in listed[k].events && e.repository == f.repository
    {
      ReadsCompared(snapshot, f, aliases, others, e);
    }
  }

  lemma {:induction false} InListedExactly(
      listed: Groups, snapshot: Snapshot, f: ViewFilter, aliases: set<string>, others: Event -> bool,
      log: seq<Event>, k: string)
    requires IsGrouping(listed, snapshot, Filter(InList(snapshot, f, aliases, others), log), f.Range()) && k in listed
    ensures forall e :: e in listed[k].events
                   <==> e in log && Belongs(e, f.Range(), k) && InList(snapshot, f, aliases, others)(e)
  {
    hide Belongs, IsGrouping, Filter, InList;
    BatchInLog(listed, snapshot, log, InList(snapshot, f, aliases, others), f.Range(), k);
  }

  /** A batch whose events have no correlation id is one event, and comes back as it was listed, whatever conditions are
      dropped, exactly when that event carries the name the filter asks for. */
  lemma {:induction false} WithoutCorrelationId(
      listed: Groups, reloaded: Groups, snapshot: Snapshot, f: ViewFilter, aliases: set<string>,
      others: Event -> bool, log: seq<Event>, k: string, e: Event)
    requires ReadTwice(listed, reloaded, snapshot, f, aliases, others, log, k) && Keyed(log)
    requires e in listed[k].events && e.correlationId == ""
    ensures ComesBack(listed, reloaded, k) <==> HasOwnName(f, e)
    ensures k in reloaded <==> HasOwnName(f, e)
  {
    hide IsGrouping, Filter, InList, InReload, DropsNothing, InScope, KeyOf;
    ComesBackExactly(listed, reloaded, snapshot, f, aliases, others, log, k);
    InListedExactly(listed, snapshot, f, aliases, others, log, k);
    ReadsCompared(snapshot, f, aliases, others, e);
    forall d | d in log && Belongs(d, f.Range(), k) ensures d == e {
      SameKey(d, e, f.Range());
    }
  }

  lemma {:induction false} LoadedGroup(
      r: Loaded, read: (Snapshot, ViewFilter) -> seq<Event>, payload: Payload, reloaded: Groups, snapshot: Snapshot,
      events: seq<Event>, range: int, k: string)
    requires payload.snapshot == snapshot && payload.groupKey == k
    requires RestoredFilter(snapshot).Some? && RestoredFilter(snapshot).value.Range() == range
    requires read(snapshot, RestoredFilter(snapshot).value) == events
    requires IsGrouping(reloaded, snapshot, events, range) && IsLoaded(r, snapshot.sourceNode, payload, read)
    ensures if |events| > MAX_RELOADED then r.TooLargeBatch?
            else r == if k in reloaded && reloaded[k].payload.bucket == payload.bucket
                      then Reloaded(reloaded[k]) else StaleBatch
  {
    hide IsGrouping, RestoredFilter;
  }

  /** Loading a listed batch, from the list to the answer: it is refused as too large exactly when the reload reads more
      than 5000 events, and as stale exactly when it reads none of the batch, and it shows the listed batch exactly when
      the members carry the name the filter asks for and nothing joins them. */
  lemma {:induction false} LoadingAListedBatch(
      r: Loaded, read: (Snapshot, ViewFilter) -> seq<Event>, listed: Groups, reloaded: Groups, snapshot: Snapshot,
      f: ViewFilter, aliases: set<string>, others: Event -> bool, log: seq<Event>, k: string)
    requires f.Accepted() && MatchesFilter(snapshot, f)
    requires ReadTwice(listed, reloaded, snapshot, f, aliases, others, log, k)
    requires read(snapshot, Restored(f)) == Filter(InReload(snapshot, Restored(f)), log)
    requires IsLoaded(r, snapshot.sourceNode, listed[k].payload, read)
    ensures r.TooLargeBatch? <==> |Filter(InReload(snapshot, Restored(f)), log)| > 5_000
    ensures !r.TooLargeBatch? ==>
      (r.StaleBatch? <==> forall e :: e in log && Belongs(e, f.Range(), k) ==> !InReload(snapshot, Restored(f))(e))
    ensures !r.TooLargeBatch? ==>
      (r == Reloaded(listed[k]) <==>
        (forall e :: e in listed[k].events ==> HasOwnName(f, e)) && NothingJoins(snapshot, f, others, log, k))
  {
    hide Filter, Belongs, IsGrouping, RestoredFilter, MatchesFilter, InList, InReload, DropsNothing, NothingJoins;
    var inList, inReload := InList(snapshot, f, aliases, others), InReload(snapshot, Restored(f));
    RestoredFromAccepted(snapshot, f);
    KeyOfPayload(listed, snapshot, Filter(inList, log), f.Range(), k);
    ComesBackExactly(listed, reloaded, snapshot, f, aliases, others, log, k);
    ReloadFindsListedBatch(listed, reloaded, snapshot, log, inList, inReload, f.Range(), k);
    LoadedGroup(r, read, listed[k].payload, reloaded, snapshot, Filter(inReload, log), f.Range(), k);
  }

  lemma {:induction false} KeyOfPayload(groups: Groups, snapshot: Snapshot, events: seq<Event>, range: int, k: string)
    requires IsGrouping(groups, snapshot, events, range) && k in groups
    ensures groups[k].payload.snapshot == snapshot && groups[k].payload.groupKey == k
  {
    hide KeyOf, BucketText;
    InBatch(groups, snapshot, events, range, k, groups[k].events[0]);
  }

  // ----- Where the reload departs from the list -----

  /** A view of one minute from a whole second on, its snapshot, and the row of one operation at its start. */
  function MinuteView(start: Instant, repository: string): ViewFilter
    requires InYear9999(start)
  {
    ViewFilter(start, start + MINUTE, {}, {}, "", repository, "", "", "", "", "", "", "")
  }

  predicate InYear9999(start: int) { 0 <= start && start + MINUTE < SECONDS * NANOS }

  function MinuteSnapshot(start: Instant, repository: string): Snapshot
    requires InYear9999(start)
  {
    NewSnapshot(1, 1, "node", "", MinuteView(start, repository))
  }

  function RowAt(start: Instant, source: Source, repository: string): Event {
    Event(source, 1, Format(start), None, "root", "repo.delete", repository, "ok", "op-1", 0, 0, "")
  }

  lemma {:induction false} MinuteIsAccepted(start: Instant, repository: string)
    requires InYear9999(start)
    ensures MinuteView(start, repository).Accepted()
    ensures MatchesFilter(MinuteSnapshot(start, repository), MinuteView(start, repository))
  {
    var f := MinuteView(start, repository);
    SnapshotMatchesOnlyItsFilter(1, 1, "node", "", f, f);
    hide Format, MatchesFilter;
  }

  lemma {:induction false} RowInWindow(start: Instant, source: Source, recorded: string, repository: string)
    requires InYear9999(start) && WholeSecond(start)
    ensures AuditPaging.InWindow(MinuteSnapshot(start, repository), RowAt(start, source, recorded))
  {
    BeforeIsStrict(Format(start), Format(start));
    MinuteLater(start);
    hide Format, Before, SortedCategories, SortedOutcomes;
  }

  lemma {:induction false} MinuteLater(start: Instant)
    requires InYear9999(start) && WholeSecond(start)
    ensures Before(Format(start), Format(start + MINUTE))
  {
    hide Format, Before;
    assert WholeSecond(start + MINUTE);
    WholeSecondOrder(start, start + MINUTE);
  }

  lemma {:induction false} RowBelongs(start: Instant, source: Source, recorded: string, other: string)
    ensures Belongs(RowAt(start, source, recorded), MINUTE, KeyOf(RowAt(start, Audit, other), MINUTE))
  {
    ParseFormat(start);
    SameKey(RowAt(start, source, recorded), RowAt(start, Audit, other), MINUTE);
    hide Format, Parse, KeyOf, BucketStart;
  }

  lemma {:induction false} OneBatch(
      groups: Groups, snapshot: Snapshot, log: seq<Event>, p: Event -> bool, range: int, k: string)
    requires IsGrouping(groups, snapshot, Filter(p, log), range) && forall e :: e in log ==> Belongs(e, range, k)
    ensures k in groups <==> exists e :: e in log && p(e)
    ensures k in groups ==> groups[k].events == Filter(p, log)
  {
    hide IsGrouping, InScope, KeyOf;
    if k in groups {
      BatchInLog(groups, snapshot, log, p, range, k);
      FilterAll(InScope, log);
      BucketAll(KeyIn(range), k, log);
      assert groups[k].events[0] in groups[k].events;
    } else {
      MissingBatch(groups, snapshot, log, p, range, k);
    }
  }

  lemma {:induction false} BucketAll<T(!new), K>(key: T -> K, k: K, s: seq<T>)
    requires forall x :: x in s ==> key(x) == k
    ensures Bucket(key, k, s) == s
  {
    if s != [] {
      assert s == s[..|s| - 1] + [s[|s| - 1]];
      BucketAll(key, k, s[..|s| - 1]);
    }
  }

  lemma {:induction false} RowKept(start: Instant, source: Source, recorded: string, name: string, aliases: set<string>)
    requires InYear9999(start) && (recorded == name || recorded in aliases)
    ensures var f := MinuteView(start, name);
            Keeps(f, ExpandedNames(f, aliases), RowAt(start, source, recorded)) && DropsNothing(f)
  {
    hide Format, MeetsCategory, MeetsOutcome;
    var f, e := MinuteView(start, name), RowAt(start, source, recorded);
    if name != "" {
      assert e.repository in ExpandedNames(f, aliases);
    }
  }

  /** Which of the two reads the row is in. */
  lemma {:induction false} RowReads(
      start: Instant, source: Source, recorded: string, name: string, aliases: set<string>, others: Event -> bool)
    requires InYear9999(start) && WholeSecond(start) && (recorded == name || recorded in aliases)
    ensures var s, f, e := MinuteSnapshot(start, name), MinuteView(start, name), RowAt(start, source, recorded);
            && (InList(s, f, aliases, others)(e) <==> source.Audit?)
            && (InReload(s, Restored(f))(e) <==> name == "" || recorded == name)
  {
    hide Format, AuditPaging.InWindow, Keeps, DropsNothing, Restored, ExpandedNames, OwnName;
    RowInWindow(start, source, recorded, name);
    RowKept(start, source, recorded, name, aliases);
    NamesCompared(MinuteView(start, name), aliases, RowAt(start, source, recorded));
  }

  lemma {:induction false} FilterPair(p: Event -> bool, a: Event, b: Event)
    requires p(a) && !p(b)
    ensures Filter(p, [a, b]) == [a]
  {
    assert [a] + [b] == [a, b] && [] + [a] == [a];
    FilterStep(p, [], a);
    FilterStep(p, [a], b);
  }

  /** A replication event of the same operation joins the batch: the list shows one event, the reload two. */
  lemma {:induction false} ReplicationJoinsTheBatch(
      listed: Groups, reloaded: Groups, others: Event -> bool, start: Instant)
    requires InYear9999(start) && WholeSecond(start)
    requires var log := [RowAt(start, Audit, ""), RowAt(start, Replication, "")];
             var s, f := MinuteSnapshot(start, ""), MinuteView(start, "");
             && IsGrouping(listed, s, Filter(InList(s, f, {}, others), log), MINUTE)
             && IsGrouping(reloaded, s, Filter(InReload(s, Restored(f)), log), MINUTE)
    ensures MinuteView(start, "").Accepted() && MatchesFilter(MinuteSnapshot(start, ""), MinuteView(start, ""))
    ensures var a, r := RowAt(start, Audit, ""), RowAt(start, Replication, "");
            var k := KeyOf(a, MINUTE);
            k in listed && listed[k].events == [a] && k in reloaded && reloaded[k].events == [a, r]
  {
    hide IsGrouping, Belongs, InList, InReload, Restored, KeyOf, Filter, RowAt, MinuteSnapshot, MinuteView,
         MatchesFilter;
    var a, r := RowAt(start, Audit, ""), RowAt(start, Replication, "");
    var s, f, log, k := MinuteSnapshot(start, ""), MinuteView(start, ""), [a, r], KeyOf(a, MINUTE);
    MinuteIsAccepted(start, "");
    RowReads(start, Audit, "", "", {}, others);
    RowReads(start, Replication, "", "", {}, others);
    RowBelongs(start, Audit, "", "");
    RowBelongs(start, Replication, "", "");
    var inList, inReload := InList(s, f, {}, others), InReload(s, Restored(f));
    FilterPair(inList, a, r);
    FilterAll(inReload, log);
    assert a in log;
    OneBatch(listed, s, log, inList, MINUTE, k);
    OneBatch(reloaded, s, log, inReload, MINUTE, k);
  }

  /** A batch recorded under an alias is listed, but stale when it is loaded. */
  lemma {:induction false} AliasedBatchIsStale(
      listed: Groups, reloaded: Groups, others: Event -> bool, start: Instant, name: string, alias: string)
    requires InYear9999(start) && WholeSecond(start) && name != "" && alias != name
    requires var s, f, log := MinuteSnapshot(start, name), MinuteView(start, name), [RowAt(start, Audit, alias)];
             && IsGrouping(listed, s, Filter(InList(s, f, {alias}, others), log), MINUTE)
             && IsGrouping(reloaded, s, Filter(InReload(s, Restored(f)), log), MINUTE)
    ensures MinuteView(start, name).Accepted() && MatchesFilter(MinuteSnapshot(start, name), MinuteView(start, name))
    ensures var a := RowAt(start, Audit, alias);
            var k := KeyOf(a, MINUTE);
            k in listed && listed[k].events == [a] && k !in reloaded
  {
    hide IsGrouping, Belongs, InList, InReload, Restored, KeyOf, Filter, RowAt, MinuteSnapshot, MinuteView,
         MatchesFilter;
    var a, s, f := RowAt(start, Audit, alias), MinuteSnapshot(start, name), MinuteView(start, name);
    var log, k := [a], KeyOf(a, MINUTE);
    MinuteIsAccepted(start, name);
    RowReads(start, Audit, alias, name, {alias}, others);
    RowBelongs(start, Audit, alias, alias);
    var inList, inReload := InList(s, f, {alias}, others), InReload(s, Restored(f));
    FilterAll(inList, log);
    assert a in log;
    OneBatch(listed, s, log, inList, MINUTE, k);
    OneBatch(reloaded, s, log, inReload, MINUTE, k);
  }
}
