/** The mock audit store as an object: every request reads and changes its fields in place. */
module MockAuditStore {
  import opened Wrappers
  import opened Seqs
  import opened MockObservability
  import opened ObservabilityStore

  /** The members of each batch of a list, and the batches in order of their first event. */
  ghost predicate IsGrouped(groups: map<string, seq<Event>>, ids: seq<string>, source: seq<Event>) {
    && ids == BatchIds(source) && (forall id :: id in ids <==> id in groups)
    && forall id :: id in groups ==> groups[id] == MembersOf(source, id)
  }

  method GroupByAttention(source: seq<Event>) returns (groups: map<string, seq<Event>>, ids: seq<string>)
    ensures IsGrouped(groups, ids, source)
  {
    hide IsGrouped;
    groups, ids := map[], [];
    NothingGrouped();
    assert source[..0] == [];
    for i := 0 to |source|
      invariant IsGrouped(groups, ids, source[..i])
    {
      assert source[..i + 1] == source[..i] + [source[i]];
      GroupStep(groups, ids, source[..i], source[i]);
      if !InBatch(source[i]) {
        continue;
      }
      var id := source[i].attentionId.value;
      var members := if id in groups then groups[id] else [];
      if id !in groups {
        ids := ids + [id];
      }
      groups := groups[id := members + [source[i]]];
    }
    assert source[..|source|] == source;
  }

  lemma {:induction false} NothingGrouped()
    ensures IsGrouped(map[], [], [])
  {}

  lemma {:induction false} IdsStep(source: seq<Event>, e: Event)
    ensures BatchIds(source + [e])
         == if InBatch(e) && e.attentionId.value !in BatchIds(source) then BatchIds(source) + [e.attentionId.value]
            else BatchIds(source)
  {
    assert (source + [e])[..|source|] == source;
  }

  lemma {:induction false} MembersStep(source: seq<Event>, e: Event, id: string)
    ensures MembersOf(source + [e], id)
         == if e.attentionId == Some(id) then MembersOf(source, id) + [e] else MembersOf(source, id)
    ensures id !in BatchIds(source) && id != "" ==> MembersOf(source, id) == []
  {
    hide Bucket;
    BucketStep(AttentionOf, Some(id), source, e);
    if id !in BatchIds(source) && id != "" {
      EmptyBucket(AttentionOf, Some(id), source);
    }
  }

  /** An event outside any batch changes no batch. */
  lemma {:induction false} GroupsStay(groups: map<string, seq<Event>>, ids: seq<string>, source: seq<Event>, e: Event)
    requires IsGrouped(groups, ids, source) && !InBatch(e)
    ensures IsGrouped(groups, ids, source + [e])
  {
    hide MembersOf, BatchIds;
    IdsStep(source, e);
    assert "" !in ids;
    forall id | id in groups ensures MembersOf(source + [e], id) == groups[id] {
      MembersStep(source, e, id);
    }
  }

  lemma {:induction false} OthersStay(
      groups: map<string, seq<Event>>, ids: seq<string>, source: seq<Event>, e: Event, other: string)
    requires IsGrouped(groups, ids, source) && other in groups && e.attentionId != Some(other)
    ensures MembersOf(source + [e], other) == groups[other]
  {
    hide MembersOf, BatchIds;
    MembersStep(source, e, other);
  }

  lemma {:induction false} BatchJoined(
      groups: map<string, seq<Event>>, ids: seq<string>, source: seq<Event>, e: Event, id: string)
    requires InBatch(e) && id == e.attentionId.value && IsGrouped(groups, ids, source)
    ensures MembersOf(source + [e], id) == (if id in groups then groups[id] else []) + [e]
    ensures BatchIds(source + [e]) == if id in groups then ids else ids + [id]
  {
    hide MembersOf, BatchIds;
    IdsStep(source, e);
    MembersStep(source, e, id);
  }

  lemma {:induction false} Regrouped(groups: map<string, seq<Event>>, ids: seq<string>, more: seq<Event>)
    requires ids == BatchIds(more) && (forall id :: id in ids <==> id in groups)
    requires forall id :: id in groups ==> groups[id] == MembersOf(more, id)
    ensures IsGrouped(groups, ids, more)
  {}

  lemma {:induction false} IdsOfGroups(groups: map<string, seq<Event>>, ids: seq<string>, source: seq<Event>)
    requires IsGrouped(groups, ids, source)
    ensures forall id :: id in ids <==> id in groups
  {}

  /** An event of a batch joins its batch, or opens it. */
  lemma {:induction false} GroupGrows(
      groups: map<string, seq<Event>>, ids: seq<string>, source: seq<Event>, e: Event, id: string)
    requires InBatch(e) && id == e.attentionId.value && IsGrouped(groups, ids, source)
    ensures IsGrouped(groups[id := (if id in groups then groups[id] else []) + [e]],
                      if id in groups then ids else ids + [id], source + [e])
  {
    hide *;
    var groups' := groups[id := (if id in groups then groups[id] else []) + [e]];
    IdsOfGroups(groups, ids, source);
    BatchJoined(groups, ids, source, e, id);
    IdIsItsValue(e, id);
    forall other | other in groups' ensures groups'[other] == MembersOf(source + [e], other) {
      if other != id {
        OthersStay(groups, ids, source, e, other);
      }
    }
    Regrouped(groups', if id in groups then ids else ids + [id], source + [e]);
  }

  lemma {:induction false} IdIsItsValue(e: Event, id: string)
    requires InBatch(e) && id == e.attentionId.value
    ensures e.attentionId == Some(id)
  {}

  lemma {:induction false} GroupStep(groups: map<string, seq<Event>>, ids: seq<string>, source: seq<Event>, e: Event)
    requires IsGrouped(groups, ids, source)
    ensures if InBatch(e) then
              var id := e.attentionId.value;
              IsGrouped(groups[id := (if id in groups then groups[id] else []) + [e]],
                        if id in groups then ids else ids + [id], source + [e])
            else IsGrouped(groups, ids, source + [e])
  {
    hide IsGrouped;
    if InBatch(e) {
      GroupGrows(groups, ids, source, e, e.attentionId.value);
    } else {
      GroupsStay(groups, ids, source, e);
    }
  }

  class AuditStore {
    const st: Setting
    var events: seq<Event>
    var acknowledgements: Acks
    var snapshots: map<string, Snapshot>
    var nextSnapshot: nat

    ghost function View(): State
      reads this
    {
      State(events, acknowledgements, snapshots, nextSnapshot)
    }

    constructor (st: Setting, events: seq<Event>, acknowledgements: Acks)
      ensures this.st == st && View() == State(events, acknowledgements, map[], 0)
    {
      this.st, this.events, this.acknowledgements := st, events, acknowledgements;
      snapshots, nextSnapshot := map[], 0;
    }

    method NewSnapshot(q: Query, items: seq<Event>) returns (snapshot: string)
      modifies `snapshots, `nextSnapshot
      ensures View() == WithSnapshot(st, old(View()), q, items) && snapshot == SnapshotName(nextSnapshot)
      ensures nextSnapshot == old(nextSnapshot) + 1 && snapshot in snapshots
    {
      nextSnapshot := nextSnapshot + 1;
      snapshot := SnapshotName(nextSnapshot);
      snapshots := snapshots[snapshot := Snapshot(Map(IdOfEvent, items), KeyOf(q), st.now)];
    }

    method Summary(q: Query) returns (snapshot: string, total: nat)
      modifies `snapshots, `nextSnapshot
      ensures View() == Step(st, old(View()), Request.Summary(q))
      ensures total == |EventsFor(st, events, acknowledgements, q)| && snapshot in snapshots
      ensures |snapshots[snapshot].ids| == total
    {
      hide EventsFor, KeyOf, SnapshotName;
      var items := EventsFor(st, events, acknowledgements, q);
      snapshot := NewSnapshot(q, items);
      total := |items|;
    }

    method EmptySummary(q: Query) returns (snapshot: string)
      modifies `snapshots, `nextSnapshot
      ensures View() == Step(st, old(View()), Request.EmptySummary(q))
    {
      hide KeyOf, SnapshotName;
      snapshot := NewSnapshot(q, []);
    }

    method Events(q: Query, snapshot: string, offset: nat, limit: nat) returns (r: Listing<Shown>)
      modifies `snapshots, `nextSnapshot
      ensures (View(), r) == ListEvents(st, old(View()), q, snapshot, offset, limit)
    {
      hide EventsFor, KeyOf, SnapshotName, Resolve, Show, PageOf;
      var current := EventsFor(st, events, acknowledgements, q);
      if snapshot != "" && (snapshot !in snapshots || snapshots[snapshot].query != KeyOf(q)) {
        return Stale;
      }
      var source, name := current, snapshot;
      if snapshot != "" {
        source := Resolve(events, snapshots[snapshot].ids);
      } else {
        name := NewSnapshot(q, current);
      }
      var shown := Map(Show(acknowledgements), source);
      var page := PageOf(shown, offset, limit);
      r := Listing(page.items, |source|, name, snapshots[name].snapshotAt, page.next);
    }

    method EmptyEvents(q: Query, snapshot: string) returns (stale: bool)
      modifies `snapshots, `nextSnapshot
      ensures View() == Step(st, old(View()), Request.EmptyEvents(q, snapshot))
      ensures stale == IsStale(old(View()), q, snapshot)
    {
      hide KeyOf, SnapshotName;
      stale := snapshot != "" && (snapshot !in snapshots || snapshots[snapshot].query != KeyOf(q));
      if !stale && snapshot == "" {
        var _ := NewSnapshot(q, []);
      }
    }

    method Attentions(q: Query, snapshot: string, offset: nat, limit: nat) returns (r: Listing<Preview>)
      modifies `snapshots, `nextSnapshot
      ensures (View(), r) == ListAttentions(st, old(View()), q, snapshot, offset, limit)
    {
      hide EventsFor, KeyOf, SnapshotName, Resolve, Batches, PageOf;
      if snapshot != "" && (snapshot !in snapshots || snapshots[snapshot].query != KeyOf(q)) {
        return Stale;
      }
      var source, name := EventsFor(st, events, acknowledgements, q), snapshot;
      if snapshot != "" {
        source := Resolve(events, snapshots[snapshot].ids);
      } else {
        name := NewSnapshot(q, source);
      }
      var items := ListBatches(source);
      var page := PageOf(items, offset, limit);
      r := Listing(page.items, |items|, name, snapshots[name].snapshotAt, page.next);
    }

    method ListBatches(source: seq<Event>) returns (items: seq<Preview>)
      ensures items == Batches(st, source, acknowledgements)
    {
      hide BatchIds, MembersOf, PreviewOf, SortBy;
      BatchesHaveMembers(source);
      var groups, ids := GroupByAttention(source);
      items := [];
      for i := 0 to |ids|
        invariant items == Previews(st, source, ids[..i], acknowledgements)
      {
        assert ids[i] in ids && ids[..i + 1] == ids[..i] + [ids[i]];
        items := items + [PreviewOf(st, ids[i], groups[ids[i]], acknowledgements)];
      }
      assert ids[..|ids|] == ids;
      items := SortBy(NotificationOrder(st), items);
    }

    method Acknowledge(id: string, actor: string, now: string) returns (r: AckReply)
      modifies `acknowledgements
      ensures (View(), r) == ObservabilityStore.Acknowledge(old(View()), id, actor, now)
    {
      hide MembersOf;
      if id == STALE_ID || |MembersOf(events, id)| == 0 {
        return NoSuchBatch;
      }
      var existing := id in acknowledgements;
      var first := if existing then acknowledgements[id] else Ack(actor, now);
      if !existing {
        acknowledgements := acknowledgements[id := first];
      }
      var total := |MembersOf(events, id)|;
      r := Acknowledged(first, total, if existing then 0 else total);
    }

    method AppendNewRiskFixture(occurredAt: string) returns (attentionId: string)
      modifies `events
      ensures View() == Append(old(View()), occurredAt) && attentionId == NewRiskAttentionId(|events|)
    {
      attentionId := NewRiskAttentionId(|events| + 1);
      events := events + [NewRisk(|events| + 1, occurredAt)];
    }
  }
}
