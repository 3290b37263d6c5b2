/** Which rows of the two event sources the list of batches and the reload of a batch read. */
module AuditReads {
  import opened AuditEvents
  import opened AuditGroups
  import opened Text
  import AuditPaging

  // ----- The conditions of a query -----

  predicate StartsLike(prefix: string, s: string) { |prefix| <= |s| && EqualFold(s[..|prefix|], prefix) }

  predicate EndsLike(suffix: string, s: string) { |suffix| <= |s| && EqualFold(s[|s| - |suffix|..], suffix) }

  predicate HasFailedResult(e: Event) { e.result in {"failed", "error", "rejected"} }

  predicate IsAssetAction(action: string) {
    StartsLike("asset.", action) || EndsLike(".publish", action) || EndsLike(".unpublish", action)
  }

  predicate MeetsCategory(e: Event, c: Category) {
    match c
    case ReplicationEvent => e.source.Replication?
    case SecurityEvent => e.source.Audit? && HasFailedResult(e)
    case AssetChange => e.source.Audit? && !HasFailedResult(e) && IsAssetAction(e.action)
    case ManagementChange => e.source.Audit? && !HasFailedResult(e) && !IsAssetAction(e.action)
  }

  predicate HasSucceededResult(e: Event) { e.result in {"ok", "applied", "success"} }

  predicate MeetsOutcome(e: Event, o: Outcome) {
    match o
    case Succeeded => HasSucceededResult(e)
    case Failed => HasFailedResult(e)
    case Pending => e.result == "pending"
    case Unknown => !HasSucceededResult(e) && !HasFailedResult(e) && e.result != "pending"
  }

  /** The conditions a restored filter still has; an empty set of names or values is no condition. */
  predicate Keeps(f: ViewFilter, names: set<string>, e: Event) {
    && (f.actor == "" || e.actor == f.actor)
    && (names == {} || e.repository in names)
    && (f.categories == {} || exists c :: c in f.categories && MeetsCategory(e, c))
    && (f.outcomes == {} || exists o :: o in f.outcomes && MeetsOutcome(e, o))
  }

  /** The filter has none of the conditions that a restored filter drops. */
  predicate DropsNothing(f: ViewFilter) {
    && f.query == "" && f.method_ == "" && f.action == "" && f.email == ""
    && f.clientIp == "" && f.authSource == "" && f.attention == ""
  }

  /** The filter without the conditions a snapshot does not give back. */
  function Restored(f: ViewFilter): ViewFilter {
    ViewFilter(f.from, f.to, f.categories, f.outcomes, f.actor, f.repository, "", "", "", "", "", "", "")
  }

  /** A filter by results reads exactly the events that are shown with one of them, but for partial results: these are
      shown as failures and read as unknown. */
  lemma {:induction false} ResultFilterReadsWhatIsShown(e: Event)
    ensures (forall o :: MeetsOutcome(e, o) <==> ClassifyOutcome(e) == o) <==> e.result != "partial"
  {
    if e.result == "partial" {
      assert ClassifyOutcome(e) == Failed && !MeetsOutcome(e, Failed);
    }
  }

  /** A filter by categories reads exactly the events that are shown with one of them, but for audit events with a
      partial result, with another spelling of "rejected", or, when they did not fail, with an action in which the
      text of an asset action is not at the end or not in lower case. */
  lemma {:induction false} CategoryFilterReadsWhatIsShown(e: Event)
    ensures (forall c :: MeetsCategory(e, c) <==> ClassifyCategory(e) == c) <==>
              || e.source.Replication?
              || e.result in {"failed", "error", "rejected"}
              || (&& e.result != "partial" && !EqualFold(e.result, "rejected")
                  && (IsAssetAction(e.action) <==>
                       || "asset." <= e.action
                       || (exists a, b :: e.action == a + ".publish" + b || e.action == a + ".unpublish" + b)))
  {
    ContainsMeans(e.action, ".publish");
    ContainsMeans(e.action, ".unpublish");
    hide EqualFold, IsAssetAction, Contains;
    var shown := ClassifyCategory(e);
    assert MeetsCategory(e, ReplicationEvent) || MeetsCategory(e, SecurityEvent)
           || MeetsCategory(e, AssetChange) || MeetsCategory(e, ManagementChange);
    assert (forall c :: MeetsCategory(e, c) <==> shown == c) <==> MeetsCategory(e, shown);
  }

  // ----- The two reads -----

  /** The repository filter as the list expands it: the name asked for, and the other names of that repository. */
  function ExpandedNames(f: ViewFilter, aliases: set<string>): set<string> {
    if f.repository == "" then {} else {f.repository} + aliases
  }

  function OwnName(f: ViewFilter): set<string> { ExpandedNames(f, {}) }

  /** others stands for the conditions that are dropped; there are none if their texts are empty. */
  function ListConditions(f: ViewFilter, aliases: set<string>, others: Event -> bool): Event -> bool {
    (e: Event) => Keeps(f, ExpandedNames(f, aliases), e) && (DropsNothing(f) || others(e))
  }

  /** The list: audit rows only, under all names of the repository. */
  function InList(snapshot: Snapshot, f: ViewFilter, aliases: set<string>, others: Event -> bool): Event -> bool {
    AuditPaging.InRead(snapshot, ListConditions(f, aliases, others))
  }

  /** The reload of a batch, by its restored filter: rows of both sources, under the repository's own name. */
  function InReload(snapshot: Snapshot, f: ViewFilter): Event -> bool {
    (e: Event) => e.id <= (if e.source.Audit? then snapshot.auditMax else snapshot.replicationMax)
                  && AuditPaging.InWindow(snapshot, e) && Keeps(f, OwnName(f), e)
  }

  /** Replication rows are read with an empty repository. */
  predicate ReplicationHasNoRepository(log: seq<Event>) {
    forall e :: e in log && e.source.Replication? ==> e.repository == ""
  }

  /** Source and number identify a row. */
  predicate Keyed(log: seq<Event>) {
    forall d, e :: d in log && e in log && d.source == e.source && d.id == e.id ==> d == e
  }

  predicate HasOwnName(f: ViewFilter, e: Event) { f.repository == "" || e.repository == f.repository }

  lemma {:induction false} NamesCompared(f: ViewFilter, aliases: set<string>, e: Event)
    ensures Keeps(Restored(f), OwnName(Restored(f)), e) <==> Keeps(f, ExpandedNames(f, aliases), e) && HasOwnName(f, e)
  {
    hide MeetsCategory, MeetsOutcome;
    if f.repository != "" {
      assert f.repository in ExpandedNames(f, aliases) && f.repository in OwnName(f);
    }
  }

  /** Where the two reads differ, event by event. */
  lemma {:induction false} ReadsCompared(
      snapshot: Snapshot, f: ViewFilter, aliases: set<string>, others: Event -> bool, e: Event)
    ensures InList(snapshot, f, aliases, others)(e) ==>
              e.source.Audit? && (InReload(snapshot, Restored(f))(e) <==> HasOwnName(f, e))
    ensures InReload(snapshot, Restored(f))(e) ==>
              && HasOwnName(f, e)
              && (InList(snapshot, f, aliases, others)(e) <==> e.source.Audit? && (DropsNothing(f) || others(e)))
  {
    hide MeetsCategory, MeetsOutcome, AuditPaging.InWindow;
    NamesCompared(f, aliases, e);
  }

  /** An audit event that is shown with the category and result a filter reads it by is in the list exactly when it is
      within the snapshot's number and time texts and has the actor, one of the names of the repository, and a shown
      category and result that the filter asks for, and meets the other conditions. */
  lemma {:induction false} ListReadsWhatIsShown(
      snapshot: Snapshot, f: ViewFilter, aliases: set<string>, others: Event -> bool, e: Event)
    requires forall c :: MeetsCategory(e, c) <==> ClassifyCategory(e) == c
    requires forall o :: MeetsOutcome(e, o) <==> ClassifyOutcome(e) == o
    ensures InList(snapshot, f, aliases, others)(e) <==>
              && e.source.Audit? && e.id <= snapshot.auditMax
              && AtOrBefore(snapshot.from, e.occurredAt) && Before(e.occurredAt, snapshot.to)
              && (f.actor == "" || e.actor == f.actor)
              && (f.repository == "" || e.repository == f.repository || e.repository in aliases)
              && (f.categories == {} || ClassifyCategory(e) in f.categories)
              && (f.outcomes == {} || ClassifyOutcome(e) in f.outcomes)
              && (DropsNothing(f) || others(e))
  {
    hide MeetsCategory, MeetsOutcome, ClassifyCategory, ClassifyOutcome, AtOrBefore, Before, DropsNothing;
    if f.repository != "" {
      assert f.repository in ExpandedNames(f, aliases);
    }
  }
}
