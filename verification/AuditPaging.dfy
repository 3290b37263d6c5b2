/** The paged list of attention batches under one snapshot. */
module AuditPaging {
  import opened Wrappers
  import opened Text
  import opened Rfc3339
  import opened AuditEvents
  import opened AuditGroups
  import opened AuditAttention
  import opened Seqs

  const MAX_AGGREGATED := 50_000
  const MAX_LIMIT := 100

  // ----- The order of the list -----

  function Rank(s: Severity): nat {
    match s case Critical => 2 case High => 1 case Normal => 0
  }

  /** What the list order looks at. */
  datatype OrderKey = OrderKey(failed: bool, rank: nat, latest: Instant, id: string)

  function KeyOfAttention(a: Attention): OrderKey {
    OrderKey(a.failureCount > 0, Rank(SeverityOf(a.primary)), a.latestOccurredAt, a.id)
  }

  /** Failures first, then severity, then the latest time, then the greater id. */
  predicate OrderLess(l: OrderKey, r: OrderKey) {
    if l.failed != r.failed then l.failed
    else if l.rank != r.rank then l.rank > r.rank
    else if l.latest != r.latest then l.latest > r.latest
    else Before(r.id, l.id)
  }

  predicate OrderLe(l: OrderKey, r: OrderKey) { !OrderLess(r, l) }

  predicate NotificationLess(l: Attention, r: Attention) { OrderLess(KeyOfAttention(l), KeyOfAttention(r)) }

  predicate NotificationLe(l: Attention, r: Attention) { !NotificationLess(r, l) }

  lemma {:induction false} OrderIsTotal()
    ensures Total(OrderLe) && Transitive(OrderLe)
    ensures forall a, b :: OrderLe(a, b) && OrderLe(b, a) ==> a == b
  {
    forall a, b ensures OrderLe(a, b) || OrderLe(b, a) ensures OrderLe(a, b) && OrderLe(b, a) ==> a == b {
      BeforeIsStrict(a.id, b.id);
    }
    forall a, b, c | OrderLe(a, b) && OrderLe(b, c) ensures OrderLe(a, c) {
      if AtOrBefore(c.id, b.id) && AtOrBefore(b.id, a.id) {
        AtOrBeforeIsTransitive(c.id, b.id, a.id);
      }
    }
  }

  /** The list order written out: batches with failures first, then Critical before High before Normal, then the later
      latest time, then the greater id. */
  ghost predicate ListedBefore(a: Attention, b: Attention) {
    var severity, other := SeverityOf(a.primary), SeverityOf(b.primary);
    && (b.failureCount > 0 ==> a.failureCount > 0)
    && ((a.failureCount > 0 <==> b.failureCount > 0) ==>
         && (other.Critical? ==> severity.Critical?) && (other.High? ==> !severity.Normal?)
         && (severity == other ==>
              && a.latestOccurredAt >= b.latestOccurredAt
              && (a.latestOccurredAt == b.latestOccurredAt ==> Before(b.id, a.id))))
  }

  ghost predicate ListedInOrder(items: seq<Attention>) {
    forall i, j :: 0 <= i < j < |items| ==> ListedBefore(items[i], items[j])
  }

  lemma {:induction false} OrderedKeysListInOrder(items: seq<Attention>, order: seq<OrderKey>)
    requires Sorted(OrderLe, order) && Distinct(order)
    requires exists m, n :: 0 <= m <= n <= |order| && Map(KeyOfAttention, items) == order[m..n]
    ensures ListedInOrder(items)
  {
    hide SeverityOf, OrderLe, KeyOfAttention, ListedBefore;
    var m, n :| 0 <= m <= n <= |order| && Map(KeyOfAttention, items) == order[m..n];
    OrderIsTotal();
    forall i, j | 0 <= i < j < |items| ensures ListedBefore(items[i], items[j]) {
      assert KeyOfAttention(items[i]) == order[m + i] && KeyOfAttention(items[j]) == order[m + j];
      KeysListInOrder(items[i], items[j]);
    }
  }

  lemma {:induction false} KeysListInOrder(a: Attention, b: Attention)
    requires !OrderLe(KeyOfAttention(b), KeyOfAttention(a))
    ensures ListedBefore(a, b)
  {
    hide SeverityOf, Before;
  }

  // ----- The list of a snapshot -----

  /** The place of a batch in the list; acknowledgements do not enter. */
  function KeyOfBatch(sign: Payload -> string, g: Group): OrderKey
    requires g.events != []
  {
    OrderKey(|Filter(HasFailed, g.events)| > 0, Rank(SeverityOf(Primary(g.events))), LatestTime(g.events),
             sign(g.payload))
  }

  ghost predicate NonEmpty(groups: Groups) { forall k :: k in groups ==> groups[k].events != [] }

  /** Every batch once, in list order. */
  ghost predicate IsListing(order: seq<OrderKey>, sign: Payload -> string, groups: Groups)
    requires NonEmpty(groups)
  {
    && Sorted(OrderLe, order) && Distinct(order)
    && forall p :: p in order <==> exists k :: k in groups && p == KeyOfBatch(sign, groups[k])
  }

  lemma {:induction false} ListingIsUnique(s: seq<OrderKey>, t: seq<OrderKey>, sign: Payload -> string, groups: Groups)
    requires NonEmpty(groups) && IsListing(s, sign, groups) && IsListing(t, sign, groups)
    ensures s == t
  {
    DistinctSameMembers(s, t);
    OrderIsTotal();
    SortedIsUnique(OrderLe, s, t);
  }

  // ----- Reading the log -----

  /** The time text lies between the bounds of the snapshot, as texts. */
  predicate InWindow(snapshot: Snapshot, e: Event) {
    AtOrBefore(snapshot.from, e.occurredAt) && Before(e.occurredAt, snapshot.to)
  }

  /** The audit rows of the snapshot: numbers up to its boundary, text times in its range, matching the filter. */
  function InRead(snapshot: Snapshot, matches: Event -> bool): Event -> bool {
    (e: Event) => e.source.Audit? && e.id <= snapshot.auditMax && InWindow(snapshot, e) && matches(e)
  }

  function Read(log: seq<Event>, snapshot: Snapshot, matches: Event -> bool): seq<Event> {
    Filter(InRead(snapshot, matches), log)
  }

  /** The bounds of a read are compared as texts. An event whose time the store wrote is read exactly when its time
      lies in [from, to), if and only if no bound it would otherwise meet or miss is reversed with it. */
  lemma {:induction false} TextWindowExactly(
      snapshot: Snapshot, matches: Event -> bool, e: Event, from: Instant, to: Instant, t: Instant)
    requires snapshot.from == Format(from) && snapshot.to == Format(to) && from < to
    requires e.occurredAt == Format(t) && e.source.Audit? && e.id <= snapshot.auditMax && matches(e)
    ensures (InRead(snapshot, matches)(e) <==> from <= t < to) <==>
              if t < from then Reversed(t, from) ==> Reversed(t, to)
              else if t < to then !Reversed(from, t) && !Reversed(t, to)
              else Reversed(to, t) ==> Reversed(from, t)
  {
    hide Before, Format, Fraction;
    TextOrderExactly(t, from);
    TextOrderExactly(t, to);
  }

  /** The log only grows, and what is added is numbered beyond the snapshot's boundary. */
  ghost predicate Later(log: seq<Event>, log': seq<Event>, snapshot: Snapshot) {
    log <= log' && forall i :: |log| <= i < |log'| ==> log'[i].id > snapshot.auditMax
  }

  lemma {:induction false} LaterReadsTheSame(
      log: seq<Event>, log': seq<Event>, snapshot: Snapshot, matches: Event -> bool)
    requires Later(log, log', snapshot)
    ensures Read(log', snapshot, matches) == Read(log, snapshot, matches)
    decreases |log'|
  {
    if |log| < |log'| {
      hide Filter, Before, AtOrBefore;
      var init, last := log'[..|log'| - 1], log'[|log'| - 1];
      assert log' == init + [last];
      LaterReadsTheSame(log, init, snapshot, matches);
      FilterStep(InRead(snapshot, matches), init, last);
    } else {
      assert log == log';
    }
  }

  // ----- Cursors -----

  function Strtol(s: string): Option<int> {
    var digits := if s != [] && (s[0] == '-' || s[0] == '+') then s[1..] else s;
    if digits == [] || !AllDigits(digits) then None
    else
      var v := if s[0] == '-' then -(Value(digits) as int) else Value(digits);
      if -0x8000_0000_0000_0000 <= v < 0x8000_0000_0000_0000 then Some(v) else None
  }

  /** The offset a cursor stands for; -1 for a text that is not one. */
  function CursorOffset(cursor: string): int {
    if cursor == "" then 0
    else match Strtol(cursor) case Some(v) => (if v < 0 then -1 else v) case None => -1
  }

  lemma {:induction false} CursorRoundTrip(n: nat)
    requires n < 0x8000_0000_0000_0000
    ensures CursorOffset(Decimal(n)) == n
  {
    ValueOfDecimal(n);
    assert IsDigit(Decimal(n)[0]);
  }

  // ----- One page -----

  datatype Response = Stale | TooLarge | BadRequest | Page(items: seq<Attention>, total: nat, next: Option<string>)

  function Min(a: int, b: int): int { if a < b then a else b }

  /** What a request for a page answers. */
  ghost predicate IsAnswer(r: Response, sign: Payload -> string, log: seq<Event>, acks: Acks, snapshot: Snapshot,
                           matches: Event -> bool, filter: ViewFilter, limit: int, cursor: string) {
    var events, offset := Read(log, snapshot, matches), CursorOffset(cursor);
    if !MatchesFilter(snapshot, filter) then r.Stale?
    else if |events| > 50_000 then r.TooLarge?
    else if limit < 1 || limit > 100 || offset < 0 then r.BadRequest?
    else
      r.Page? && forall groups, order ::
        IsGrouping(groups, snapshot, events, filter.Range()) && NonEmpty(groups) && IsListing(order, sign, groups) ==>
          var start := Min(offset, |order|);
          var end := Min(start + limit, |order|);
          && Map(KeyOfAttention, r.items) == order[start..end]
          && r.total == |order|
          && r.next == (if end < |order| then Some(Decimal(end)) else None)
          && forall a :: a in r.items ==> ShowsBatch(a, sign, groups, acks)
  }

  /** An item is the current summary of one of the batches. */
  ghost predicate ShowsBatch(a: Attention, sign: Payload -> string, groups: Groups, acks: Acks)
    requires NonEmpty(groups)
  {
    exists k :: IsSummary(a, sign, groups, acks, k)
  }

  method ListAttentions(sign: Payload -> string, log: seq<Event>, acks: Acks, snapshot: Snapshot,
                        matches: Event -> bool, filter: ViewFilter, limit: int, cursor: string) returns (r: Response)
    requires Injective(sign)
    ensures IsAnswer(r, sign, log, acks, snapshot, matches, filter, limit, cursor)
    ensures r.Page? ==> ListedInOrder(r.items)
  {
    hide MatchesFilter, CursorOffset, InRead, IsGrouping, IsListing;
    if !MatchesFilter(snapshot, filter) {
      return Stale;
    }
    var events := Read(log, snapshot, matches);
    if |events| > MAX_AGGREGATED {
      return TooLarge;
    }
    if limit < 1 || limit > MAX_LIMIT || CursorOffset(cursor) < 0 {
      return BadRequest;
    }
    hide *;
    var groups := AuditGroups.AuditGroups(snapshot, events, filter);
    var items, order := ListGroups(sign, groups, acks, snapshot, events, filter.Range());
    var start := Min(CursorOffset(cursor), |items|);
    var end := Min(start + limit, |items|);
    MinBounds(CursorOffset(cursor), limit, |items|);
    r := Page(items[start..end], |items|, if end < |items| then Some(Decimal(end)) else None);
    PageAnswers(r, sign, log, acks, snapshot, matches, filter, limit, cursor, groups, items, order);
    SliceListsInOrder(items, order, sign, groups, start, end);
  }

  lemma {:induction false} SliceListsInOrder(
      items: seq<Attention>, order: seq<OrderKey>, sign: Payload -> string, groups: Groups, start: nat, end: nat)
    requires NonEmpty(groups) && IsListing(order, sign, groups) && order == Map(KeyOfAttention, items)
    requires start <= end <= |items|
    ensures ListedInOrder(items[start..end])
  {
    hide KeyOfAttention, KeyOfBatch, OrderLe;
    assert Map(KeyOfAttention, items[start..end]) == order[start..end];
    OrderedKeysListInOrder(items[start..end], order);
  }

  lemma {:induction false} MinBounds(offset: int, limit: int, n: nat)
    requires 0 <= offset && 1 <= limit
    ensures 0 <= Min(offset, n) <= Min(Min(offset, n) + limit, n) <= n
  {}

  lemma {:induction false} PageAnswers(
      r: Response, sign: Payload -> string, log: seq<Event>, acks: Acks, snapshot: Snapshot, matches: Event -> bool,
      filter: ViewFilter, limit: int, cursor: string, groups: Groups, items: seq<Attention>, order: seq<OrderKey>)
    requires MatchesFilter(snapshot, filter) && |Read(log, snapshot, matches)| <= MAX_AGGREGATED
    requires 1 <= limit <= MAX_LIMIT && CursorOffset(cursor) >= 0
    requires IsGrouping(groups, snapshot, Read(log, snapshot, matches), filter.Range())
    requires NonEmpty(groups) && IsListing(order, sign, groups) && order == Map(KeyOfAttention, items)
    requires forall a :: a in items ==> ShowsBatch(a, sign, groups, acks)
    requires var start := Min(CursorOffset(cursor), |items|);
             var end := Min(start + limit, |items|);
             r == Page(items[start..end], |items|, if end < |items| then Some(Decimal(end)) else None)
    ensures IsAnswer(r, sign, log, acks, snapshot, matches, filter, limit, cursor)
  {
    hide IsGrouping, CursorOffset, Read, MatchesFilter, IsListing, KeyOfAttention, ShowsBatch;
    var events := Read(log, snapshot, matches);
    forall gs, os | IsGrouping(gs, snapshot, events, filter.Range()) && NonEmpty(gs) && IsListing(os, sign, gs)
      ensures gs == groups && os == order
    {
      GroupingIsUnique(gs, groups, snapshot, events, filter.Range());
      ListingIsUnique(os, order, sign, groups);
    }
    var start := Min(CursorOffset(cursor), |items|);
    assert Map(KeyOfAttention, r.items) == order[start..Min(start + limit, |items|)];
  }

  /** Summarises the batches in whatever order the map is iterated. */
  method SummariseAll(
      sign: Payload -> string, groups: Groups, acks: Acks) returns (items: seq<Attention>, ghost keys: seq<string>)
    requires NonEmpty(groups)
    ensures Distinct(keys) && forall k :: k in keys <==> k in groups
    ensures |items| == |keys| && forall i :: 0 <= i < |keys| ==> IsSummary(items[i], sign, groups, acks, keys[i])
  {
    hide *;
    items, keys := [], [];
    var rest := groups.Keys;
    NoneDrawn(sign, groups, acks);
    while rest != {}
      invariant Drawn(groups, keys, rest)
      invariant Summarised(items, keys, sign, groups, acks)
      decreases rest
    {
      var k :| k in rest;
      OneDrawn(groups, keys, rest, k);
      GroupOf(groups, k);
      var item := ToApiAttention(sign, groups[k].payload, groups[k], acks);
      OneSummarised(items, keys, item, k, sign, groups, acks);
      items, keys, rest := items + [item], keys + [k], rest - {k};
    }
    AllDrawn(items, keys, sign, groups, acks);
  }

  ghost predicate IsSummary(a: Attention, sign: Payload -> string, groups: Groups, acks: Acks, k: string)
    requires NonEmpty(groups)
  {
    k in groups && a == Summarise(sign, groups[k].payload, groups[k].events, acks)
  }

  /** The summaries of all batches, sorted for display. */
  method ListGroups(
      sign: Payload -> string, groups: Groups, acks: Acks, ghost snapshot: Snapshot, ghost events: seq<Event>,
      ghost range: int) returns (items: seq<Attention>, ghost order: seq<OrderKey>)
    requires Injective(sign) && IsGrouping(groups, snapshot, events, range)
    ensures NonEmpty(groups) && IsListing(order, sign, groups) && order == Map(KeyOfAttention, items)
    ensures forall a :: a in items ==> ShowsBatch(a, sign, groups, acks)
  {
    hide *;
    GroupsAreNonEmpty(groups, snapshot, events, range);
    ghost var keys;
    items, keys := SummariseAll(sign, groups, acks);
    order := SortBy(OrderLe, Map(KeyOfAttention, items));
    SortedItemsList(sign, groups, acks, snapshot, events, range, keys, items);
    items := SortBy(NotificationLe, items);
  }

  /** The keys drawn from the map so far, and the ones left. */
  ghost predicate Drawn(groups: Groups, keys: seq<string>, rest: set<string>) {
    rest <= groups.Keys && Distinct(keys) && forall k :: k in keys <==> k in groups && k !in rest
  }

  ghost predicate Summarised(
      items: seq<Attention>, keys: seq<string>, sign: Payload -> string, groups: Groups, acks: Acks)
    requires NonEmpty(groups)
  {
    |items| == |keys| && forall i :: 0 <= i < |keys| ==> IsSummary(items[i], sign, groups, acks, keys[i])
  }

  lemma {:induction false} NoneDrawn(sign: Payload -> string, groups: Groups, acks: Acks)
    requires NonEmpty(groups)
    ensures Drawn(groups, [], groups.Keys) && Summarised([], [], sign, groups, acks)
  {}

  lemma {:induction false} OneDrawn(groups: Groups, keys: seq<string>, rest: set<string>, k: string)
    requires Drawn(groups, keys, rest) && k in rest
    ensures k in groups && Drawn(groups, keys + [k], rest - {k})
  {}

  lemma {:induction false} GroupOf(groups: Groups, k: string)
    requires NonEmpty(groups) && k in groups
    ensures groups[k].events != []
  {}

  lemma {:induction false} OneSummarised(items: seq<Attention>, keys: seq<string>, item: Attention, k: string,
                                         sign: Payload -> string, groups: Groups, acks: Acks)
    requires NonEmpty(groups) && Summarised(items, keys, sign, groups, acks)
    requires k in groups && item == Summarise(sign, groups[k].payload, groups[k].events, acks)
    ensures Summarised(items + [item], keys + [k], sign, groups, acks)
  {
    hide Summarise;
    assert IsSummary(item, sign, groups, acks, k);
  }

  lemma {:induction false} AllDrawn(
      items: seq<Attention>, keys: seq<string>, sign: Payload -> string, groups: Groups, acks: Acks)
    requires NonEmpty(groups) && Drawn(groups, keys, {}) && Summarised(items, keys, sign, groups, acks)
    ensures Distinct(keys) && forall k :: k in keys <==> k in groups
    ensures |items| == |keys| && forall i :: 0 <= i < |keys| ==> IsSummary(items[i], sign, groups, acks, keys[i])
  {
    hide IsSummary;
  }

  lemma {:induction false} GroupsAreNonEmpty(groups: Groups, snapshot: Snapshot, events: seq<Event>, range: int)
    requires IsGrouping(groups, snapshot, events, range)
    ensures NonEmpty(groups)
  {}

  lemma {:induction false} KeyOfSummary(sign: Payload -> string, g: Group, acks: Acks)
    requires g.events != []
    ensures KeyOfAttention(Summarise(sign, g.payload, g.events, acks)) == KeyOfBatch(sign, g)
  {}

  lemma {:induction false} SortedItemsList(
      sign: Payload -> string, groups: Groups, acks: Acks, snapshot: Snapshot, events: seq<Event>, range: int,
      keys: seq<string>, items: seq<Attention>)
    requires Injective(sign) && IsGrouping(groups, snapshot, events, range) && NonEmpty(groups)
    requires Distinct(keys) && (forall k :: k in keys <==> k in groups) && |items| == |keys|
    requires forall i :: 0 <= i < |keys| ==> IsSummary(items[i], sign, groups, acks, keys[i])
    ensures IsListing(SortBy(OrderLe, Map(KeyOfAttention, items)), sign, groups)
    ensures Map(KeyOfAttention, SortBy(NotificationLe, items)) == SortBy(OrderLe, Map(KeyOfAttention, items))
    ensures forall a :: a in SortBy(NotificationLe, items) ==> ShowsBatch(a, sign, groups, acks)
  {
    hide KeyOfAttention, Summarise, KeyOfBatch, SortBy, OrderLess, IsGrouping, Sorted, Distinct, IsListing;
    var ps := Map(KeyOfAttention, items);
    SortMaps(KeyOfAttention, NotificationLe, OrderLe, items);
    SortPermutes(NotificationLe, items);
    KeysOfItems(sign, groups, acks, snapshot, events, range, keys, items);
    ListedKeys(sign, groups, keys, ps);
    forall a | a in items ensures ShowsBatch(a, sign, groups, acks) {
      var i :| 0 <= i < |items| && a == items[i];
      assert IsSummary(items[i], sign, groups, acks, keys[i]);
    }
  }

  lemma {:induction false} ListedKeys(sign: Payload -> string, groups: Groups, keys: seq<string>, ps: seq<OrderKey>)
    requires NonEmpty(groups) && (forall k :: k in keys <==> k in groups) && |ps| == |keys| && Distinct(ps)
    requires forall i :: 0 <= i < |keys| ==> ps[i] == KeyOfBatch(sign, groups[keys[i]])
    ensures IsListing(SortBy(OrderLe, ps), sign, groups)
  {
    hide KeyOfBatch, SortBy, OrderLess, Sorted, Distinct;
    OrderIsTotal();
    SortSorts(OrderLe, ps);
    SortPermutes(OrderLe, ps);
    DistinctPermutes(ps, SortBy(OrderLe, ps));
  }

  lemma {:induction false} KeysOfItems(
      sign: Payload -> string, groups: Groups, acks: Acks, snapshot: Snapshot, events: seq<Event>, range: int,
      keys: seq<string>, items: seq<Attention>)
    requires Injective(sign) && IsGrouping(groups, snapshot, events, range) && NonEmpty(groups)
    requires Distinct(keys) && (forall k :: k in keys <==> k in groups) && |items| == |keys|
    requires forall i :: 0 <= i < |keys| ==> IsSummary(items[i], sign, groups, acks, keys[i])
    ensures var ps := Map(KeyOfAttention, items);
            Distinct(ps) && forall i :: 0 <= i < |keys| ==> ps[i] == KeyOfBatch(sign, groups[keys[i]])
  {
    hide KeyOfAttention, Summarise, KeyOfBatch, IsGrouping;
    var ps := Map(KeyOfAttention, items);
    forall i | 0 <= i < |keys| ensures ps[i] == KeyOfBatch(sign, groups[keys[i]]) {
      assert IsSummary(items[i], sign, groups, acks, keys[i]);
      KeyOfSummary(sign, groups[keys[i]], acks);
    }
    forall i, j | 0 <= i < j < |keys| ensures ps[i] != ps[j] {
      DistinctBatchKeys(sign, groups, snapshot, events, range, keys[i], keys[j]);
    }
  }

  lemma {:induction false} DistinctBatchKeys(
      sign: Payload -> string, groups: Groups, snapshot: Snapshot, events: seq<Event>, range: int, j: string, k: string)
    requires Injective(sign) && IsGrouping(groups, snapshot, events, range) && NonEmpty(groups)
    requires j in groups && k in groups && j != k
    ensures KeyOfBatch(sign, groups[j]) != KeyOfBatch(sign, groups[k])
  {
    hide KeyOf, BucketText, Parsed, IsRisk;
    InBatch(groups, snapshot, events, range, j, groups[j].events[0]);
    InBatch(groups, snapshot, events, range, k, groups[k].events[0]);
    assert groups[j].payload != groups[k].payload;
  }

  // ----- Following the cursors -----

  /** One request, what the store held when it came, and its answer. */
  datatype Exchange = Exchange(log: seq<Event>, acks: Acks, limit: int, cursor: string, answer: Response)

  /** Requests under one snapshot and filter, each but the first with the cursor of the answer before it.
      Between them events may be stored and acknowledgements made. */
  ghost predicate Follows(xs: seq<Exchange>, sign: Payload -> string, log: seq<Event>, snapshot: Snapshot,
                          matches: Event -> bool, filter: ViewFilter) {
    xs == [] ||
    var init, x := xs[..|xs| - 1], xs[|xs| - 1];
    && Follows(init, sign, log, snapshot, matches, filter)
    && Later(log, x.log, snapshot) && 1 <= x.limit <= MAX_LIMIT
    && IsAnswer(x.answer, sign, x.log, x.acks, snapshot, matches, filter, x.limit, x.cursor)
    && if init == [] then x.cursor == ""
       else init[|init| - 1].answer.Page? && init[|init| - 1].answer.next == Some(x.cursor)
  }

  function Pages(xs: seq<Exchange>): (r: seq<seq<OrderKey>>)
    ensures |r| == |xs|
  {
    seq(|xs|, i requires 0 <= i < |xs| => if xs[i].answer.Page? then Map(KeyOfAttention, xs[i].answer.items) else [])
  }

  /** The shape of a page that starts at an offset of the list. */
  ghost predicate IsSlice(r: Response, order: seq<OrderKey>, offset: nat, limit: int) {
    && r.Page? && offset <= |order| && 1 <= limit
    && var end := Min(offset + limit, |order|);
       Map(KeyOfAttention, r.items) == order[offset..end] && r.total == |order|
       && r.next == if end < |order| then Some(Decimal(end)) else None
  }

  lemma {:induction false} AnswerIsSlice(
      x: Exchange, sign: Payload -> string, log: seq<Event>, snapshot: Snapshot, matches: Event -> bool,
      filter: ViewFilter, groups: Groups, order: seq<OrderKey>, offset: nat)
    requires MatchesFilter(snapshot, filter) && |Read(log, snapshot, matches)| <= MAX_AGGREGATED
    requires IsGrouping(groups, snapshot, Read(log, snapshot, matches), filter.Range())
    requires NonEmpty(groups) && IsListing(order, sign, groups)
    requires Later(log, x.log, snapshot) && 1 <= x.limit <= MAX_LIMIT
    requires IsAnswer(x.answer, sign, x.log, x.acks, snapshot, matches, filter, x.limit, x.cursor)
    requires CursorOffset(x.cursor) == offset <= |order|
    ensures IsSlice(x.answer, order, offset, x.limit)
  {
    hide Read, IsGrouping, IsListing, MatchesFilter, Later, KeyOfAttention, CursorOffset;
    LaterReadsTheSame(log, x.log, snapshot, matches);
  }

  /** The pages up to an answer that names a next cursor are the list up to that cursor. */
  ghost predicate SeenSoFar(r: Response, seen: seq<OrderKey>, pages: nat, order: seq<OrderKey>) {
    && r.Page? && seen <= order
    && if r.next.None? then seen == order else pages <= |seen| < |order| && r.next == Some(Decimal(|seen|))
  }

  lemma {:induction false} NextPage(r: Response, seen: seq<OrderKey>, pages: nat, order: seq<OrderKey>, limit: int)
    requires seen <= order && pages <= |seen| && IsSlice(r, order, |seen|, limit)
    ensures SeenSoFar(r, seen + Map(KeyOfAttention, r.items), pages + 1, order)
  {
    hide KeyOfAttention;
    var end := Min(|seen| + limit, |order|);
    assert seen + order[|seen|..end] == order[..end];
  }

  lemma {:induction false} PagesSoFar(xs: seq<Exchange>, sign: Payload -> string, log: seq<Event>, snapshot: Snapshot,
                                      matches: Event -> bool, filter: ViewFilter, groups: Groups, order: seq<OrderKey>)
    requires MatchesFilter(snapshot, filter) && |Read(log, snapshot, matches)| <= MAX_AGGREGATED
    requires IsGrouping(groups, snapshot, Read(log, snapshot, matches), filter.Range())
    requires NonEmpty(groups) && IsListing(order, sign, groups) && |order| <= MAX_AGGREGATED
    requires xs != [] && Follows(xs, sign, log, snapshot, matches, filter)
    ensures SeenSoFar(xs[|xs| - 1].answer, Flatten(Pages(xs)), |xs|, order)
    ensures forall i :: 0 <= i < |xs| ==> xs[i].answer.Page?
  {
    hide Read, IsGrouping, IsListing, MatchesFilter, Later, KeyOfAttention, CursorOffset, IsAnswer, IsSlice, Map,
         Decimal;
    var init, last := xs[..|xs| - 1], xs[|xs| - 1];
    var seen: seq<OrderKey> := [];
    if init == [] {
      EmptyCursor();
      assert Flatten(Pages(init)) == [];
    } else {
      PagesSoFar(init, sign, log, snapshot, matches, filter, groups, order);
      seen := Flatten(Pages(init));
      CursorRoundTrip(|seen|);
    }
    AnswerIsSlice(last, sign, log, snapshot, matches, filter, groups, order, |seen|);
    assert last.answer.Page? by { SliceIsPage(last.answer, order, |seen|, last.limit); }
    NextPage(last.answer, seen, |init|, order, last.limit);
    FlattenLast(Pages(init), Map(KeyOfAttention, last.answer.items));
    assert Pages(xs) == Pages(init) + [Map(KeyOfAttention, last.answer.items)];
  }

  lemma {:induction false} SliceIsPage(r: Response, order: seq<OrderKey>, offset: nat, limit: int)
    requires IsSlice(r, order, offset, limit)
    ensures r.Page?
  {}

  lemma {:induction false} EmptyCursor()
    ensures CursorOffset("") == 0
  {}

  lemma {:induction false} FlattenLast<T>(ss: seq<seq<T>>, s: seq<T>)
    ensures Flatten(ss + [s]) == Flatten(ss) + s
  {
    FlattenConcat(ss, [s]);
    assert Flatten([s]) == s + Flatten([]);
  }

  /** Following the cursors from the start, with any page limits, whatever is acknowledged or stored in
      between and however the map is iterated: when the cursors end, the pages together are exactly the list. */
  lemma {:induction false} FollowingCursorsListsEveryBatchOnce(
      xs: seq<Exchange>, sign: Payload -> string, log: seq<Event>, snapshot: Snapshot, matches: Event -> bool,
      filter: ViewFilter, groups: Groups, order: seq<OrderKey>)
    requires MatchesFilter(snapshot, filter) && |Read(log, snapshot, matches)| <= MAX_AGGREGATED
    requires IsGrouping(groups, snapshot, Read(log, snapshot, matches), filter.Range())
    requires NonEmpty(groups) && IsListing(order, sign, groups)
    requires xs != [] && Follows(xs, sign, log, snapshot, matches, filter)
    ensures forall i :: 0 <= i < |xs| ==> xs[i].answer.Page?
    ensures xs[|xs| - 1].answer.next.None? ==> Flatten(Pages(xs)) == order
    ensures xs[|xs| - 1].answer.next.Some? ==> |xs| < |order|
  {
    hide Read, IsGrouping, IsListing, MatchesFilter, KeyOfAttention, CursorOffset, IsAnswer, Later;
    ListingIsShort(sign, log, snapshot, matches, filter, groups, order);
    PagesSoFar(xs, sign, log, snapshot, matches, filter, groups, order);
  }

  function ItemsOf(xs: seq<Exchange>): (r: seq<seq<Attention>>)
    ensures |r| == |xs|
  {
    seq(|xs|, i requires 0 <= i < |xs| => if xs[i].answer.Page? then xs[i].answer.items else [])
  }

  lemma {:induction false} KeysOfItemsOf(xs: seq<Exchange>)
    ensures Flatten(Pages(xs)) == Map(KeyOfAttention, Flatten(ItemsOf(xs)))
  {
    hide KeyOfAttention;
    if xs != [] {
      var init, last := xs[..|xs| - 1], xs[|xs| - 1];
      var items := ItemsOf([last])[0];
      assert ItemsOf([last]) == [items];
      KeysOfItemsOf(init);
      LastPage(init, last);
      hide Pages, ItemsOf;
      assert xs == init + [last];
      FlattenLast(Pages(init), Map(KeyOfAttention, items));
      FlattenLast(ItemsOf(init), items);
      var before := Flatten(ItemsOf(init));
      assert Map(KeyOfAttention, before + items) == Map(KeyOfAttention, before) + Map(KeyOfAttention, items);
    }
  }

  lemma {:induction false} LastPage(init: seq<Exchange>, last: Exchange)
    ensures ItemsOf(init + [last]) == ItemsOf(init) + ItemsOf([last])
    ensures Pages(init + [last]) == Pages(init) + [Map(KeyOfAttention, ItemsOf([last])[0])]
  {
    hide KeyOfAttention;
  }

  /** Along the cursors, across all pages so far, the batches come in the order written out above. */
  lemma {:induction false} PagesListInOrder(
      xs: seq<Exchange>, sign: Payload -> string, log: seq<Event>, snapshot: Snapshot, matches: Event -> bool,
      filter: ViewFilter, groups: Groups, order: seq<OrderKey>)
    requires MatchesFilter(snapshot, filter) && |Read(log, snapshot, matches)| <= MAX_AGGREGATED
    requires IsGrouping(groups, snapshot, Read(log, snapshot, matches), filter.Range())
    requires NonEmpty(groups) && IsListing(order, sign, groups)
    requires xs != [] && Follows(xs, sign, log, snapshot, matches, filter)
    ensures ListedInOrder(Flatten(ItemsOf(xs)))
  {
    hide Read, IsGrouping, MatchesFilter, KeyOfAttention, KeyOfBatch, CursorOffset, IsAnswer, Later, Follows, OrderLe;
    ListingIsShort(sign, log, snapshot, matches, filter, groups, order);
    PagesSoFar(xs, sign, log, snapshot, matches, filter, groups, order);
    KeysOfItemsOf(xs);
    var seen := Flatten(Pages(xs));
    assert seen == order[0..|seen|];
    OrderedKeysListInOrder(Flatten(ItemsOf(xs)), order);
  }

  /** There are no more batches than events. */
  lemma {:induction false} ListingIsShort(
      sign: Payload -> string, log: seq<Event>, snapshot: Snapshot, matches: Event -> bool, filter: ViewFilter,
      groups: Groups, order: seq<OrderKey>)
    requires |Read(log, snapshot, matches)| <= MAX_AGGREGATED
    requires IsGrouping(groups, snapshot, Read(log, snapshot, matches), filter.Range())
    requires NonEmpty(groups) && IsListing(order, sign, groups)
    ensures |order| <= MAX_AGGREGATED
  {
    hide Read, KeyOf, BucketText, Parsed, IsRisk, KeyOfBatch, Sorted, OrderLe;
    var events := Read(log, snapshot, matches);
    var batchKey := BatchKeyOfEvent(sign, groups, filter.Range());
    forall p | p in order ensures exists e :: e in events && p == batchKey(e) {
      var k :| k in groups && p == KeyOfBatch(sign, groups[k]);
      InBatch(groups, snapshot, events, filter.Range(), k, groups[k].events[0]);
      assert p == batchKey(groups[k].events[0]);
    }
    SetOfSeq(events);
    ImageIsSmall((set e | e in events), (set p | p in order), batchKey);
    DistinctIn(order, (set p | p in order));
  }

  ghost function BatchKeyOfEvent(sign: Payload -> string, groups: Groups, range: int): Event -> OrderKey
    requires NonEmpty(groups)
  {
    (e: Event) => if KeyOf(e, range) in groups then KeyOfBatch(sign, groups[KeyOf(e, range)])
                  else OrderKey(false, 0, 0, "")
  }
}
