# Verified model of the artifact server and its development mock

A Dafny model of six parts of the repository that compute rather than connect, with proofs of what they promise.
`dafny verify dfyconfig.toml` checks everything.

- **Automatic backup** (`AutoBackup`): the heartbeat of the backup job under changing settings. Durations are int64
  nanoseconds and wrap around as in the program, so the model says exactly when the rescale is right and what an
  overflow can cost.
- **Audit read model** (`AuditEvents`, `AuditGroups`, `AuditAttention`, `AuditSummary`, `AuditPaging`, `AuditReads`,
  `AuditReload`, over `Rfc3339` and `Calendar`): classification and time buckets, attention batches, their summaries,
  the overview with its trend, and the paged list of batches under a signed snapshot. The proofs are about agreement
  between these: the same events, the same ids, the same totals, whatever order maps are iterated in.
- **Artifact store** (`StorePaths`, `StoreState`, `StoreRename`, `StoreDirectory`, `StoreVolumes`, `StoreCollisions`,
  `StoreAnswers`, `StoreRuns`, `StoreHistory`, `Store`): the mock's in-memory store. `Store.ArtifactStore` is the
  object with its fields changed in place; each method is proved against a function on the store's state, and the
  functions' properties are proved over all states and all runs.
- **Package search** (`SearchCoordinates`, `SearchVersions`, `SearchPackages`, `SearchOrder`): coordinates, precision,
  version vectors, and the three-level aggregation with its relevance orders.
- **Mock audit store** (`MockObservability`, `ObservabilityStore`, `MockAuditStore`, `MockOrder`): snapshots and
  acknowledgements under any interleaving of requests.
- **Upload sessions and download trends** (`UploadSession`, `TrendBuckets`): the chunked upload handlers, each split
  at the point where it awaits its request's body, and the buckets of a trend window.

`Seqs`, `Text` and `Wrappers` hold what several parts use: filters, grouping, a stable sort, text order, decimal
numbers.

Where the code departs from what one would expect of it, the model follows the code, and lemmas show inputs and say
exactly when:

- The rescale of the backup job multiplies two int64 durations. `AutoBackup.ShrinkKeepsDueness` says exactly when a
  due backup survives a smaller interval; between any two intervals above about three seconds the beat that shrinks
  does not attempt, unless its clock readings lie further apart than a bound
  (`AutoBackup.LargeIntervalsNeverAttemptOnShrink`), as with one hour and 30 seconds
  (`AutoBackup.OverflowLosesDueBackup`).
- The order that picks a batch's primary event ranks High above Critical (`AuditEvents.HighFailurePrecedesCritical`);
  `AuditAttention.PrimaryIsCriticalExactly` says when a batch with a Critical member still shows it.
- Times are compared as text, which is not chronological within a second: `Rfc3339.TextOrderExactly` says for which
  instants, and `AuditEvents.LaterPrecedesUnlessReversed` and `AuditPaging.TextWindowExactly` what follows for the
  primary event and for the window of a read. An event in the first second after a lower bound at a whole second is an
  instance (`Rfc3339.FractionBreaksTextOrder`).
- A member at Go's zero time can make a batch's first time depend on the order of events
  (`AuditAttention.ZeroTimeThenLater`); `AuditAttention.FirstTimeIgnoresOrderExactly` says when.
- The batch list reads audit events only and expands a repository to its aliases; the reload of a batch reads
  replication events too, drops some conditions and does not expand. `AuditReload.ReplicationJoinsTheBatch` and
  `AuditReload.AliasedBatchIsStale` are inputs where a batch does not come back as it was listed;
  `AuditReload.ComesBackExactly` says when it does.
- The list of events shows partial results as failures and some actions as asset changes that its filters do not read
  as such: `AuditReads.ResultFilterReadsWhatIsShown` and `AuditReads.CategoryFilterReadsWhatIsShown` say for which
  events the filters agree with what is shown.
- An npm tarball with a scope is found without its version (`SearchCoordinates.ScopedPathIsFound`).
- An empty and an absent time bound share a fingerprint in the mock audit store but select different events
  (`MockObservability.EmptyBoundIsNotAbsent`); `MockObservability.SameKeySelectsTheSame` says when that shows.
- An upload handler checks the session's status before it awaits the body and does not check it again. A put or
  complete that was awaiting its body when the session was aborted revives it (`UploadSession.Thaws`); an aborted
  session is frozen if and only if none was. So a session can be completed without its chunks
  (`UploadSession.CompletesShort`); `UploadSession.CompletedSessionsAreFull` says over which runs it is not.
- A seed with the name of a clone is taken away with the clones, and what was kept under such a name is lost:
  `StoreVolumes.RecallRestoresIffNoCollision` and `StoreCollisions.VolumeForgetsExactly` say exactly when.

## Model

| member | source | states |
|---|---|---|
| AutoBackup.AutoBackupJob.Wake | apps/server/cmd/jianartifact/auto_backup_job.go:121-159 | One heartbeat changes the two captured variables exactly as the step function says, attempts exactly when due, and reports a failure exactly when an attempt fails. |
| AutoBackup.OffBeatsLeaveNoTrace | apps/server/cmd/jianartifact/auto_backup_job.go:119-158 | Over every run, beats with the setting off attempt nothing and leave no trace: the run and the time of its last attempt are those of the other beats alone. |
| AutoBackup.RescaleNeverMovesBack | apps/server/cmd/jianartifact/auto_backup_job.go:130-135 | The rescale never moves the base time backwards, also when the int64 product wraps around. |
| AutoBackup.AttemptsAreSpaced | apps/server/cmd/jianartifact/auto_backup_job.go:119-158 | Over every run of heartbeats, with any settings, failures and overflows before it, an attempt under interval I starts at least I after the previous attempt ended, or after registration. |
| AutoBackup.FloorKeepsDueness | apps/server/cmd/jianartifact/auto_backup_job.go:130-141 | In exact integers, the rounded-down rescaled age reaches the new interval if and only if the age reached the old one. |
| AutoBackup.ShrinkingBeatAttempts | apps/server/cmd/jianartifact/auto_backup_job.go:127-141 | With one clock reading, the beat that shrinks the interval attempts a backup if and only if the product of age and new interval, as the int64 stores it, reaches the new interval times the old. |
| AutoBackup.ShrinkKeepsDueness | apps/server/cmd/jianartifact/auto_backup_job.go:127-141 | That beat attempts exactly when a backup was due under the old interval if and only if none was due or the stored product reaches the new interval times the old. |
| AutoBackup.FittingShrinkKeepsDueness | apps/server/cmd/jianartifact/auto_backup_job.go:127-141 | In particular due-ness is kept whenever the product fits in an int64, despite the integer division. |
| AutoBackup.LargeIntervalsNeverAttemptOnShrink | apps/server/cmd/jianartifact/auto_backup_job.go:127-141 | For any clock readings in order: the beat that shrinks the interval never attempts, however long the backup is overdue, while the time from the rescale to the check (from the first reading, if no time had passed at it) stays below the new interval less the greatest age a rescale can leave, which is 2^63 - 1 divided by the old interval. |
| AutoBackup.LargeIntervals | apps/server/cmd/jianartifact/auto_backup_job.go:127-141 | That bound is positive, so that the row above applies at one reading, if and only if the two intervals multiply to 2^63 or more, as any two above about three seconds do. |
| AutoBackup.RescaleIsExactIffProductFits | apps/server/cmd/jianartifact/auto_backup_job.go:132-132 | The int64 computation gives the exact proportional age if and only if elapsed times interval is below 2^63. |
| AutoBackup.OverflowDelayIsBounded | apps/server/cmd/jianartifact/auto_backup_job.go:130-135 | Whatever overflows, the rescale leaves the base time where it was or at most 2^63 divided by the old interval after the beat. |
| AutoBackup.EarlyBeatsAreQuiet | apps/server/cmd/jianartifact/auto_backup_job.go:127-141 | At a constant interval, beats before the base time plus the interval attempt nothing and change nothing. |
| AutoBackup.NextAttemptWithinIntervalPlusGap | apps/server/cmd/jianartifact/auto_backup_job.go:127-141 | Once the interval stays at I with heartbeats at most H apart, the first attempt comes, and it comes before the base time plus I plus H. |
| AutoBackup.NextAttemptAfterAnyBeat | apps/server/cmd/jianartifact/auto_backup_job.go:119-158 | After any beat, an overflowing one included, once the interval stays at I with beats at most H apart, the next attempt comes before the latest base time that beat can leave plus I plus H. |
| Rfc3339.ParseFormat | apps/server/internal/api/audit_observability_handlers.go:583-603 | Reading back what is written as RFC 3339 text in UTC (section 5.6 of RFC 3339) gives the same instant, for every instant of the years 0 to 9999. |
| Rfc3339.FormatWrittenOut | apps/server/internal/api/audit_observability_handlers.go:583-603 | The text of an instant is its date and time of day in UTC, field by field, with the fraction and "Z". |
| Rfc3339.OffsetsAreTakenAway | apps/server/internal/api/audit_observability_handlers.go:550-553 | Reading a local time with an offset gives an instant that much earlier when the offset is ahead of UTC and later when it is behind. |
| Calendar.MonthLengths | apps/server/internal/api/audit_observability_handlers.go:550-553 | The months have the days they have, in leap years and others. |
| Calendar.KnownYears | apps/server/internal/api/audit_observability_handlers.go:550-553 | 2000 and 2024 are leap years, 1900 and 2023 are not, and 1970 starts 719528 days after the year 0. |
| Rfc3339.WholeSecondOrder | apps/server/internal/api/audit_observability_handlers.go:1343-1351 | Texts of whole seconds sort as text exactly as the instants do (section 5.1 of RFC 3339). |
| Rfc3339.TextOrderExactly | apps/server/internal/api/audit_observability_handlers.go:1429-1431 | For any two instants the text of one comes before the other's if and only if it is earlier and they are not reversed, or later and they are: reversed are two instants of one second where the earlier fraction is a prefix of the later. |
| AuditEvents.GroupKeyIsInjective | apps/server/internal/api/audit_observability_handlers.go:1361-1366 | Two group keys with bucket texts of one width are equal exactly when the subjects (correlation id, or source and number) and the buckets are. |
| AuditEvents.SameKey | apps/server/internal/api/audit_observability_handlers.go:854-871 | Under one range two events get one key exactly when subject and bucket start agree. |
| AuditEvents.EventKeyIsInjective | apps/server/internal/api/audit_observability_handlers.go:1331-1333 | Two event keys are equal exactly when source and number are. |
| AuditEvents.BucketsApart | apps/server/internal/api/audit_observability_handlers.go:1343-1360 | Distinct buckets of one range do not overlap: the next-bucket time of the earlier is at or before the later. |
| AuditEvents.EventLessIsConnected | apps/server/internal/api/audit_observability_handlers.go:1420-1433 | The primary-event order is asymmetric and decides between any two events with different keys. |
| AuditEvents.EventLessIsTransitive | apps/server/internal/api/audit_observability_handlers.go:1420-1433 | The primary-event order is transitive, and with the row above a strict total order on events with distinct keys. |
| AuditEvents.LaterPrecedesUnlessReversed | apps/server/internal/api/audit_observability_handlers.go:1429-1431 | Between events alike in failure and severity, the one with the later time precedes if and only if the texts of the two times are not reversed. |
| AuditEvents.SeverityWrittenOut | apps/server/internal/api/audit_observability_handlers.go:1202-1240 | The severity of an event by its action and whether it failed; the risk events are exactly those above Normal. |
| AuditEvents.EqualFoldMeans | apps/server/internal/api/audit_observability_handlers.go:1177-1187 | Two results are the same text up to case exactly when they differ in the case of letters at most. |
| AuditGroups.SortedValues | apps/server/internal/api/audit_observability_handlers.go:623-639 | Whatever order the set is iterated in, the collected values come out once each in the text order of their names. |
| AuditGroups.OrdersAscend | apps/server/internal/api/audit_observability_handlers.go:623-639 | The fixed orders of categories and of results are the text orders of their names. |
| AuditGroups.SortedAuditCategories | apps/server/internal/api/audit_observability_handlers.go:623-630 | The collected and sorted categories are the ones of the set in that order. |
| AuditGroups.SortedAuditResults | apps/server/internal/api/audit_observability_handlers.go:632-639 | The collected and sorted results are the ones of the set in that order. |
| AuditGroups.NewAuditReadSnapshot | apps/server/internal/api/audit_observability_handlers.go:583-603 | The snapshot the handler builds is the one the rows below are about. |
| AuditGroups.SnapshotMatchesOnlyItsFilter | apps/server/internal/api/audit_observability_handlers.go:583-621 | A snapshot accepts a filter if and only if it is the filter the snapshot was issued for. |
| AuditGroups.SameRange | apps/server/internal/api/audit_observability_handlers.go:103-111 | The range the event list derives from the snapshot equals the range the batch list takes from the accepted filter. |
| AuditGroups.AuditGroups | apps/server/internal/api/audit_observability_handlers.go:854-872 | The loop builds exactly the grouping: under each key that occurs, the risk events with readable times and that key, in order, with the payload of the key. |
| AuditGroups.BatchesPartitionScope | apps/server/internal/api/audit_observability_handlers.go:854-872 | No risk event with a readable time is lost or batched twice: the batches together are a permutation of them and their sizes add up. |
| AuditGroups.BatchMembers | apps/server/internal/api/audit_observability_handlers.go:854-871 | A batch holds exactly the events in scope that share the subject and the bucket of any one of its members. |
| AuditGroups.BatchWidths | apps/server/internal/api/audit_observability_handlers.go:1343-1366 | Two risk events with readable times share a batch if and only if they are of one operation, or are one event, and lie in one minute for a range up to a day, in one hour up to seven days, in one day beyond. |
| AuditGroups.EventShowsItsBatch | apps/server/internal/api/audit_observability_handlers.go:1039-1051 | A batched event is in the batch of its key and no other, and the event list shows exactly that batch's id on it. |
| AuditGroups.SameIdIffSameBatch | apps/server/internal/api/audit_observability_handlers.go:1039-1051 | Within one snapshot two risk events with readable times show the same attention id if and only if they are in the same batch. |
| AuditGroups.UnreadableTimeIsUnbatched | apps/server/internal/api/audit_observability_handlers.go:1016-1050 | A risk event whose time does not parse is in no batch; the id shown on it is that of a batch if and only if the batch has its subject and lies in the bucket of the zero time. |
| AuditReload.RestoredFromAccepted | apps/server/internal/api/audit_observability_handlers.go:550-581 | The filter restored from an accepted snapshot is the original one without the conditions it drops. |
| AuditReload.LoadAttention | apps/server/internal/api/audit_observability_handlers.go:516-548 | Loading refuses a foreign or unreadable snapshot and a missing batch as stale and more than 5000 events as too large, and otherwise returns the batch of the one grouping of what it reads. |
| AuditReads.ReadsCompared | apps/server/internal/repository/audit_observability_repo.go:285-369 | Where the two reads differ, event by event: a listed event is reloaded if and only if it carries the name the filter asks for, and a reloaded one was listed if and only if it is an audit event that meets the conditions a restored filter drops. |
| AuditReads.ResultFilterReadsWhatIsShown | apps/server/internal/repository/audit_observability_repo.go:388-403 | A filter by results reads exactly the events shown with one of them if and only if no result is "partial". |
| AuditReads.CategoryFilterReadsWhatIsShown | apps/server/internal/repository/audit_observability_repo.go:371-386 | The exact condition under which a filter by categories reads an event exactly when it is shown with one of them. |
| AuditReads.ListReadsWhatIsShown | apps/server/internal/repository/audit_observability_repo.go:285-369 | For events whose filters agree with what is shown, the list reads exactly the audit events within the snapshot that have the actor, a name of the repository, and a shown category and result that the filter asks for. |
| AuditReload.ComesBackExactly | apps/server/internal/api/audit_observability_handlers.go:470-581 | A listed batch is there again if and only if the reload reads an event that belongs to it, and is the listed one if and only if all its members carry the name the filter asks for, no replication event joins it, and no event that a dropped condition kept out. |
| AuditReload.WithoutRepositoryFilter | apps/server/internal/api/audit_observability_handlers.go:470-581 | Without a repository filter and dropped conditions the batch is always there again, and is the listed one if and only if no replication event the reload reads belongs to it. |
| AuditReload.WithRepositoryFilter | apps/server/internal/api/audit_observability_handlers.go:470-581 | With a repository filter, which the list expands to all names of the repository, and no dropped conditions, the batch is there again if and only if some member carries the filter's own name, and is the listed one if and only if all do. |
| AuditReload.WithoutCorrelationId | apps/server/internal/api/audit_observability_handlers.go:470-581 | A batch without a correlation id comes back as it was listed if and only if its event carries the name the filter asks for, so always without a repository filter, whatever conditions are dropped. |
| AuditReload.ReplicationJoinsTheBatch | apps/server/internal/api/audit_observability_handlers.go:516-548 | In every minute: one audit and one replication event of one operation are listed as a batch of one event and reloaded as a batch of two. |
| AuditReload.AliasedBatchIsStale | apps/server/internal/api/audit_observability_handlers.go:644-666 | In every minute: a batch recorded under another name of the repository is listed, and is stale when it is loaded. |
| AuditReload.LoadingAListedBatch | apps/server/internal/api/audit_observability_handlers.go:516-548 | From the list to the answer: loading a listed batch is too large if and only if the reload reads more than 5000 events, stale if and only if it reads none of the batch, and shows exactly the listed batch under the condition of the comparison above. |
| AuditAttention.ToApiAttention | apps/server/internal/api/audit_observability_handlers.go:1055-1111 | The loop computes exactly the summary the rows below are about. |
| AuditAttention.FirstTimeIsLeast | apps/server/internal/api/audit_observability_handlers.go:1059-1062 | The first time is the least time of the members, unless one is at the zero time, one after it and none before it. |
| AuditAttention.LatestTimeIsGreatest | apps/server/internal/api/audit_observability_handlers.go:1063-1065 | The latest time is the greatest time of the members, or the zero time when none is after it. |
| AuditAttention.PrimaryIsLeast | apps/server/internal/api/audit_observability_handlers.go:1095-1100 | The primary event is a member and precedes every other member. |
| AuditAttention.PrimaryIsCriticalExactly | apps/server/internal/api/audit_observability_handlers.go:1095-1101 | A batch with a Critical member shows severity Critical if and only if no member is a failed event of severity High and, unless some member failed, every member is Critical. |
| AuditAttention.SummaryWrittenOut | apps/server/internal/api/audit_observability_handlers.go:1055-1111 | The summary of a batch in terms of its members: the primary event is a member that outranks the others (failure, severity High, later time text, replication, greater number text), each count is that of the members with the property, and the result is mixed, failure or success by which of the two occur. |
| AuditAttention.EarliestAckIsLeast | apps/server/internal/api/audit_observability_handlers.go:1079-1085 | The first acknowledgement is a member's, and no member's acknowledgement is earlier. |
| AuditAttention.LastOperationOfSubject | apps/server/internal/api/audit_observability_handlers.go:1073-1076 | The operation id of a batch is the correlation id its members share. |
| AuditAttention.SummaryIgnoresOrder | apps/server/internal/api/audit_observability_handlers.go:1055-1111 | For every batch with distinct event keys in which the zero time does not matter, the summary is the same for every order of the events, up to who acknowledged among equally early acknowledgements. |
| AuditAttention.BatchCountsAgree | apps/server/internal/api/audit_observability_handlers.go:1055-1111 | For every batch affected = risk = acknowledged + unacknowledged = number of members = sum of the category counts, and the state is acknowledged exactly when every member is. |
| AuditAttention.FirstTimeIgnoresOrderExactly | apps/server/internal/api/audit_observability_handlers.go:1060-1062 | The first time is the same for every order of the members if and only if it is not the case that one is at the zero time, one after it and none before it. |
| AuditSummary.AuditSummary | apps/server/internal/api/audit_observability_handlers.go:884-976 | The overview counts exactly the events with each property, the distinct actors and clients, the rates and averages, and lists a trend. |
| AuditSummary.OverviewWrittenOut | apps/server/internal/api/audit_observability_handlers.go:884-976 | Totals, outcomes, categories and the rate of the overview in terms of the events alone, with actors counted by identity and clients by address. |
| AuditSummary.RequestFiguresWrittenOut | apps/server/internal/api/audit_observability_handlers.go:912-960 | Slow requests, client and server errors and the average duration in terms of the events alone. |
| AuditSummary.SameActorKey | apps/server/internal/api/audit_observability_handlers.go:926-930 | Two events count as one actor exactly when they share the user id, or have none and share the name. |
| AuditSummary.KeysInTextOrderAreATrend | apps/server/internal/api/audit_observability_handlers.go:967-974 | Listing the points by sorted key text lists them in ascending time without overlap, each counting exactly the events of its bucket, and every timed event has a point. |
| AuditSummary.PointHoldsItsInterval | apps/server/internal/api/audit_observability_handlers.go:935-947 | An event is counted in a point exactly when its time lies in the point's half-open interval. |
| AuditSummary.PointCountsItsInterval | apps/server/internal/api/audit_observability_handlers.go:935-947 | A point of the trend spans a minute for a range up to a day, an hour up to seven days and a day beyond, starts at a multiple of that, and counts exactly the events, and the failed ones, whose time lies in it. |
| AuditSummary.SummaryConserves | apps/server/internal/api/audit_observability_handlers.go:884-976 | The total equals the number of events and the sum of the category counts; each point's categories sum to its total; the points' totals sum to the events with parseable times. |
| AuditPaging.OrderIsTotal | apps/server/internal/api/audit_observability_handlers.go:1434-1447 | The list order is a total order without ties between different batches. |
| AuditPaging.CursorRoundTrip | apps/server/internal/api/audit_observability_handlers.go:1404-1413 | Reading back a written cursor gives its offset, for every offset below 2^63. |
| AuditPaging.TextWindowExactly | apps/server/internal/api/audit_observability_handlers.go:652-686 | The exact condition under which reading by text bounds reads an event exactly when its time lies in the window. |
| AuditPaging.LaterReadsTheSame | apps/server/internal/api/audit_observability_handlers.go:470-490 | What is stored beyond the snapshot's boundary changes nothing in what the snapshot reads. |
| AuditPaging.ListAttentions | apps/server/internal/api/audit_observability_handlers.go:192-244 | A request answers with the requested slice of the one sorted list of batches, its total and its next cursor, or with the refusal its filter, size, limit or cursor calls for, whatever order the map is iterated in; on a page batches with failures come first, then Critical before High before Normal, then the later, then the greater id. |
| AuditPaging.ListingIsUnique | apps/server/internal/api/audit_observability_handlers.go:207-213 | There is only one list of the batches in list order. |
| AuditPaging.GroupingIsUnique | apps/server/internal/api/audit_observability_handlers.go:854-872 | There is only one grouping of the events. |
| AuditPaging.FollowingCursorsListsEveryBatchOnce | apps/server/internal/api/audit_observability_handlers.go:192-244 | Following the cursors from the start, with any limits from 1 to 100, whatever is acknowledged or stored beyond the boundary in between, the pages together are exactly the list once the cursors end, and they end after fewer pages than batches. |
| AuditPaging.PagesListInOrder | apps/server/internal/api/audit_observability_handlers.go:1434-1447 | Across all pages along the cursors the batches come with failures first, then Critical before High before Normal, then the later latest time, then the greater id. |
| StorePaths.NormalizedTrims | packages/devmock/src/store.ts:947-949 | Normalising takes away the slashes at both ends, all of them, and nothing else. |
| StorePaths.BaseNameIsLastPart | packages/devmock/src/store.ts:1984-1984 | The base name is exactly the text behind the last slash. |
| StorePaths.MoveKeepsNames | packages/devmock/src/store.ts:1976-1985 | A move keeps the whole path below a directory target and the base name of a single file; an asset exactly at a directory target gets a path that ends in a slash. |
| StorePaths.PlanFollowsLastTarget | packages/devmock/src/store.ts:1971-1987 | A path selected by several targets goes where the last of them sends it. |
| StorePaths.ValuesCountIffInjective | packages/devmock/src/store.ts:1991-1994 | As many different replacement paths as replacements means that no two assets get one path, and conversely. |
| StorePaths.ReplacedDistinct | packages/devmock/src/store.ts:1988-2001 | A plan without clashes keeps the paths of the repository pairwise distinct. |
| StoreState.OperationsKeepPathsDistinct | packages/devmock/src/store.ts:1872-2033 | Raw upload and delete, bulk operations, clean-up and Maven upload keep every repository's paths pairwise distinct, and a refused one changes nothing. |
| StoreState.AcceptedOperationAffects | packages/devmock/src/store.ts:1923-2003 | An accepted move or rename keeps number, order, size, hash and content type, puts exactly the selected assets at their planned paths and leaves the others; an accepted delete removes exactly the selected ones; affected is their number; other repositories are untouched. |
| StoreState.AcceptedMoveKeepsNames | packages/devmock/src/store.ts:1971-2003 | An accepted move puts every selected asset under the destination: at its whole old path if the last target that selects it is a directory above it, else at its old base name. |
| StoreAnswers.DeleteAnswers | packages/devmock/src/store.ts:1923-1963 | What a bulk delete answers and leaves for all repositories and targets: refused in the order of the checks, a conflict exactly when some target names no asset; else exactly the assets named by a target, by their path or as a directory above them, are gone. |
| StoreAnswers.MoveAnswers | packages/devmock/src/store.ts:1964-2003 | What a move or rename answers and leaves: each asset named goes where the last target that names it sends it, written out by path, and the operation is a conflict exactly when some target names no asset or two assets would get one path. |
| StorePaths.FreeIfReplacedDistinct | packages/devmock/src/store.ts:1991-1996 | A plan that takes no two assets to one path passes the clash test. |
| StoreState.FolderIsBeforeLastSlash | packages/devmock/src/store.ts:2017-2020 | The version folder of a path is the text before its last slash, and there is none exactly when no slash lies beyond the first character. |
| StoreState.CleanupRemovesEmptyVersions | packages/devmock/src/store.ts:2006-2033 | Cleaning up removes exactly the assets of version folders without a jar, keeps the rest in order, and returns how many went. |
| StoreAnswers.CleanupAnswers | packages/devmock/src/store.ts:2006-2033 | What a clean-up answers and leaves, in terms of paths: an asset goes exactly when it is no metadata and the folder before its last slash holds no jar. |
| StoreState.PutThenDelete | packages/devmock/src/store.ts:1872-1920 | A raw upload leaves exactly its own asset at the normalised path and the others as they were, and deleting that path again leaves exactly the others in their order. |
| StoreAnswers.PutAnswers | packages/devmock/src/store.ts:1872-1899 | What a raw upload answers and leaves: refusals, and else the asset stored, with its path, size, type and hash, alone at its path. |
| StoreAnswers.RawDeleteAnswers | packages/devmock/src/store.ts:1901-1920 | What a raw delete answers and leaves: refusals, absent exactly when nothing is at the path, and else nothing there and all else in order. |
| StoreState.UploadAddsItsFiles | packages/devmock/src/store.ts:2214-2238 | A Maven upload leaves exactly the old paths and the uploaded ones, touches no other asset, and stores at each path exactly the last file uploaded there. |
| StoreAnswers.UploadAnswers | packages/devmock/src/store.ts:2214-2238 | What a Maven upload answers and leaves: refusals, and else the artifact, its project file and its metadata, each with both checksums, beside the old paths. |
| StoreRename.RenameRoundTrip | packages/devmock/src/store.ts:1955-2003 | Renaming src to dst and dst back to src, nested or not: both are accepted and every path is back in place if and only if no unselected asset is at or under dst and src is not both a file and a directory. |
| StoreDirectory.ListDirectory | packages/devmock/src/store.ts:1845-1869 | One level lists exactly the files directly at the prefix, sorted, and each next directory on the way to a deeper asset once, in ascending text order. |
| StoreDirectory.DirectoryOwnsItsPaths | packages/devmock/src/store.ts:1853-1861 | Below a listed directory lie exactly the assets that have it as their next directory, and the directory is longer than the prefix. |
| StoreDirectory.FileAtMeans | packages/devmock/src/store.ts:1853-1861 | A file of a level is the prefix and a name without a slash. |
| StoreDirectory.IsInMeans | packages/devmock/src/store.ts:1853-1861 | A path lies below a directory of a level exactly when the directory is the prefix, one part without a slash and a slash, and the path goes on from it. |
| StoreDirectory.FilesInOrder | packages/devmock/src/store.ts:1862-1869 | The files of a level come in the order of the locale. |
| StoreDirectory.Descend | packages/devmock/src/store.ts:1845-1869 | For arbitrary path strings, descending through the listed directories ends and meets every asset below the prefix exactly once. |
| StoreDirectory.DescendAll | packages/devmock/src/store.ts:1845-1869 | From the empty prefix that is every asset of the repository. |
| StoreVolumes.CloneNameIsInjective | packages/devmock/src/store.ts:1021-1021 | Clone names of different seeds or rounds differ. |
| StoreCollisions.VolumeHoldsClones | packages/devmock/src/store.ts:1004-1037 | A volume without collisions holds the seeds as they were and, for each round below the factor, a clone of every seed with its shifted id and with the assets, access entries and connection of its seed. |
| StoreVolumes.RecallRestoresIffNoCollision | packages/devmock/src/store.ts:1004-1037 | Materialising to any factor and going back to 1 restores repositories, assets, ACLs and statuses if and only if no repository and no map key has a clone's name. |
| StoreVolumes.VolumesForgetHistory | packages/devmock/src/store.ts:1004-1037 | Over any sequence of factors without such a collision the state is that of the last factor alone. |
| StoreCollisions.VolumeForgetsExactly | packages/devmock/src/store.ts:1004-1037 | Going to a factor f and then to another factor g equals going to g straight away if and only if no repository has the name of a clone of f, and every map entry under such a name is written again on the way to g: its round comes back and its seed has an entry. |
| StoreHistory.VolumesForgetClones | packages/devmock/src/store.ts:1004-1037 | With any asset requests on seeds and clones between the changes of volume, a change to another factor, or back to 1, gives the state that the requests on seeds alone and that change give, up to the count of operations. |
| StoreVolumes.VolumeNamesUniqueIffNoCollision | packages/devmock/src/store.ts:1018-1035 | Materialising unique names gives unique names if and only if no seed has a clone's name. |
| StoreRuns.StepKeepsValid | packages/devmock/src/store.ts:1004-2240 | Every request keeps the asset paths of every repository pairwise distinct, and a refused one changes nothing. |
| StoreRuns.ReachableStatesAreValid | packages/devmock/src/store.ts:1004-2240 | In every state that any run of requests reaches, each repository's asset paths are pairwise distinct. |
| StoreRuns.NothingDoomed | packages/devmock/src/store.ts:1789-1805 | Deleting a repository reports nothing deleted exactly when nothing has its name or the name of a clone of it, and then changes nothing. |
| StoreRuns.DeletingTakesOnlyOwnClones | packages/devmock/src/store.ts:1789-1805 | The deletion pattern matches a clone if and only if it is the deleted repository's own clone or the repository itself. |
| StoreRuns.DeletingAnswers | packages/devmock/src/store.ts:1789-1805 | Deleting a repository takes exactly the repositories with its name or that name, "-v" and digits, with all kept under their names, and is absent exactly when there is none. |
| StoreRuns.CreatingAnswers | packages/devmock/src/store.ts:1635-1665 | Creating a repository is refused exactly when one has the name, and otherwise adds it at the end under the next number. |
| StoreRuns.NamesStayUnique | packages/devmock/src/store.ts:1004-1037 | Unique repository names stay unique through a request if and only if it is not a change of volume that gives a clone the name of a repository that stays. |
| Store.PlanOperation | packages/devmock/src/store.ts:1931-1997 | Planning refuses for exactly the first reason the checks find, in their order, and otherwise returns the selection and the replacement paths. |
| Store.EmptyPaths | packages/devmock/src/store.ts:2014-2028 | Grouping by version folder and collecting folders without a jar gives exactly the paths the clean-up is specified to remove. |
| Store.ArtifactStore.PutRawAsset | packages/devmock/src/store.ts:1872-1901 | The new state and the answer are those of the specification the rows above are about. |
| Store.ArtifactStore.DeleteRawAsset | packages/devmock/src/store.ts:1904-1920 | As above, for deleting a raw asset. |
| Store.ArtifactStore.ApplyAssetOperation | packages/devmock/src/store.ts:1923-2003 | As above, for bulk delete, move and rename: planned first, committed in one assignment. |
| Store.ArtifactStore.CleanupEmptyMavenArtifacts | packages/devmock/src/store.ts:2006-2033 | As above, for the Maven clean-up. |
| Store.ArtifactStore.UploadMavenArtifact | packages/devmock/src/store.ts:2174-2240 | As above, for the Maven upload. |
| Store.ArtifactStore.DeleteRepository | packages/devmock/src/store.ts:1789-1805 | As above, for deleting a repository with its clones. |
| Store.ArtifactStore.ReconcileVolumeRepositories | packages/devmock/src/store.ts:1004-1037 | The recall loop and the two nested materialising loops leave exactly the specified volume state. |
| Store.ArtifactStore.Serve | packages/devmock/src/store.ts:1004-2240 | Any request changes the object exactly as its step, so every run of the object keeps paths distinct and refusals change nothing. |
| SearchCoordinates.PackageKeyIsInjective | packages/devmock/src/searchPackage.ts:255-255 | Two matches share a package key exactly when kind and coordinate agree. |
| SearchCoordinates.UploadIsFoundUnderItsCoordinates | packages/devmock/src/searchPackage.ts:118-133 | Every file a Maven upload puts into its version folder parses back to the uploaded group, artifact and version, for parts without slashes and a version that starts with a digit. |
| SearchCoordinates.MavenPathsWithVersion | packages/devmock/src/searchPackage.ts:118-133 | A path in a Maven repository belongs to a package exactly when it has four parts and the last but one starts with a digit; otherwise it stands for its repository. |
| SearchCoordinates.TarballIsFound | packages/devmock/src/searchPackage.ts:136-162 | An npm tarball of a package without a scope is found under its name and the version from its file name. |
| SearchCoordinates.ScopedPathIsFound | packages/devmock/src/searchPackage.ts:136-162 | An npm path with a scope is found under both names, with the next part as the version if it starts with a digit; so a scoped tarball is found without a version. |
| SearchCoordinates.OtherPathsAreFound | packages/devmock/src/searchPackage.ts:136-175 | Other npm paths are found under their name; a scope alone and paths in repositories of other formats stand for their repository. |
| SearchVersions.MatchPrecision | packages/devmock/src/searchPackage.ts:191-201 | The loop finds the best precision of any term, and none without a version. |
| SearchVersions.PrecisionWrittenOut | packages/devmock/src/searchPackage.ts:178-188 | Up to case, a term is exact when it is the version, prerelease when the version goes on from it with "-" or "+", and none exactly when it is empty or not contained. |
| SearchVersions.PrecisionFoldsCase | packages/devmock/src/searchPackage.ts:178-201 | Versions that differ only in case have one precision. |
| SearchVersions.MoreTermsNeverWorsen | packages/devmock/src/searchPackage.ts:191-201 | Adding terms never makes a version's precision worse. |
| SearchVersions.CompareVersionVectorDesc | packages/devmock/src/searchPackage.ts:204-223 | The zero-padded loop returns the difference at the first index where the vectors differ. |
| SearchVersions.VectorOfWritten | packages/devmock/src/searchPackage.ts:204-212 | The vector of a version written as numbers between dots, with any qualifier that is no number behind them, is those numbers. |
| SearchVersions.TiesAreTrailingZeros | packages/devmock/src/searchPackage.ts:214-223 | Two versions tie if and only if their vectors are equal up to trailing zeros. |
| SearchVersions.VectorOrderIsTotal | packages/devmock/src/searchPackage.ts:214-223 | The comparison is a total preorder and reversing its arguments reverses its sign. |
| SearchPackages.OrdersAreTotal | packages/devmock/src/searchPackage.ts:225-340 | The orders of files, of versions and of packages are total preorders, the last one although it skips vectors when nothing matches. |
| SearchPackages.BuildSearchPackages | packages/devmock/src/searchPackage.ts:246-326 | One package per key, of exactly the matches with that key, with its counts, latest time, repositories, versions and files, all lists sorted; the packages are sorted by relevance. |
| SearchOrder.ResultsInOrder | packages/devmock/src/searchPackage.ts:214-341 | Results come in their order on all three levels: packages by precision, then the greater top version if any matched, then the later time; versions by precision, then the greater; files by kind from jar to checksum; and no version of the best precision exceeds the top version. |
| SearchOrder.KindByName | packages/devmock/src/searchPackage.ts:82-108 | The kind of a file: by its ending, a jar by the markers in its name, an npm description by its depth, and the metadata of Maven by its name. |
| SearchPackages.FileCountsSumToMatches | packages/devmock/src/searchPackage.ts:252-275 | The file counts of all packages add up to the number of matches. |
| SearchPackages.VersionCountsSumToPackage | packages/devmock/src/searchPackage.ts:284-302 | The file counts of a package's versions add up to its own. |
| SearchPackages.PackagesIgnoreOrder | packages/devmock/src/searchPackage.ts:246-326 | Permuting the matches leaves each package's file count, version count, repositories, best precision and latest time, and each folded version's size, counts and multiset of files, unchanged. |
| SearchPackages.MembersShareThePrecision | packages/devmock/src/searchPackage.ts:284-296 | Every match folded into a version has the precision recorded for the version. |
| SearchPackages.TopVersionIsBest | packages/devmock/src/searchPackage.ts:306-322 | The best precision is the minimum over the versions and the version on top attains it. |
| SearchPackages.MoreTermsNeverWorsenPackage | packages/devmock/src/searchPackage.ts:317-321 | More terms never make the best precision of a package of the same matches worse. |
| MockObservability.SameKeySelectsTheSame | packages/devmock/src/observability.ts:381-442 | Two queries with one fingerprint select the same events if and only if every stored event that meets all they have in common lies in the last day where just one gives a lower bound, and before the present where just one gives an upper bound. |
| MockObservability.AcksKeepTheOrderOfBatches | packages/devmock/src/observability.ts:703-713 | Acknowledging moves no batch in a list of batches. |
| MockObservability.PreviewSumsUpItsMembers | packages/devmock/src/observability.ts:487-531 | A preview shows the greatest severity of its members, their common result or "mixed" when two differ, and successes and failures that are distinct members, all of them exactly when no other result occurs. |
| MockObservability.PreviewEnclosesItsMembers | packages/devmock/src/observability.ts:496-518 | A preview's first and latest times are the least and greatest of its members' times, and its primary event is a member that precedes every other. |
| MockOrder.EventsInOrder | packages/devmock/src/observability.ts:399-443 | The events of a query come with the latest first, and are exactly the selected ones. |
| MockOrder.ListedIffWanted | packages/devmock/src/observability.ts:399-443 | A list holds exactly the stored events that meet every condition its query sets, with the last day as the range when no bound is given. |
| MockOrder.BatchesInOrder | packages/devmock/src/observability.ts:481-627 | Batches come with failures first, then Critical before High before Normal, then the later; each counts its failed and successful members and what they affected, and its primary event comes first among its members in the same sense. |
| ObservabilityStore.SnapshotsAreIsolated | packages/devmock/src/observability.ts:648-722 | After a snapshot is issued, no interleaving of listings, acknowledgements and appended events changes the ids, totals or cursors of its event list or batch list; the ids are those recorded at issue. |
| MockOrder.ListingsIssueOneSnapshot | packages/devmock/src/observability.ts:648-722 | A listing under a snapshot changes nothing; one without issues exactly one snapshot, of the events it lists and under the next number. |
| ObservabilityStore.SnapshotReproducesItsListing | packages/devmock/src/observability.ts:538-550 | A listing under its snapshot is made of exactly the events that were listed when the snapshot was issued, after any later run. |
| ObservabilityStore.CursorsMeetEveryEventOnce | packages/devmock/src/observability.ts:444-456 | Following the cursors under one snapshot, with anything in between, meets each of its events exactly once in order and ends. |
| ObservabilityStore.RunKeeps | packages/devmock/src/observability.ts:538-550 | Over every run events are only appended, issued snapshots are never overwritten, and a first acknowledgement is never replaced. |
| ObservabilityStore.BatchesDoNotGrow | packages/devmock/src/observability.ts:822-844 | A batch that has members never gets more: appended events open batches of their own. |
| ObservabilityStore.NewlyAcknowledgedSumToSizeOrZero | packages/devmock/src/observability.ts:751-771 | The newly acknowledged counts a run returns for a batch add up to the batch's size if the run acknowledged it first and to zero otherwise. |
| MockOrder.AcknowledgeAnswers | packages/devmock/src/observability.ts:751-771 | Acknowledging a batch answers with its first acknowledgement and its size, all of it new exactly the first time; a batch without members, and the one that is always stale, are refused. |
| MockAuditStore.GroupByAttention | packages/devmock/src/observability.ts:703-709 | The loop groups the events of a list by batch, batches in order of their first event. |
| MockAuditStore.AuditStore.Events | packages/devmock/src/observability.ts:648-672 | State, page and staleness are those of the specification the rows above are about. |
| MockAuditStore.AuditStore.Attentions | packages/devmock/src/observability.ts:687-722 | As above, for the list of batches. |
| MockAuditStore.AuditStore.Acknowledge | packages/devmock/src/observability.ts:751-771 | As above, for acknowledging: the existing acknowledgement wins. |
| MockAuditStore.AuditStore.AppendNewRiskFixture | packages/devmock/src/observability.ts:822-844 | As above, for appending an event with ids of its own. |
| UploadSession.ReachableSessions | packages/devmock/src/msw.ts:3284-3420 | In every reachable session, however handlers overlap while they await bodies, the chunk list is strictly increasing, in range, and exactly the indices stored since the last abort. |
| UploadSession.CreateAnswers | packages/devmock/src/msw.ts:3254-3283 | A session is refused exactly for an empty name or no bytes, and otherwise new, with as many chunks of 8 MiB as the bytes need, the last not empty. |
| UploadSession.ChunksDependOnTheSetOnly | packages/devmock/src/msw.ts:3309-3314 | Two runs that stored the same indices have the same chunk list, whatever the order and the repeats. |
| UploadSession.RefusedCompleteReportsTheComplement | packages/devmock/src/msw.ts:3337-3349 | A complete on a session that is not aborted is refused if and only if an index is missing, reports exactly the missing indices in ascending order, and changes nothing. |
| UploadSession.CompletesShort | packages/devmock/src/msw.ts:3328-3420 | The property "chunks are 0 to n - 1 whenever completed" fails: a complete that was awaiting its body at an abort completes the session without a chunk. |
| UploadSession.CompletedStaysFull | packages/devmock/src/msw.ts:3284-3420 | A step keeps "completed means exactly the chunks 0 to n - 1" if and only if it does not end a complete while a chunk is missing. |
| UploadSession.CompletedSessionsAreFull | packages/devmock/src/msw.ts:3284-3420 | Over every run of a new session, completed means exactly the chunks 0 to n - 1 all the way through it if and only if no complete ends after an abort while an index was not stored since the last abort. |
| UploadSession.SoundUnlessAbortedWhileAwaited | packages/devmock/src/msw.ts:3328-3420 | Over every run, sessions that completed or are about to, with a complete awaiting its body, have all chunks all the way through it if and only if no abort comes while a complete awaits its body. |
| UploadSession.AbortFreezesIffNothingAwaited | packages/devmock/src/msw.ts:3407-3420 | An aborted session stays aborted and empty through everything that can follow if and only if no put and no complete was awaiting its body at the abort. |
| UploadSession.Thaws | packages/devmock/src/msw.ts:3407-3420 | Whenever a put or a complete was awaiting its body at the abort, it can end afterwards and revive the session. |
| UploadSession.HandlersApartAreSafe | packages/devmock/src/msw.ts:3284-3420 | While handlers do not overlap, over every run completed sessions have all chunks and aborted ones stay aborted and empty. |
| UploadSession.Upload.BeginPut | packages/devmock/src/msw.ts:3284-3300 | The checks of a put answer as specified: terminal states conflict, an index out of range or no integer is refused. |
| UploadSession.Upload.FinishPut | packages/devmock/src/msw.ts:3301-3315 | An empty or oversized body changes nothing; any other puts the index into the sorted list without repeats. |
| UploadSession.Upload.BeginComplete | packages/devmock/src/msw.ts:3337-3349 | The loop collects exactly the missing indices and refuses with them. |
| UploadSession.Upload.FinishComplete | packages/devmock/src/msw.ts:3350-3356 | The rest of a complete changes the status alone, whatever happened to the chunks while its body was awaited. |
| UploadSession.Upload.Cancel | packages/devmock/src/msw.ts:3407-3420 | An abort empties the list from any state, completed included. |
| TrendBuckets.TrendWindow | packages/devmock/src/msw.ts:292-315 | A window is refused exactly for a malformed or unpaired bound, a reversed or empty range, or one over 30 days; an accepted one is non-empty and at most 30 days long. |
| TrendBuckets.TrendWrittenOut | packages/devmock/src/msw.ts:292-343 | An accepted window is what was asked for, or the last day, and its buckets are minutes up to a day, hours up to seven days and days beyond. |
| TrendBuckets.DownloadTrendBuckets | packages/devmock/src/msw.ts:326-343 | The loop lists exactly the buckets the rows below are about. |
| TrendBuckets.BucketsCoverTheWindow | packages/devmock/src/msw.ts:326-343 | Buckets are contiguous and aligned to their step, every minute mark of the half-open window lies in exactly one, the first and the last hold a mark, and there is none if and only if the window has no mark. |
| TrendBuckets.AcceptedWindowsHaveFewBuckets | packages/devmock/src/msw.ts:292-343 | Every accepted window has at most 1440 buckets; at most 169 by hour and 31 by day. |

## Left out

- HTTP, authentication, JSON and command-line plumbing, wiring and the user interface: no algorithm to prove.
- Signing and encoding of snapshots and attention ids: signing is any injective function; parsing it back is not
  modelled.
- The SQL that reads events, beyond its conditions: the log is a sequence of the rows of this node in the order of the
  query. For the list's pages all filter conditions, and for the reload the conditions a restored filter drops (text
  search, method, action, email, client address, authentication source, acknowledgement), are an arbitrary predicate.
  Acknowledgements are a map.
- Go's time package beyond what it reads and writes as RFC 3339 text: years outside 0 to 9999, monotonic clock
  readings and comparison of times by location are not modelled.
- JavaScript details: texts are ordered by character, `localeCompare` is an arbitrary total preorder, `toLowerCase` an
  arbitrary function that keeps the empty text, numbers are integers, and keys inherited from object prototypes are
  not considered.
- AutoBackup.Heartbeat: the clock readings of one heartbeat are parameters; the scheduler that wakes the job and the
  backup itself are not modelled.
- AuditAttention.SummaryIgnoresOrder: leaves open who gave the first acknowledgement when several were given at the
  same earliest time, because the code keeps the first it meets.
- AuditAttention.ToApiAttention: the action, summary and target texts are taken from the primary event and are
  represented by it.
- AuditSummary.AuditSummary: the failure rate is a real number, without floating-point rounding; int64 overflow of the
  duration sum is not modelled.
- The time bound and filter parsing of audit requests, the single-event detail and its artificial range, and the
  notification centre: settled by reading one branch.
- Loading acknowledgements in the batch loop: the acknowledgements are given.
- StoreRename.RenameRoundTrip: about paths and contents; both renames set the time of change anew, so times do not
  come back.
- Renaming a repository in the mock store: it does not carry assets, ACLs or clone bookkeeping along, so no invariant
  covers it.
- The mock store's other state (users, tokens, policies, migrations), repository fields the operations do not read,
  and group and proxy behaviour.
- StoreRuns.NamesStayUnique: says when names clash; a repository created with the name of a future clone is the case
  it excludes.
- Parsing of search expressions, the filters of a search, its file-level sorting and its suggestions: the aggregation
  takes any list of matches.
- SearchPackages.PackagesIgnoreOrder: says nothing about the order of equally relevant packages or which spelling of a
  case-folded version is shown, which do follow the input order.
- ObservabilityStore.SnapshotsAreIsolated: about ids, totals and cursors; whether an event is shown as acknowledged
  does change.
- The figures of the mock overview other than its total, the category counts of a preview, the notification list of
  the mock, and its seed data; seeds are any events with distinct ids that do not anticipate the ids of appended
  events.
- UploadSession.Create: one session; the table of sessions, its ids and expiry, and the import record and backup entry
  a complete adds are not modelled, nor are sizes beyond exact floating-point division.
- TrendBuckets.TrendWindow: bounds are given as absent, malformed or a time in milliseconds; the date texts and the
  sine-wave values of the points are not modelled.
