# Verified models of the CRM's core

Dafny models of the parts of the application whose promises span several functions or many
processes, with proofs of those promises. Run `dafny verify dfyconfig.toml`.

| files | what they model |
|---|---|
| `Values`, `Query`, `Sorting`, `LocalEngine` | values, rows, filters, and executing a query over a list of rows: the reference semantics |
| `CapabilityShim`, `ShimExactness`, `ShimLimits` | pushing each stage of a query to a backend or emulating it, the chunked scan, and "the exact answer or a refusal" |
| `UnionProvider`, `UnionExactness`, `UnionLimits`, `KeyFilters` | one sorted, filtered, paginated result from several sources |
| `Aggregation`, `UnionAggregate`, `AggregateLimits` | grouping, and merging the sources' partial groups |
| `Jobs`, `JobProtocol`, `JobRuns`, `JobLimits` | the durable job queue: one worker's operations on the table, and any number of workers in time |
| `Grants`, `GrantCache`, `GrantCacheLimits` | access control from grants, and the grant table as several workers cache it |
| `Tasks`, `TaskRuns`, `TaskLimits` | who is told about a task, and when it is withdrawn |
| `Lockout` | account lockout and how slowly it lets passwords be guessed |
| `ModuleOrder` | loading modules in dependency order |
| `TreeTable`, `Csv` | the flattened-tree expander and the CSV reader of the web client |
| `Multipart`, `Like` | splitting an upload into parts, and escaping LIKE patterns |

What the source computes is a function or a datatype; what it changes step by step is a method,
in a class where the source changes an object's fields. A method's contract equates it with a
specification function, and the lemmas state what that function promises. Protocols (the job
queue, the grant cache, the task desk) are step systems: `Enabled` says when a step can happen,
`Apply` what it does, and the theorems are about every run.

Words used below: a *sound* state keeps the invariant of its step system; a row is *stamped*
when it carries its source's label; a *stale* read is one whose row has changed since.

## Where the code and its documentation differ

The models follow the code. In each case a lemma gives the exact condition or a concrete input.

- The shim refuses an incomplete load only if the backend reports a total and also that more
  rows follow (app/providers/shim.py:266-271). A backend that cuts pages short and counts
  nothing, or counts and tells more rows from the size of the page as REST backends without a
  cursor do (app/providers/rest.py:533), is answered from a part
  (`ShimExactness.GuardPassesOnlyWholeLoads`, `ShimLimits.TruncatedLoadServed`,
  `ShimLimits.CountedLoadServed`). A scan takes a page cut under one chunk for the end of the
  collection, and a pushed page is served as short as it comes
  (`ShimExactness.ScanReachesAllIff`, `ShimLimits.PushedWindowIff`). Exactly which backends are
  safe for every row set and query is `ShimLimits.SafeLimitIff`.
- A full last page can be served as not the last (`ShimExactness.HasMoreExactIff`,
  `ShimLimits.EndTakenForMore`): the shim guesses anew where the backend knew
  (app/providers/shim.py:245-252), and backends guess by size.
- The union's `has_more` can miss rows when totals are unknown (app/providers/union.py:337-339):
  exactly when one source alone has more than the window and every other source matches nothing
  (`UnionExactness.MergedPagesExact`, `UnionLimits.MoreRowsUnreported`).
- A prefixed union sorts the rewritten keys but asks its sources to sort the raw ones
  (`UnionLimits.PrefixedKeySortNotExact`; exactly then: `UnionLimits.OrderSurvivesIff`,
  `UnionAggregate.GroupingSurvivesIff`), so the union theorems exclude the key from sorts,
  filters and groupings there. A condition on the key (BETWEEN and the tests for a part or an
  end aside) is answered wrongly for some rows unless nothing can meet it
  (`KeyFilters.KeyFilterFaithfulIff`).
- A union's partial groups are merged by what stands under the group-by names
  (app/providers/union.py:387-392), and a measure may stand there: one measure is merged right if
  and only if its alias is no group-by field or it is the least or greatest of that very field
  (`AggregateLimits.MergeExactIff`; for the whole union `AggregateLimits.UnionGroupsExactIff`,
  `AggregateLimits.AliasClash`).
- The router compares source values by their text, the engine does not equate a boolean with
  text (`UnionExactness.RoutedAsMatchedIff`); a measure over the source column is computed
  before the column exists (`UnionAggregate.MeasureSurvivesIff`).
- Both conditional writes of the queue test the status only. A claim from an old read writes
  the attempt count it read (`JobLimits.StaleClaimsUnbounded`), a release from an old read can
  requeue a job under its handler (`JobLimits.LateReleaseTwoHandlers`,
  `JobRuns.LateReleaseSafeIff`), and so can a manual retry (`JobLimits.RetryTwoHandlers`,
  `JobRuns.RetrySafeIff`).
- A text condition without a value asks SQL for the text "None" and the local engine for the
  empty text (`Like.PatternAgreesIff`).
- A grant of the row scope "none" does not restrict writes (app/resources/rbac.py:436-439), so a
  further grant can (`Grants.RoleAddsOperationsIff`); a caller's first grant can hide a field
  (`Grants.FirstGrantHidesIff`); listing "own" rows compares text, writing them compares values
  (`Grants.OwnRowsListedAndWritten`).
- A notice is not stored for the person who created the task, so stored hand-overs can repeat
  (`TaskLimits.StoredRepeatsIff`), and an assignee called `*` passes for the announcement's mark
  (`TaskLimits.AssigningClearsIff`).
- A hidden row's toggle, pressed by a script, shows rows under a closed branch
  (`TreeTable.ToggleKeepsFaithfulIff`).

## Model

| member | source | states |
|---|---|---|
| `Values.KeyLessAsymmetric` | app/providers/local.py:182-227 | No two values are each less than the other under the sort key |
| `Values.KeyLessTransitive` | app/providers/local.py:182-227 | The sort key's order is transitive over booleans, numbers, text (case-blind) and nulls |
| `Values.KeyLessNegativelyTransitive` | app/providers/local.py:182-227 | Values the key cannot tell apart form classes, so the order is a strict weak order |
| `Values.FoldedIff` | app/providers/local.py:127-134 | Folding makes two texts one exactly when they differ in the case of letters alone |
| `Values.DigitsWrite` | app/providers/union.py:264-269 | The text of a number writes that number, in digits, without a leading zero |
| `Query.NothingOverlooked` | app/core/query.py:104-129 | Which operators a filter uses and which fields it mentions: those of its conditions, however deep |
| `Sorting.SortIsStable` | app/providers/local.py:235-245 | The sort is ordered by all keys and keeps every class of ties in its original order |
| `Sorting.StableSortUnique` | app/providers/local.py:235-245 | Only one sequence is a stable sort of given rows |
| `Sorting.PassesSortByAllKeys` | app/providers/local.py:235-245 | Sorting by one key at a time from the last to the first is the stable sort by all keys, the first deciding |
| `Sorting.ApplySort` | app/providers/local.py:235-245 | The loop of single-key passes returns the stable sort by all keys |
| `Sorting.SortPermutes` | app/providers/local.py:235-245 | Sorting loses and invents no row |
| `Sorting.OrderedMeansEveryPair` | app/providers/local.py:235-245 | In a sorted sequence every earlier row is at most every later one, not only its neighbour |
| `Sorting.NullsAtOneEnd` | app/providers/local.py:182-245 | Rows without a value stand last in ascending order and first in descending order |
| `Sorting.KeepCommutesWithSort` | app/providers/local.py:151-245 | Dropping rows by any test before or after the sort gives one result, so filtering and searching commute with it |
| `Sorting.MergePrefix` | app/providers/union.py:283-340 | The first n rows of a merge depend only on the first n rows of each side |
| `Sorting.SortConcat` | app/providers/union.py:318-324 | Sorting a concatenation is merging the sorted parts, the left part first among ties |
| `LocalEngine.EffectiveIsBoth` | app/core/query.py:198-201 | A row passes the effective filter exactly when it passes the user's filter and the caller's scope |
| `LocalEngine.DeniedTogether` | app/providers/local.py:137-148 | Denying alternatives is denying each of them, and denying a conjunction is denying one |
| `LocalEngine.OrderIsOne` | app/providers/local.py:93-227 | Filters and sorts agree on what is less: smaller numbers, texts without capitals by code point, False before True; nulls are below and above nothing; kinds of values stand together |
| `LocalEngine.WordsSplitAtBlanks` | app/providers/local.py:157-171 | The words of a text are those before any blank and those after it |
| `LocalEngine.WordInJoin` | app/providers/local.py:160-179 | A word never matches across two fields: it is in the joined text exactly when it is in one of the texts |
| `LocalEngine.SearchMeansEveryWordInSomeField` | app/providers/local.py:160-179 | A row is found exactly when every word typed is, up to case, in the text of at least one searched field that is present and not null; with no fields every row is found |
| `LocalEngine.StagesSplit` | app/providers/local.py:262-287 | Whichever stages are done early and whichever late, the rows are those of all stages in order |
| `LocalEngine.DenialsAgree` | app/providers/local.py:93-118 | A row without the field satisfies IS_NULL alone, not even NE; with it NE and NOT_IN deny EQ and IN |
| `LocalEngine.InIsSomeEqual` | app/providers/local.py:115-118 | IN is EQ to one of its values |
| `LocalEngine.OrderingsAgree` | app/providers/local.py:81-121 | On a value that is not null BETWEEN is GTE and LTE; where two values can be ordered GTE and LTE deny LT and GT; LT and GT never both hold |
| `LocalEngine.PagesTile` | app/providers/local.py:248-259 | Pages one after another neither repeat nor skip a row |
| `LocalEngine.MoreMeansNextPage` | app/providers/local.py:248-259 | A page says more follows exactly when the next one is not empty |
| `CapabilityShim.List` | app/providers/shim.py:87-130 | Deciding stage by stage, asking the backend and finishing locally yields the specified answer |
| `CapabilityShim.InnerPerformsPlan` | app/providers/shim.py:215-235 | A backend given the stripped query performs exactly the pushed stages, also one that ignores filters with an operator it did not declare |
| `CapabilityShim.ChunkIsNextRows` | app/providers/shim.py:174-181 | The k-th chunk of a scan is the k-th run of the rows a scan can reach |
| `CapabilityShim.Scan` | app/providers/shim.py:156-196 | The scan stops with the page settled, at the end of the collection or with the budget spent, holding exactly the local rows of what it read |
| `CapabilityShim.ScanStops` | app/providers/shim.py:198-213 | Where the scan stopped settles the answer the whole reachable collection would give |
| `CapabilityShim.Stream` | app/providers/shim.py:156-213 | The scan's page or refusal equals the closed form over the whole reachable collection |
| `ShimExactness.GuardPassesOnlyWholeLoads` | app/providers/shim.py:254-271 | The guard lets only complete loads through if and only if the backend has no hard limit, does not page, reports the cut (a total, and more rows whatever size was asked for), has a limit over the budget, or has no more rows than its limit |
| `ShimExactness.ShimExactOrRefused` | app/providers/shim.py:87-271 | For every row set, query and capability vector whose hard limit, if any, leaves this query whole or shows the cut: the exact page (items, total, no false end) or TooManyRows |
| `ShimExactness.HasMoreExactIff` | app/providers/shim.py:206-252 | Then has_more is exact too, if and only if the page was not pushed with more rows guessed from its size and the collection ending with it |
| `ShimExactness.ShimRefusesExactlyOverBudget` | app/providers/shim.py:156-271 | Without a hard limit the refusal happens exactly when the rows to load exceed the budget or the scan budget ran out with the page unsettled |
| `ShimExactness.AllThereAnswered` | app/providers/shim.py:90-117 | From the capabilities alone: a query the backend can page, sort, filter by every operator and search in exactly the resource's fields is answered, whatever its rows and budgets |
| `ShimExactness.RefusesIff` | app/providers/shim.py:87-271 | From the capabilities alone, without a hard limit: when exactly a query is refused, over the rows the backend leaves and those found here |
| `ShimExactness.TotalsIff` | app/providers/shim.py:87-252 | Likewise the total: none after a scan or of a backend that did it all and does not count, and else the true count |
| `ShimExactness.LoadedTotalsExact` | app/providers/shim.py:109-130 | On the load-and-finish path the total is the true count and has_more is exact |
| `ShimExactness.ScanReachesAllIff` | app/providers/shim.py:174-196 | A scan reaches every row if and only if there is no hard limit, it is a chunk at least, or the rows fit in it |
| `ShimLimits.SafeLimitIff` | app/providers/shim.py:87-271 | The shim's promise holds for every row set and every query if and only if the backend has no hard limit, does not page, or has a limit that no pushed page can meet, that is a chunk or the scan budget, and that is over the row budget or always reported |
| `ShimLimits.PushedWindowIff` | app/providers/shim.py:237-252 | A pushed query that selects any row is given the window it asks for, whatever the rows, if and only if the limit is no smaller than its page |
| `ShimLimits.TruncatedLoadServed` | app/providers/shim.py:254-271 | A limit and no totals: a cut load passes the guard (concrete input) |
| `ShimLimits.CountedLoadServed` | app/providers/rest.py:527-535 | A limit, totals, and more rows told from the page's size: a cut load passes the guard (concrete input) |
| `ShimLimits.UncountedLoadServed` | app/providers/sql.py:657-673 | The same with totals counted only on request (concrete input) |
| `ShimLimits.TruncatedScanServed` | app/providers/shim.py:195-196 | A limit under one chunk: the scan takes the first chunk for the last (concrete input) |
| `ShimLimits.TruncatedPageServed` | app/providers/shim.py:237-252 | A limit under the page size: a pushed page is served short (concrete input) |
| `ShimLimits.EndTakenForMore` | app/providers/sql.py:657-673 | A full last page is served as not the last (concrete input) |
| `UnionExactness.SplitRefusesExactly` | app/providers/union.py:222-254 | The split refuses exactly a source condition under OR or NOT or with an operator that does not name sources |
| `UnionExactness.SplitIsFaithful` | app/providers/union.py:222-269 | A stamped row passes the whole filter exactly when its source is allowed and the raw row passes the rest, which never mentions the source column |
| `UnionExactness.RoutedAsMatchedIff` | app/providers/union.py:205-220 | Routing `source = v` visits the matching sources exactly when v is not a boolean that reads like a label |
| `UnionProvider.List` | app/providers/union.py:283-340 | Routing, asking each source, stamping, sorting and slicing yields the specified answer |
| `UnionProvider.GatherAll` | app/providers/union.py:318-328 | The gathering loop stamps every page in source order and sums the totals if all are known |
| `UnionExactness.SourceShare` | app/providers/union.py:256-269 | A source's part of the reference collection is its own matching rows, stamped, or nothing when it is not routed |
| `UnionExactness.SortUnderStamp` | app/providers/union.py:300-304 | Within one source the source column is constant, so pushing the other keys sorts alike |
| `UnionExactness.GatheredPrefix` | app/providers/union.py:283-340 | The first offset + page_size rows gathered and sorted are those of all rows of all sources, ties included |
| `UnionExactness.MergedPagesExact` | app/providers/union.py:318-340 | From exact source pages the union's window, total and has_more are exact; without totals has_more is right if and only if no single source has more than the window while every other source matches nothing |
| `UnionExactness.UnionExactOrRefused` | app/providers/union.py:17-28 | Over any backends behind their shims the union serves the exact page of the stamped whole, or refuses |
| `UnionExactness.UnionRefusesExactly` | app/providers/union.py:283-316 | It refuses exactly for a misplaced source condition, a window over the row budget, or a routed source that refuses |
| `UnionExactness.UnionTotals` | app/providers/union.py:326-340 | A total is given if and only if every routed source's own answer gives one; it is the size of the whole, and has_more then tells exactly whether rows follow |
| `UnionExactness.UnionCounts` | app/providers/union.py:283-340 | Over backends without a hard limit that can count, a union asked for the total tells it |
| `UnionLimits.PrefixedKeySortNotExact` | app/providers/union.py:264-269 | With prefixed keys a sort by the key serves the wrong first page though every source is exact (concrete input) |
| `UnionLimits.OrderSurvivesIff` | app/providers/union.py:300-322 | Whatever the rows, a source's order is that of its stamped rows if and only if a prefixed key is not sorted by |
| `UnionLimits.MoreRowsUnreported` | app/providers/union.py:326-340 | Two rows in one source, a page for one and no totals: the page is served as the last (concrete input) |
| `UnionLimits.SafeSourcesExact` | app/providers/union.py:17-28 | Over sources with safe limits the union serves the exact page or refuses, whatever their rows |
| `KeyFilters.KeyFilterFaithfulIff` | app/providers/union.py:222-269 | With prefixed keys a condition on the key selects the same raw and stamped rows, whatever the rows, if and only if it is IN with no values or below the empty text (BETWEEN and the tests for a part or an end aside) |
| `KeyFilters.KeyEqualityUnfaithful` | app/providers/union.py:264-269 | Filtering a prefixed union on its key: for every value a row the source returns that the stamped row does not match |
| `Aggregation.RunAggregate` | app/providers/local.py:290-330 | The two loops compute the specified rows, or a type error for a sum over text |
| `Aggregation.AggregateRefusesIff` | app/providers/local.py:290-323 | It is a type error exactly when a row that passes the filter has text to be summed |
| `Aggregation.SameKeyIff` | app/providers/local.py:294-299 | Rows have one key exactly when they are equal, as Python compares, in every field grouped by; a missing value is a null |
| `Aggregation.ResultRow` | app/providers/local.py:301-323 | One row per key in order of first appearance: the key under its names, each measure over the rows with the key under its alias, the last of one name |
| `Aggregation.MeasureOfOneRow` | app/providers/local.py:303-323 | What one row contributes: one to a count, its own number, negative ones too, or its own value |
| `Aggregation.FinishKeepsFirst` | app/providers/local.py:326-330 | The first `limit` rows of any stable sort of the groups |
| `Aggregation.BucketsAreGroups` | app/providers/local.py:294-299 | Each group holds exactly the rows with its key in their order, no key has two groups, every row has one; True and 1 are one key |
| `Aggregation.BucketsInOrder` | app/providers/local.py:294-301 | Groups stand in order of first appearance |
| `Aggregation.ExtremesAreFirst` | app/providers/local.py:308-323 | MIN and MAX are the first of the least and of the greatest values of a group, and null only for a group without values |
| `Aggregation.ComputeConcat` | app/providers/union.py:407-424 | A measure over two halves of a group is the combination of the halves' measures, null halves and ties included |
| `Aggregation.CombineAssociative` | app/providers/union.py:407-424 | Folding partial rows is associative, so the grouping of sources does not matter |
| `Aggregation.EntriesMerge` | app/providers/union.py:381-399 | Aggregating two collections apart and merging is aggregating them together: same groups, order and measures |
| `Aggregation.InsertAllIsMerge` | app/providers/union.py:381-399 | The dictionary keeps each row under the key it was inserted with; where no alias changes a key that is folding each row into the one with its key |
| `UnionAggregate.ShimAggregateExact` | app/providers/shim.py:281-298 | An emulated aggregate is the real one over every row, or TooManyRows; and TooManyRows whenever more rows match than the budget |
| `UnionAggregate.ShimAggregateRefusesIff` | app/providers/shim.py:281-298 | Without a hard limit it is TooManyRows exactly when more rows match than the budget or pulling them is refused |
| `UnionAggregate.Aggregate` | app/providers/shim.py:281-298 | Pulling the filtered rows and grouping them yields the specified answer |
| `UnionAggregate.AggregateUnion` | app/providers/union.py:356-405 | Asking each source and folding its rows into the merged ones yields the specified answer |
| `UnionAggregate.MeasureSurvivesIff` | app/providers/union.py:264-269 | A measure is the same over raw and stamped rows, whatever the rows, if and only if it counts or reads neither the source column nor a rewritten key |
| `UnionAggregate.GroupingSurvivesIff` | app/providers/union.py:264-269 | Whatever the rows, raw rows fall into the groups of their stamped rows if and only if a prefixed key is not grouped by |
| `UnionAggregate.EntriesUnderStamp` | app/providers/union.py:368-399 | Grouping a source's own rows without the source column and labelling the groups is grouping its stamped rows |
| `UnionAggregate.MergedIsGrouped` | app/providers/union.py:381-399 | Folding the routed sources' answers one after another is grouping all their filtered rows |
| `UnionAggregate.UnionAggregateExact` | app/providers/union.py:356-405 | Before and after sort and limit, the union's groups are those of everything in it, stamped; or a refusal for too many rows or a misplaced source condition |
| `UnionAggregate.UnionAggregateRefusesExactly` | app/providers/union.py:356-405 | It refuses exactly for a misplaced source condition or a routed source that refuses |
| `AggregateLimits.MergeExactIff` | app/providers/union.py:381-424 | For one measure, merging what two collections computed is computing it over both, whatever their rows, if and only if its alias is no group-by field or it is the least or greatest of that very field |
| `AggregateLimits.UnionGroupsExactIff` | app/providers/union.py:356-405 | A union of any sources that group their own rows answers one measure right, whatever the rows, if and only if the same holds |
| `AggregateLimits.UnionMergesTwo` | app/providers/union.py:356-405 | Every other measure under a group-by field's name: a source with two groups of which the union answers one |
| `AggregateLimits.AliasClash` | app/providers/union.py:384-392 | A count under the name of its own group field: two sources with one group each, and one group answered (concrete input) |
| `Jobs.BackoffDoublesToCeiling` | app/jobs/base.py:89-96 | The wait starts at 30 s, doubles with every attempt, never shrinks and stays at an hour from the eighth |
| `Jobs.OutcomeMeans` | app/jobs/queue.py:326-405 | What the row becomes: done exactly when the handler finished or called it off, failed exactly when it raised or wanted a retry without attempts left, each stamped with its end; else queued for anybody, at once after a shutdown, after the delay asked for, or after the backoff; and what went wrong is noted |
| `Jobs.AbandonmentMeans` | app/jobs/queue.py:301-322 | An abandoned row is queued for anybody after the backoff exactly while it has attempts left, else failed and stamped; either way its last worker is named |
| `Jobs.RetryMeans` | app/jobs/queue.py:496-518 | A manual retry: due at once, held by nobody, not ended, with every attempt to spend, and else unchanged |
| `Jobs.Table.UpdateIf` | app/providers/memory.py:146-164 | Compare and set: written exactly when the row exists with the expected status, merging only the given columns |
| `Jobs.Queue.Enqueue` | app/jobs/queue.py:84-140 | A keyed job is accepted exactly when no queued or running one has its key, which keeps live keys unique; nothing else changes |
| `Jobs.Queue.Take` | app/jobs/queue.py:223-254 | Wins exactly a row still queued, and stamps it |
| `Jobs.Queue.Claim` | app/jobs/queue.py:204-221 | Of the jobs read, at most the limit, in page order, only handled kinds and only rows still queued; none handled and still queued is passed over; every other row stays |
| `Jobs.Queue.ClaimDue` | app/jobs/queue.py:177-221 | Read and taken with nobody in between: only queued jobs that are due and handled; none while one of higher priority, or of the same and due earlier, is left; fewer than the limit only when the page of max(2 * limit, limit + 4) is exhausted |
| `Jobs.ListInOrder` | app/jobs/queue.py:193-202 | The page read: as many as fit, each once, by priority from the highest and then by run time, and none behind one left out |
| `Jobs.Queue.ReleaseStale` | app/jobs/queue.py:280-299 | Of the rows read, exactly those still running are requeued or parked, by the attempts read |
| `Jobs.Queue.Recover` | app/jobs/queue.py:256-299 | Read and released with nobody in between: only rows whose claim outlived the lease, and all of them when they fit on the page of 200 |
| `Jobs.Queue.Record` | app/jobs/queue.py:326-415 | The outcome is merged into the row, whoever holds it |
| `Jobs.Queue.Retry` | app/jobs/queue.py:496-518 | The row is queued with its attempts reset |
| `Jobs.SweepKeepsKeysUnique` | app/jobs/queue.py:161-175 | Claims and releases keep idempotency keys unique among live jobs |
| `Jobs.RetryKeepsKeysIff` | app/jobs/queue.py:496-518 | A retry keeps them unique if and only if no other live job has the key |
| `JobProtocol.StepKeepsSound` | app/jobs/queue.py:223-415 | Every step (reads that go stale, claims, starts, endings, lost writes, crashes, releases, retries, time) keeps: one holder a job, holder = claimant, attempts within the limit |
| `JobRuns.OneLiveHolderEver` | app/jobs/queue.py:177-415 | With a lease no shorter than start delay + timeout + outcome write, over all runs two live workers never hold one job, the holder is the row's claimant, and QUEUED implies attempts under the limit |
| `JobRuns.FinishedRowStaysForGood` | app/jobs/queue.py:398-405 | A done or failed row never changes without a manual retry |
| `JobRuns.RunKeepsShaped` | app/jobs/queue.py:223-415 | Queued rows have no claimant and no end, running ones a claimant and claim time, finished ones ended after they were claimed |
| `JobRuns.StepSpendsBudget` | app/jobs/queue.py:223-254 | With the claim's read and write in one step, 2 * (limit - attempts) + [running] falls by exactly one on every claim, reschedule, release and finish |
| `JobRuns.ClaimSpendsOneIff` | app/jobs/queue.py:223-254 | A claim spends exactly one if and only if the attempts it read are the row's |
| `JobRuns.StartsAtMostAttemptsLeft` | app/jobs/queue.py:223-254 | Then, without a manual retry, a job's handler starts at most as often as it has attempts left, and its row is written at most twice as often |
| `JobRuns.RetrySoundIff` | app/jobs/queue.py:496-518 | A manual retry keeps the protocol sound if and only if no live worker holds the job |
| `JobRuns.RetrySafeIff` | app/jobs/queue.py:496-518 | From the row alone: a retry is safe in every sound protocol with this row if and only if it is not running or its claim is older than start delay + timeout + outcome write |
| `JobRuns.LateReleaseSoundIff` | app/jobs/queue.py:256-299 | A release written from a row read earlier keeps it sound if and only if nobody holds the job by now and it is not requeued with its attempts spent |
| `JobRuns.LateReleaseSafeIff` | app/jobs/queue.py:256-299 | From the running row alone: the late write is safe in every sound protocol with this row if and only if its claim is older than a worker can be at it and it is not requeued with its attempts spent |
| `JobLimits.StaleClaimsUnbounded` | app/jobs/queue.py:223-254 | With claims made from old reads a job limited to two attempts can be started n times, for every n |
| `JobLimits.LateReleaseTwoHandlers` | app/jobs/queue.py:256-299 | A run in which a late release puts two handlers on one job |
| `JobLimits.RetryTwoHandlers` | app/jobs/queue.py:496-518 | A run in which a manual retry of a running job puts two handlers on it |
| `JobLimits.DueJobCanFinish` | app/jobs/queue.py:177-254 | From every state a due job can at once be read, claimed, run and recorded as done, whatever other workers are at |
| `JobLimits.AbandonedJobReturns` | app/jobs/queue.py:256-299 | A job whose worker is gone can be queued again, or failed without attempts left, once its lease is over |
| `Grants.ForIdentity` | app/resources/rbac.py:121-133 | Walking the caller's roles finds exactly the grants of those roles on the resource or on any |
| `Grants.WidestIsMaximum` | app/resources/rbac.py:434-437 | The widest scope is one of the allowing grants' scopes, and none of theirs is wider |
| `Grants.AllowsIff` | app/resources/rbac.py:404-449 | Grant by grant, for callers without a bypassing role under a configured table: an operation is allowed exactly when signed in, granted, on an own record where only own rows are granted, and within the base in narrow-only mode |
| `Grants.SeesIff` | app/resources/rbac.py:451-483 | Likewise the rows listed: a reading grant for all rows, or for own rows and the row is the caller's; within the base in narrow-only mode |
| `Grants.FieldsIff` | app/resources/rbac.py:490-531 | Likewise the fields shown and written: not kept from the caller, not fixed, and not hidden or read-only by every grant |
| `Grants.BypassIff` | app/resources/rbac.py:404-483 | A bypassing role is held back by the base policy alone, in narrow-only mode, and never from reading |
| `Grants.RoleAddsOperationsIff` | app/resources/rbac.py:404-449 | Under a configured table in the default mode, gaining roles costs no operation on any record if and only if it is not a write whose widest scope turns from none into own |
| `Grants.RoleAddsOperations` | app/resources/rbac.py:404-449 | With scopes own and all alone, gaining a role never removes an operation |
| `Grants.RoleAddsRows` | app/resources/rbac.py:451-483 | Nor a visible row, whatever the scopes |
| `Grants.RoleAddsFields` | app/resources/rbac.py:490-531 | Nor, for a caller holding a grant, a readable or writable field |
| `Grants.FirstGrantHidesIff` | app/resources/rbac.py:513-522 | A caller's first grants take a field away if and only if all of them hide it |
| `Grants.NarrowOnlyStaysWithinBase` | app/resources/rbac.py:341-355 | In narrow-only mode, for every table and caller, writes, rows and fields stay within the base policy |
| `Grants.OwnRowsListedAndWritten` | app/resources/rbac.py:482-488 | A row the own-rows write check lets through is listed; a listed one can be written exactly when its owner is stored as text |
| `Grants.UnconfiguredIsBase` | app/resources/rbac.py:384-393 | For a signed-in caller without a bypassing role, an empty table leaves the base policy's operations and rows as they were |
| `GrantCache.StepKeepsSound` | app/resources/rbac.py:184-277 | Every step of any workers, edits, invalidations, failures and the expiring shared cache keeps: each copy was the database's content at its instant and is not too old |
| `GrantCache.AnswersAreRecent` | app/resources/rbac.py:143-167 | Over every run an answer is the table as it was no more than ttl + min(ttl, 2 s) + one load + one cache reply ago; ttl + one load without a shared cache |
| `GrantCacheLimits.AgeIsReached` | app/resources/rbac.py:143-277 | The bound is sharp: a run with an answer two milliseconds short of it, and no younger |
| `GrantCache.ReloadsAreApart` | app/resources/rbac.py:221-251 | Undisturbed, a worker's reloads are a whole lifetime of its copy apart, however many callers wait on an expired one |
| `GrantCache.ReloadsBounded` | app/resources/rbac.py:221-251 | So a stretch shorter than n lifetimes sees at most n of them |
| `TreeTable.Table.ToggleBranch` | app/static/crm.js:78-103 | The walk over following rows computes the specified view: closing hides the branch, opening shows what no closed branch inside it hides |
| `TreeTable.PassedOverIff` | app/static/crm.js:89-102 | The one remembered depth decides rightly: a row is passed over exactly when some branch inside the opened one is closed above it |
| `TreeTable.ToggleKeepsFaithfulIff` | app/static/crm.js:78-103 | A click keeps `shown = all ancestors expanded` if and only if the row is shown, was expanded, or has no branch |
| `TreeTable.ClicksKeepFaithful` | app/static/crm.js:78-103 | After any clicks on shown rows, over rows of any depths, a row is shown exactly when all its ancestors are expanded |
| `TreeTable.CloseAndReopen` | app/static/crm.js:63-76 | Closing a branch and opening it again gives back exactly what was shown |
| `Csv.ParseCsv` | app/static/crm.js:513-538 | The index loop reads the text as the specified reader does |
| `Csv.ReadInvertsWrite` | app/static/crm.js:510-538 | Every rendering of a grid by RFC 4180, section 2 (any quoting, LF or CRLF line by line, with or without a last break) parses back to the grid minus all-blank rows |
| `ModuleOrder.Resolver.Visit` | app/core/modules.py:133-151 | A visit ends with the module ordered after all it needs, or with a failure that is true of the graph; it always ends |
| `ModuleOrder.ResolveOrder` | app/core/modules.py:122-156 | Succeeds if and only if nothing is missing and there is no cycle; then every module stands once, after its dependencies; a failure names a real cycle or a real gap |
| `ModuleOrder.OrderExcludesFailures` | app/core/modules.py:122-156 | Where such an order exists nothing is missing and there is no cycle |
| `ModuleOrder.PullInDependencies` | app/core/modules.py:297-315 | The result is the least dependency-closed set around the selection; it fails exactly when that set needs a module that was not found |
| `ModuleOrder.OrderSelected` | app/core/modules.py:265-315 | Ordering what was pulled in never reports a missing module |
| `Tasks.StripTwice` | app/tasks.py:97-102 | Comparing trimmed names: trimming again changes nothing |
| `Tasks.StripMeans` | app/tasks.py:97-102 | Trimming takes the blanks off both ends and nothing else |
| `Tasks.Office.WithdrawAnnouncement` | app/tasks.py:144-170 | Marks up to one page of the task's unread announcements read |
| `TaskRuns.WithdrawnExactly` | app/tasks.py:144-170 | Note by note: the first page of the task's unread announcements is marked read, and nothing else changes |
| `Tasks.Office.Announce` | app/tasks.py:403-435 | Settling a task changes the tables as specified |
| `Tasks.Office.Sweep` | app/tasks.py:280-337 | The sweep's loop changes the tables as the specified turns do, one task after another |
| `TaskRuns.SettleKeepsSound` | app/tasks.py:403-435 | Settling keeps the books in order and leaves no unread announcement of a closed or owned task; other tasks' notices are untouched |
| `TaskRuns.SettleTwice` | app/tasks.py:356-360 | Settling a settled task changes and sends nothing |
| `TaskRuns.SettleTells` | app/tasks.py:403-435 | Settling tells exactly a new owner of an open task, or everybody of an open task nobody owns and nothing was said about; never its creator; and writes down who was told |
| `TaskRuns.SweepWarns` | app/tasks.py:173-337 | A sweep warns exactly of a due task not warned of before, its owner or else the watchers, each once, and notes it |
| `TaskRuns.SweepTells` | app/tasks.py:280-313 | A sweep tells exactly a new owner, whoever wrote it there, writes it down, and takes the announcement off every bell |
| `TaskRuns.StepKeepsSound` | app/tasks.py:280-435 | Every create, change, change behind the provider, reopening, dismissal and sweep turn keeps the books in order |
| `TaskRuns.ToldOnce` | app/tasks.py:97-337 | Over every run: unread announcements only under the mark; consecutive hand-over notices to different people; stored ones are those not to the creator; due batches at most one more than reopenings |
| `TaskRuns.AnnouncementsOnlyOfFreeTasks` | app/tasks.py:345-360 | Where every write goes through the provider, an unread announcement is only ever of an open task nobody owns |
| `TaskLimits.AssigningClearsIff` | app/tasks.py:412-421 | Assigning an announced task clears every bell if and only if the assignee is not called `*` and one page holds the unread announcements |
| `TaskLimits.StoredRepeatsIff` | app/notify/service.py:72-76 | Stored hand-over notices name one person twice running if and only if the task went from that person to its creator and back |
| `TaskLimits.CreatorInBetween` | app/notify/service.py:72-76 | A run where that happens |
| `Lockout.Account.Login` | app/auth/local.py:125-207 | A locked account is refused unexamined and unchanged; a wrong password counts; a right one clears the counters |
| `Lockout.LocksExactlyAtLimit` | app/auth/passwords.py:223-240 | From a cleared row the counter is the number of failures since the last gap over the window, and the account is locked exactly when they are max_attempts or more, until exactly one lock after the last |
| `Lockout.ManyGuessesTakeTime` | app/auth/passwords.py:223-240 | From any counters, max_attempts + 1 verified failing guesses span at least the shorter of lock and window |
| `Lockout.GuessesBounded` | app/auth/passwords.py:203-240 | A stretch T admits at most max_attempts * (T / min(lock, window) + 1) of them |
| `Lockout.LockedGuessesApart` | app/auth/passwords.py:228-240 | Once locked, and without an idle gap over the window, later guesses are at least one lock apart |
| `Lockout.SparseFailuresNeverLock` | app/auth/passwords.py:216-236 | Failures each more than the window after the one before never accumulate a lock, however many |
| `Multipart.Write` | app/storage/s3.py:111-168 | One body with the whole stream exactly when it is no longer than the threshold, else the stream cut at every threshold and numbered from one, however it was chunked; never holding more than a threshold and a chunk |
| `Multipart.FlushAll` | app/storage/s3.py:147-166 | The parts after the last flush are the cut of everything that arrived |
| `Multipart.CutIsExact` | app/storage/s3.py:147-166 | The pieces join to the stream, all but the last are exactly the threshold, and the last is neither empty nor longer |
| `Multipart.CutIsUnique` | app/storage/s3.py:147-166 | No other pieces have these properties |
| `Like.ChainedIsPerCharacter` | app/providers/sql.py:469-475 | The three chained replacements escape character by character |
| `Like.EscapedParses` | app/providers/sql.py:469-475 | An escaped value is a well-formed pattern of its own characters, whatever follows |
| `Like.PatternMeans` | app/providers/sql.py:348-355 | Under the LIKE predicate the three patterns match exactly the texts that contain, start with or end with the value |
| `Like.PatternIsLocalMatch` | app/providers/local.py:127-134 | On a text column they agree with the local engine, the case-blind ones up to case |
| `Like.PatternAgreesIff` | app/providers/sql.py:348-375 | They agree on all texts if and only if the search value is not null: the database then looks for the text None, the local engine for the empty one |

## Left out

- Case folding is ASCII only, and text is compared by code point.
- Values are null, booleans, integers and text; dates, decimals and floats, and with them AVG and its row-merging fallback (app/providers/union.py:426-443), are not modelled.
- The query layer assumes sources sort as the local engine does: SQL sources put nulls last in descending order (app/providers/sql.py:508-519), the local engine first.
- SQL filters other than the LIKE patterns: under NE, NOT IN, NOT and BETWEEN they treat nulls differently from the local engine, and so does LIKE on a null column.
- A BETWEEN condition without exactly two bounds matches nothing, where the source raises.
- Queries carry no chosen fields or cursor, and providers no `get`, writes, warming or health.
- A backend that claims no paging is taken to hand over everything it was asked for; a service that cuts such answers short is not honest about its capabilities.
- The union asks its sources one after another; asked concurrently, another source's refusal may be the one reported.
- UnionExactness.UnionExactOrRefused: requires source values that are not booleans reading like a label and, with prefixed keys, filters and sorts without the key, and sources whose hard page limits do not cut the query short unseen, because the union is not exact there (`UnionExactness.RoutedAsMatchedIff`, `KeyFilters.KeyFilterFaithfulIff`, `UnionLimits.OrderSurvivesIff`, `ShimLimits.SafeLimitIff`).
- UnionAggregate.UnionAggregateExact: requires measures that leave the stamped columns alone, and that an alias that is a group-by field is the least or greatest of that field, because merged measures are overwritten or read before stamping there (`UnionAggregate.MeasureSurvivesIff`, `AggregateLimits.UnionGroupsExactIff`); for several measures at once the alias condition is sufficient only.
- AggregateLimits.UnionGroupsExactIff: supposes a measure that leaves the stamped columns alone and no grouping by a prefixed key, which have their own conditions (`UnionAggregate.MeasureSurvivesIff`, `UnionAggregate.GroupingSurvivesIff`).
- KeyFilters.KeyFilterFaithfulIff: leaves aside BETWEEN, CONTAINS, ICONTAINS and ENDSWITH, where it depends on the label and the texts asked for.
- Aggregation.EntriesMerge: requires that an alias that is a group-by field is the least or greatest of that field, because otherwise partial rows lose their key (`AggregateLimits.MergeExactIff`).
- UnionExactness.SplitIsFaithful: requires filters that leave a prefixed key alone and source values that are not booleans reading like a label, because it is false there (`KeyFilters.KeyFilterFaithfulIff`, `UnionExactness.RoutedAsMatchedIff`).
- Like.PatternIsLocalMatch: requires a value that is not null, because it is false of one (`Like.PatternAgreesIff`).
- ShimExactness.ShimExactOrRefused: requires that a backend's hard page limit does not cut this query short unseen, because the shim cannot see it; over all queries the condition is exact (`ShimLimits.SafeLimitIff`).
- Jobs.Queue.Claim: takes the page read as a parameter, because other workers may write between the read and the claim; `Jobs.Queue.ClaimDue` reads it. Each call takes one clock reading.
- Jobs.Queue.ReleaseStale: likewise; `Jobs.Queue.Recover` reads the page, in some order, as the source gives none.
- Claiming through providers without a conditional write, jobs whose handler disappears after the claim, and deleting job rows.
- Enqueueing checks the key and creates the row in one step; two processes doing so at once can create two.
- Of progress only that it is possible (`JobLimits.DueJobCanFinish`, `JobLimits.AbandonedJobReturns`): a release happens only when a worker starts, and unhandled kinds can fill the claim page.
- Workers' clocks agree, and a handler stops when its timeout cancels it.
- JobRuns.OneLiveHolderEver: a release reads and writes one row in one step, and retries are of finished jobs, because otherwise it is false (`JobLimits.LateReleaseTwoHandlers`, `JobRuns.RetrySoundIff`).
- JobRuns.StartsAtMostAttemptsLeft: claims read and write in one step, because otherwise there is no bound (`JobLimits.StaleClaimsUnbounded`).
- Grants.SeesIff: leaves aside rows that carry the deny filter's own marker, as Grants.RoleAddsRows does.
- Grants.RoleAddsRows: leaves aside rows that carry the deny filter's own marker in a field named `1`, which that filter matches.
- Grants.UnconfiguredIsBase: speaks of signed-in callers without a bypassing role, because the others never reach the base policy.
- GrantCache.ReloadsAreApart: speaks of stretches without an invalidation or a failed load in that worker, because either starts a new reload at once.
- Parsing grant rows (flags, scopes, field lists); a grant is what parsing yields.
- The grant cache reads the first 500 grants as the source does; a table of more is answered with its first page.
- Reannouncing reopened tasks: the mark stays after closing, so only the one-way promise is stated.
- TaskRuns.ToldOnce: steps are atomic, writes do not fail and no list of people is longer than the page a withdrawal reads.
- What a notification says and how it is delivered; the sweep's due-date check of values that are no instants.
- Concurrent sign-ins, which read and write the counters separately; password rules and hashing.
- Modules are visited in any starting order; the source takes them by name.
- Rows a tree loads on its first opening, and the toggle's text.
- Lone carriage returns as line breaks, and quotes in the middle of a bare field, which the reader accepts and RFC 4180 does not write.
- Failed uploads and the tidying after them.
- HTTP, mail, queues, storage and cache servers, templates, routes, commands and logging.
