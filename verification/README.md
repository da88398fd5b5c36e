# A verified model of the Metaxy pool engine

Metaxy keeps a pool of HTTP proxies. It probes every member in periodic sweeps, stores the
checks, scores the members, prefers one of them, and forwards client connections to the
healthy ones. This project models that engine in Dafny and proves what it promises over whole
runs: why and how often the preferred member changes, that the two check stores show the same
data, that the egress probe cannot be noticed by the pool, and what the feeder does with
permits, members and bytes.

Run `dafny verify dfyconfig.toml` to check everything.

## How it is laid out

| Part | Modules |
|---|---|
| Shared vocabulary: list comprehensions, the stable sort | `Prelude`, `Sorting`, `Bytes` |
| Health, score and choice, and the pool that combines them | `Streak`, `Score`, `Selection`, `SelectionRuns`, `PoolStates`, `Pools`, `FlapBudget` |
| Windows, and the in-memory and the SQLite store | `Checks`, `Windows`, `Stores`, `History`, `Listings`, `MemoryStore`, `SqlStore`, `ReadStatus` |
| The sweep and the egress probe | `Sweeps`, `Undisturbed`, `SystemRuns`, `ProbeAll`, `Services` |
| The feeder | `Pressure`, `Feeder`, `StaleDials`, `HeadReader`, `Forwarding`, `Tunnelling` |
| The inventory | `Inventory` |

Whatever the program changes in place is a class or a method with loops here (`Pool`,
`MemberState`, both stores, `PressureGuard`, the use cases, the single-pass counter, the head
reader, the relay, the inventory loop), proved against a specification function; the lemmas are
about those functions and their runs. What runs concurrently (sweep and egress, the probes of a
sweep, the client handlers) is a step machine in which every await is a point where another
coroutine may run. `Undisturbed.UndisturbedSweep` ties the sweep's step machine to the sweep's
methods, and the feeder's machine runs the sweep's machine inside it, so that what a client sees
of the pool is what sweeps made of it (`Feeder.ClientsUnseen`).

## Where the code and its documentation differ

* docs/domain.md:32 says that preference moves when another member leads for N consecutive
  sweeps. The code asks for the *same* member at the top on all of them
  (src/core/domain/selection.py:86). `SelectionRuns.ExactSwitchLaw` is the rule the code follows.
  With a positive margin it is the documented one on all runs if and only if the hold is one sweep
  (`SelectionRuns.DocumentedIff`); on scores in [0, 1] a margin above 1 will do too
  (`SelectionRuns.DocumentedInUnitIff`). `SelectionRuns.RivalsNeverWin` has the runs that differ:
  two rivals, both ahead of the incumbent on every sweep, take turns at the top, and the incumbent
  stays.
* docs/domain.md:57 says that the feeder does not dial a member that is not currently healthy.
  The list is read once and the walk awaits between attempts, so the promise holds on all runs if
  and only if no request can dial twice: `max_failover <= 1`, or at most one member, or nobody is
  admitted (`StaleDials.CurrentlyHealthyIff`). What always holds is that every dialled member was
  healthy when the request was read, and that the first is the preferred one
  (`Feeder.FailoverWalk`).
* The two stores are meant to answer alike. Their rollups agree on every run if and only if the
  window that is read fits into the retention (`Stores.StoresAgreeIff`); otherwise SQLite can
  show a bucket whose rows were pruned and which memory forgets. The detail of a member, which
  reads 7 days, is the same from both in every run of the system if and only if 7 days are retained
  (`ReadStatus.DetailAgreesIff`), and a day is the sum of its hours if and only if 2 are
  (`ReadStatus.HoursMatchIff`). Histories agree unless the limit is negative
  (`History.HistoriesAgree`).
* Python and SQLite name the same bucket except for fractional instants before the epoch in the
  last second of a bucket (`Windows.BucketsAgreeIff`).
* The head limit of 65536 bytes depends on how the stream is cut: a head is accepted if and only
  if some read ends between its end and the limit (`HeadReader.AcceptedIff`). Every head that ends
  1023 bytes short of the limit is, and none beyond it (`HeadReader.ChunkingRobust`); in between
  both happen (`HeadReader.BoundIsTight`).
* A tunnel drops what arrives in the same read as the end of either head, the client's or the
  upstream's. A direction delivers exactly what followed the head if and only if its stream was cut
  there (`Tunnelling.TunnelLosslessIff`), whereas forwarding keeps everything
  (`Forwarding.ServeForward`).
* A client that closes its sending side may lose any part of the answer that is still under way,
  since the end of one direction closes the other's source (`Forwarding.HalfCloseOutcomes`).

## Assumptions

* Floats are exact reals. Instants are epoch seconds.
* Buckets are numbers of UTC days and hours. Their zero-padded names sort as the numbers do.
  Instants so close below a bucket's end that `datetime` rounds them up are excluded.
* A store operation is atomic. The agreement of the stores is about runs that rebuild one series,
  as the program does; the rollup tables have no column for the series.
* The comparison of the stores and the coherence of the pool with its log assume that no check is
  dated before the epoch and that the clock does not go back.
* Probe outcomes, clock and memory readings, the behaviour of upstreams and the way streams are
  cut into reads are inputs, and every theorem is about all of them.
* One sweep and one egress probe run at a time, as the worker starts them
  (src/tasks/worker.py:12-13).

## Model

| member | source | states |
|---|---|---|
| Prelude.NameLeIff | src/core/domain/selection.py:68 | Ids are compared as in a dictionary: the smaller one begins the other or has the smaller character where they first differ |
| Selection.TopIsTop | src/core/domain/selection.py:63-78 | The first of the sorted healthy members precedes every healthy member, and there is none exactly when nobody is healthy |
| Selection.TopIsBest | src/core/domain/selection.py:64-70 | No healthy member has a higher score than the top one, at the same score none a lower latency, where a missing one counts as 1e18, and at the same latency none a smaller id |
| Selection.TopUnique | src/core/domain/selection.py:64-70 | With distinct ids the head of the ranking is the only healthy member that none precedes |
| Selection.StandingHealthy | src/core/domain/selection.py:63 | The standing a choice depends on holds exactly the healthy members |
| Selection.StandingValid | src/core/domain/selection.py:63-79 | The standing's top member is one of its healthy members and the best of them |
| Selection.ChoiceFollowsRule | src/core/domain/selection.py:58-90 | Sorting and searching the list decide as the rule on standings does: follow the top, hold the incumbent, or count a lead that lasts |
| Selection.ChoiceIgnoresOrder | src/core/domain/selection.py:58-102 | With distinct ids the choice, the feeder's order and the listing do not depend on the order of the members |
| Selection.HealthyOrderPermutes | src/core/domain/selection.py:93-102 | The feeder's list holds the id of each healthy member exactly once and no other |
| Selection.PreferredHeadsFeederList | docs/domain.md:34 | A healthy preferred member comes first in the feeder's list |
| Selection.FeederListByScore | docs/domain.md:34 | Behind the preferred member the feeder's list goes by descending score, and by id among equal scores |
| Selection.ListingByScore | src/api/handlers.py:91 | The listing has every row once, preferred rows first, then healthy ones, each part by descending score and by id among equal scores |
| Selection.ListingStartsWithFeederList | src/api/handlers.py:90-91 | If the preferred member is healthy or absent, the listing is the feeder's list followed by the unhealthy rows, although the sorts use different keys |
| Selection.OrdersFit | src/api/handlers.py:91 | The listing and the feeder's list agree whenever the preferred member is healthy and is absent only if nobody is healthy |
| SelectionRuns.LeadRunIsMaximalSuffix | docs/domain.md:32 | The lead run of b covers the last k sweeps exactly when b headed the ranking and led the healthy incumbent by the margin on each of them |
| SelectionRuns.ChoiceIsSound | src/core/domain/selection.py:71-90 | After a choice somebody healthy is preferred unless nobody is healthy, and a pending member leads it for at least one and fewer than hold sweeps |
| SelectionRuns.KeptWithoutLead | docs/domain.md:56 | With a margin, a healthy incumbent that is at the top, or behind it by less than the margin, stays preferred with nothing pending |
| SelectionRuns.SmallLeadKeepsPreferred | docs/domain.md:56 | On the members themselves: a healthy incumbent that nobody healthy leads by the margin stays preferred, and a pending count is reset |
| SelectionRuns.TopWithoutIncumbent | src/core/domain/selection.py:82-83 | Without a margin, or without a healthy incumbent, the top member is preferred at once |
| SelectionRuns.PreferredIsNearlyBest | docs/domain.md:56 | After every sweep the top score exceeds the preferred one's by less than the margin unless the top member is pending; without a margin the top member is preferred |
| SelectionRuns.PendingIsLeadRun | src/core/domain/selection.py:86-89 | The pending count is always the length of the pending member's current lead run, and every other member's lead run is empty |
| SelectionRuns.ExactSwitchLaw | src/core/domain/selection.py:84-90 | Preference leaves a healthy incumbent for b if and only if on each of the last hold sweeps that incumbent was healthy, b was the top member, and b's score exceeded the incumbent's by at least the margin |
| SelectionRuns.AlternatingChallengersNeverWin | src/core/domain/selection.py:86 | With a hold of 2 or more, a healthy incumbent keeps its place if no member heads two sweeps running, whoever is ahead of it |
| SelectionRuns.RivalsNeverWin | src/core/domain/selection.py:86 | For every hold of 2 or more there is a run in which one member is ahead of the incumbent by the margin on each of the last hold sweeps, and the incumbent stays |
| SelectionRuns.DocumentedIff | docs/domain.md:32 | With a positive margin, an incumbent that some member leads for a whole hold always loses its place if and only if the hold is one sweep |
| SelectionRuns.DocumentedInUnitIff | docs/domain.md:32 | On scores in [0, 1] the same holds if and only if the hold is one sweep or the margin exceeds 1 |
| SelectionRuns.SwitchesPaidBySweeps | src/core/domain/selection.py:81-89 | Lead-driven switches times the hold plus the pending count never exceed the number of sweeps |
| SelectionRuns.ChangesPaidByFlips | src/core/services/pool.py:86-99 | Every other change of preference is paid for by a health flip in the same sweep |
| SelectionRuns.AntiFlapBound | src/core/domain/selection.py:58-90 | Over N sweeps preference changes at most N / hold times plus the number of health flips |
| FlapBudget.FlipsAreMoves | src/core/services/pool.py:86-117 | The health flips the selection sees over a run are exactly the moves of the members' flags |
| FlapBudget.MovesWithinBudget | src/core/domain/selection.py:45-55 | In n checks a flag moves at most 2n / (success threshold + failure threshold) + 1 times |
| FlapBudget.ChangesWithinBudget | src/core/services/pool.py:78-101 | Over N full sweeps, whatever the probes answer, preference changes at most N / hold times plus that budget for each member |
| SystemRuns.InputsAreFull | src/core/usecases/sweep_pool.py:64-74 | Every sweep of an interleaved run that scores the pool has exactly one result for each member, in their order |
| SystemRuns.SystemWithinBudget | src/core/services/pool.py:78-101 | In every interleaved run the changes of the system's choice stay within that budget |
| Streak.ApplyStreak | src/core/domain/selection.py:37-55 | The step by step update is the streak step |
| Streak.TrailingIsMaximal | src/core/domain/selection.py:45-55 | The trailing run is the longest suffix of equal results |
| Streak.HealthFromHistory | docs/domain.md:13 | Each counter is the length of the trailing run, and a member is healthy exactly when it completed a success streak and has not completed a failure streak since |
| Streak.FlagMovesPaidByChecks | src/core/domain/selection.py:45-55 | Rises times the success threshold plus falls times the failure threshold stay within the number of checks, and rises exceed falls by one exactly while healthy |
| Score.ClampUnit | src/core/domain/score.py:22-23 | The result is the argument within [0, 1] and the nearer bound outside |
| Score.LatencyScore | src/core/domain/score.py:26-29 | The part of the reference latency that is left; 0 if it is overrun, if there is no latency, or if the reference is not positive; never above 1 |
| Score.RoundHalfEven | src/core/domain/score.py:49 | The result is an integer nearest to the argument, and the even one of two |
| Score.RoundSixFaithful | src/core/domain/score.py:49 | Rounding to six places moves a score by at most half a millionth and never reorders two scores |
| Score.RoundSixNearest | src/core/domain/score.py:49 | The rounded score is the nearest whole number of millionths, and the even one of two |
| Score.ScoreIsItsShares | src/core/domain/score.py:42-48 | On the six counters, up to half a millionth: the 1h weight times the share of the last hour's checks that succeeded, the 24h and 7d weights likewise, the healthy weight if healthy, and the latency weight times the share of the reference that is left |
| Score.ScoreMoves | src/core/domain/score.py:42-48 | Between any two inputs the score moves, up to a millionth, by each weight times what its own share gained |
| Score.ScoreInMillionths | src/core/domain/score.py:40-49 | A score is a whole number of millionths, and 0 for an unhealthy member without checks and latency |
| Score.ScoreInUnit | docs/domain.md:26 | With non-negative weights that sum to 1 every score lies in [0, 1] |
| Score.LatencyScoreMonotone | src/core/domain/score.py:26-29 | A lower latency never scores less, and a measured one never less than a missing one |
| Score.ScoreMonotone | src/core/domain/score.py:32-49 | No worse rates, health and latency never give a lower score |
| Score.DominanceRespected | src/core/domain/selection.py:64-70 | A healthy member that is no worse than another ranks ahead of it, except by id on a full tie |
| Windows.BucketsAgreeIff | src/persistence/check_store.py:131-148 | Python and SQLite name the same bucket except for fractional negative instants in the last second of one |
| Windows.PassCounts | src/core/domain/windows.py:41-57 | Each of the six counters of the pass is the number of matching checks |
| Windows.CountRecord | src/core/domain/windows.py:47-57 | One record advances exactly the counters of the windows it lies in |
| Windows.CountAll | src/core/domain/windows.py:37-57 | The loop leaves each requested member, and nobody else, the counters of its own records |
| Windows.RatesFromChecks | src/core/domain/windows.py:30-68 | The single pass returns the defining counts of exactly the requested members |
| Windows.RatesAreWindowCounts | docs/domain.md:38 | The rates count the member's checks, and the successful ones, of that series in the last 3600, 86400 and 604800 seconds |
| Windows.RatesNest | docs/domain.md:38 | Successes are among the checks, 1h within 24h within 7d, and every rate lies in [0, 1] |
| Windows.CountsAddAndIgnoreOrder | src/core/domain/windows.py:41-57 | Counts add over concatenation and do not depend on the order of the records |
| Windows.RatesIgnoreOtherSeries | docs/domain.md:54 | Checks of the other series never enter a rate |
| Windows.TableIgnoresOtherSeries | docs/domain.md:12 | Rollups never mix the two series |
| Windows.SummariesAgree | src/persistence/check_store.py:130-137 | Counting failures by their own CASE gives what is left of the rows after the successes |
| Windows.TableEntry | src/core/domain/windows.py:79-86 | A bucket exists exactly when it has rows, and summarises all of them |
| Windows.RollupCounts | src/core/domain/windows.py:107-117 | A row exists exactly for a cell with checks; it counts the successful ones, and the rest as failures |
| Windows.AverageOfSuccesses | src/core/domain/windows.py:108-110 | The average of a row is that of the latencies of its successes |
| Windows.MeanTimesCount | src/core/domain/windows.py:110 | There is no average of nothing, and otherwise it times the number of values is their sum |
| Windows.DayIsItsHours | src/core/domain/windows.py:71-104 | The successes and failures of a day are the sums over its 24 hours |
| Stores.ChecksMatchLog | src/persistence/check_store.py:248-252 | In either store the checks younger than the horizon are those of a log that is never pruned, if no prune retains less |
| Stores.DaysAndHours | src/core/domain/windows.py:12-17 | A day is 86400 and an hour 3600 seconds of the epoch |
| Stores.PruneLeaves | src/memory/check_store.py:65-79 | A prune leaves exactly the checks from the cutoff on, and exactly the rows of days and hours that were not over by then; the cutoff is the retention, one day at least, before now |
| Stores.DaysRebuilt | src/persistence/check_store.py:127-142 | After a rebuild a day with checks in the window has a row with their counts; another has none in memory, and in SQLite the one it had |
| Stores.HoursRebuilt | src/persistence/check_store.py:144-159 | The same of the hours |
| Stores.ShownRows | src/memory/check_store.py:46-58 | A read of n days or hours shows exactly the rows of those that were not over n - 1 of them before now |
| Stores.RatesFromLog | src/memory/check_store.py:33-40 | With 7 days of retention, pruning is invisible to every rate in either store |
| Stores.RollupsMatchSnapshot | src/persistence/check_store.py:126-164 | Every bucket that can still be read holds exactly what the whole log held of it at the last rebuild, although SQLite keeps buckets it did not rebuild |
| Stores.ShownIsWhole | docs/domain.md:40 | No bucket that a read shows is partial: it counts all checks of the member in that day or hour up to the last rebuild |
| Stores.ChecksAgree | src/memory/check_store.py:65-68 | The raw checks of the two stores are the same after every run |
| Stores.StoresAgree | docs/domain.md:38 | After every run the two stores show the same rollups for every window within the retention and the rebuilt span |
| Stores.StoresAgreeIff | src/persistence/check_store.py:138-142 | The stores agree on all runs if and only if the window that is read fits into the retention |
| Stores.StaleBucket | src/persistence/check_store.py:138-142 | If the window is longer than the retention there is a run after which SQLite shows a bucket that memory does not |
| Sorting.SortStable | src/memory/check_store.py:62 | The sort keeps the order of elements that are tied |
| History.HistoriesAgree | src/persistence/check_store.py:218-246 | Whatever order SQLite gives to ties, its history has memory's instants position by position if and only if the limit is not negative or there is nothing to show; it is memory's history if no two checks coincide |
| History.NewestFirst | src/memory/check_store.py:60-63 | Every answer of either store has checks of that member and series only, by descending instant |
| History.AllUpToLimit | src/memory/check_store.py:63 | It has as many rows as the member has checks of the series, up to the limit |
| History.NothingNewerLeftOut | src/persistence/check_store.py:224-225 | No check of the member that it leaves out is later than one that it shows |
| Listings.ListsUnique | src/persistence/check_store.py:179-190 | A rollup table has one listing by member and ascending bucket, up to members without rows |
| Listings.LaterLists | src/memory/check_store.py:46-58 | Dropping early rows from each list lists the later part of the table |
| Listings.GroupRows | src/core/domain/windows.py:83-86 | Appending sorted rows to their member's list lists the whole table in ascending order |
| MemoryStore.GroupChecks | src/core/domain/windows.py:78-82 | The grouping loop collects exactly the rows of each bucket, in order, from the checks within the window |
| MemoryStore.RollupsFromChecks | src/core/domain/windows.py:71-104 | Grouping, sorting and summarising lists the rollup table of the checks within the window |
| MemoryStore.InMemoryCheckStore.constructor | src/memory/check_store.py:18-22 | A new store is empty |
| MemoryStore.InMemoryCheckStore.Record | src/memory/check_store.py:30-31 | Recording is the store operation on the specification's tables |
| MemoryStore.InMemoryCheckStore.SuccessRates | src/memory/check_store.py:33-40 | The rates of exactly the requested members are the defining counts |
| MemoryStore.InMemoryCheckStore.RebuildRollups | src/memory/check_store.py:42-44 | A rebuild replaces both rollups by those of the given series within the windows |
| MemoryStore.InMemoryCheckStore.DailySince | src/memory/check_store.py:46-51 | The lists hold the rows shown for the last days |
| MemoryStore.InMemoryCheckStore.HourlySince | src/memory/check_store.py:53-58 | The lists hold the rows shown for the last hours |
| MemoryStore.InMemoryCheckStore.HistoryOf | src/memory/check_store.py:60-63 | The history is the stable descending sort of the member's checks of the series, sliced by the limit, which may be negative |
| MemoryStore.InMemoryCheckStore.Prune | src/memory/check_store.py:65-79 | Old checks and buckets go, and the number of removed checks is returned |
| SqlStore.RateRowIsRates | src/persistence/check_store.py:90-103 | Grouping with conditional sums counts what the rates are defined by |
| SqlStore.NoRowsNoRates | src/persistence/check_store.py:85-114 | A member without rows in the window has the zero rates it is given |
| SqlStore.ListSince | src/persistence/check_store.py:166-190 | Selecting, ordering by bucket and grouping lists the later part of the table |
| SqlStore.SqliteCheckStore.constructor | src/persistence/check_store.py:18-22 | A new store is empty |
| SqlStore.SqliteCheckStore.Record | src/persistence/check_store.py:52-75 | The rows are inserted, and no rows change nothing |
| SqlStore.SqliteCheckStore.SuccessRates | src/persistence/check_store.py:77-124 | The rates of exactly the requested members are the defining counts |
| SqlStore.SqliteCheckStore.RebuildRollups | src/persistence/check_store.py:126-164 | The buckets of the given series within the windows are upserted and all others kept |
| SqlStore.SqliteCheckStore.DailySince | src/persistence/check_store.py:166-190 | The lists hold the rows shown for the last days |
| SqlStore.SqliteCheckStore.HourlySince | src/persistence/check_store.py:192-216 | The lists hold the rows shown for the last hours |
| SqlStore.SqliteCheckStore.HistoryOf | src/persistence/check_store.py:218-246 | The history is a descending arrangement of the member's checks of the series, cut to the limit unless that is negative |
| SqlStore.SqliteCheckStore.Prune | src/persistence/check_store.py:248-255 | Old checks and buckets are deleted, and the number of deleted checks is returned |
| ReadStatus.RowsAgree | src/persistence/check_store.py:166-216 | The two stores give a member the same list of rows, a missing member an empty one |
| ReadStatus.DetailAgrees | src/core/usecases/read_status.py:36-50 | With 7 days of retention, in every interleaving, the detail is the same from either store: the member's state, whether it is preferred, its daily and hourly rows, the instants of its history, and the history itself if no two of its checks coincide |
| ReadStatus.DetailAgreesIff | src/core/usecases/read_status.py:42-43 | The stores show the same 7 days and 24 hours in every run of the system if and only if at least 7 days are retained |
| ReadStatus.DetailRows | src/core/usecases/read_status.py:41-49 | A detail shows exactly the member's rows of days that were not over 6 days ago and of hours that were not over 23 hours ago, its newest 100 pool checks at most, and its own state and preference |
| ReadStatus.StaleSystem | src/core/usecases/sweep_pool.py:81-82 | With less than 7 days of retention, three sweeps of one member leave SQLite with a row that memory has not |
| ReadStatus.TodayAndYesterdayAreTheirHours | src/core/usecases/sweep_pool.py:81 | With 2 days of retention, whenever the rollups of either store are read, the counts of today and of yesterday are the sums of their stored hours |
| ReadStatus.HoursMatchIff | src/core/usecases/sweep_pool.py:81-82 | They are on every run if and only if at least 2 days are retained |
| PoolStates.ResultsCommute | src/core/services/pool.py:103-117 | Results of different members commute |
| PoolStates.UnknownIgnored | src/core/services/pool.py:104-106 | A result for an unknown member changes nothing |
| PoolStates.MissingRatesCountNothing | src/core/services/pool.py:89 | A member whose rates are missing is scored as one without checks |
| PoolStates.NewPoolIsBlank | src/core/services/pool.py:18-46 | In a new pool nobody is preferred, healthy or checked, and every score and counter is 0 |
| PoolStates.HealthFollows | src/core/services/pool.py:86-87 | Applying results extends each member's history by its own results |
| PoolStates.ResultsHitTheirMember | src/core/services/pool.py:86-117 | The i-th result changes the i-th member and no other result does |
| PoolStates.SweptMember | src/core/services/pool.py:86-98 | A sweep leaves each member its own result, its own rates and the score of both |
| PoolStates.SweepChooses | src/core/services/pool.py:99 | A sweep steps the choice by the rule on the standing of the new scores |
| PoolStates.PoolRunsSelection | src/core/services/pool.py:78-101 | The choice of a pool is the selection state of the standings it showed, so the laws of selection runs hold of it |
| PoolStates.HealthIsHistory | src/core/services/pool.py:111-117 | After any run a member's counters and flag are those of its own results |
| PoolStates.ReachableOrders | src/core/services/pool.py:74-76 | In every reachable state the feeder's list starts with the preferred member and the listing starts with the feeder's list |
| PoolStates.SweepFits | src/core/services/pool.py:99 | After any sweep of any pool nobody is preferred exactly when nobody is healthy, and whoever is preferred is healthy |
| PoolStates.ReachableFits | src/core/services/pool.py:69-72 | The same holds in every reachable state, the new pool included |
| Pools.MemberState.constructor | src/core/services/pool.py:18-29 | A new member is unhealthy, unchecked and without a score |
| Pools.Pool.constructor | src/core/services/pool.py:32-46 | A new pool holds each given id once, unchecked, and prefers nobody; without repeated ids it keeps the proxies in their order |
| Pools.Pool.Ranking | src/core/services/pool.py:119-128 | The rows are those of the members in insertion order |
| Pools.Pool.Offered | src/core/services/pool.py:74-76 | The proxies are those of the feeder's order, in that order |
| Pools.Pool.ApplyOne | src/core/services/pool.py:103-117 | One result updates its member and nothing else |
| Pools.Pool.ApplyResults | src/core/services/pool.py:86-87 | The loop applies the results in order |
| Pools.Pool.RescoreMembers | src/core/services/pool.py:88-98 | The loop gives every member its rates and its score |
| Pools.Pool.ApplySweep | src/core/services/pool.py:78-101 | The mutable pool goes where the specified sweep leads |
| Sweeps.EgressStepUnseen | src/core/usecases/probe_egress.py:34-54 | An egress step leaves everything the pool depends on as it was |
| Sweeps.RecordsCarryOutcomes | src/core/usecases/sweep_pool.py:49-74 | The i-th record and result carry every field of the i-th outcome under the i-th member, and the egress record those of its outcome under its own id and series |
| Sweeps.PressureSkips | src/core/usecases/sweep_pool.py:42-43 | Under memory pressure neither a sweep nor an egress probe starts, and a disabled egress probe never does |
| Sweeps.SweepStepSeen | src/core/usecases/sweep_pool.py:41-85 | A sweep step does the same in two systems that differ only in what egress changes |
| Sweeps.EgressNoninterference | docs/domain.md:54 | Deleting every egress step from any interleaving leaves the same members, scores, choice, rates, rollups and pool checks |
| Sweeps.HistorySeesPoolOnly | src/core/usecases/read_status.py:41 | A member's pool history depends on the pool's checks only |
| Sweeps.RunsAreJournalled | src/core/usecases/sweep_pool.py:61-82 | In every interleaving the store is that of its journal, which holds dated checks, rebuilds of 7 days and 48 hours, prunes of the retention, and no instant later than a clock reading in use |
| Sweeps.RunsAreCoherent | src/core/usecases/sweep_pool.py:61-82 | With 7 days of retention, rates once read stay those of the log that is never pruned, in every interleaving |
| Sweeps.PoolFollowsInputs | src/core/usecases/sweep_pool.py:75-80 | The pool of any interleaved run is that of the sweeps it applied |
| Sweeps.SystemRunsSelection | src/core/usecases/sweep_pool.py:75-80 | The laws of selection runs hold of the pool of every interleaved run |
| Sweeps.SweepIsCoherent | src/core/usecases/sweep_pool.py:61-82 | What a sweep leaves of each member equals a recomputation from the log that is never pruned and from all results ever applied |
| Sweeps.StaysCoherent | src/core/usecases/sweep_pool.py:75-80 | It stays that recomputation until the next sweep scores the pool, whatever steps come in between |
| Sweeps.EnginesRunAlike | src/persistence/check_store.py:77-124 | A run on one store is a run on the other with the same pool, choice, checks, journal and inputs, whatever the clock and the retention |
| Sweeps.ProgressFlag | src/core/usecases/sweep_pool.py:45-85 | The flag is raised exactly while a sweep runs, failures included |
| ProbeAll.Bounded | src/core/usecases/sweep_pool.py:87-96 | In every schedule at most max(1, concurrency) probes are in flight, and none is started twice |
| ProbeAll.UsedUp | src/core/usecases/sweep_pool.py:37 | Of enough members max(1, concurrency) can be probed at once |
| ProbeAll.ScheduleDoesNotMatter | src/core/usecases/sweep_pool.py:48-74 | However the probes are scheduled, each member is probed exactly once and the i-th record and result carry all of the i-th member's answer |
| ProbeAll.NoDeadlock | src/core/usecases/sweep_pool.py:90-96 | Until all probes are done one can start or finish, and every such event is progress |
| Services.SweepPoolService.Execute | src/core/usecases/sweep_pool.py:41-85 | Under memory pressure nothing happens; otherwise the pool and the store become those of the sweep and the flag is down again |
| Services.SweepPoolService.Score | src/core/usecases/sweep_pool.py:49-80 | The checks are recorded, the rates read after that, and both given to the pool |
| Services.SweepPoolService.RecordAndRead | src/core/usecases/sweep_pool.py:61-63 | The rates include the sweep's own checks |
| Services.SweepPoolService.Tidy | src/core/usecases/sweep_pool.py:81-82 | The rollups are rebuilt, then old rows pruned, and the pool is left alone |
| Undisturbed.SweepReads | src/core/usecases/sweep_pool.py:45-63 | The step machine, up to the rates, has recorded the checks and left the pool alone |
| Undisturbed.SweepWrites | src/core/usecases/sweep_pool.py:75-85 | From the rates on, the step machine scores the pool, rebuilds, prunes and ends |
| Undisturbed.UndisturbedSweep | src/core/usecases/sweep_pool.py:41-85 | Run without interleaving, the step machine leaves the pool and the store that Execute leaves, and its books with them |
| Undisturbed.SweepLeaves | src/core/usecases/sweep_pool.py:61-85 | It leaves exactly those of the earlier checks and its own that are within the retention, and each member with the rates of all of them |
| Undisturbed.SweepContinues | src/core/usecases/sweep_pool.py:41-85 | Every run at rest can be continued by such a sweep, whatever the probes answer |
| Services.EgressStatus.Observe | src/core/services/egress.py:18-23 | The status shows exactly the outcome observed |
| Services.ProbeEgressService.Execute | src/core/usecases/probe_egress.py:34-54 | A disabled, aimless or refused probe changes nothing; any other appends one egress check and leaves the pool's checks and rollups alone |
| Services.ReadStatusService.Detail | src/core/usecases/read_status.py:36-50 | An unknown member has no detail; any other one has its state, its preference, its last 100 pool checks, 7 days and 24 hours |
| Pressure.PressureGuard.OverLimit | src/core/services/pressure.py:32-36 | The cap is reached at its value, and a cap of 0 never |
| Pressure.PressureGuard.TryAcquire | src/core/services/pressure.py:38-46 | A client is admitted exactly below both caps, and the counter never passes max_connections |
| Pressure.PressureGuard.Release | src/core/services/pressure.py:48-50 | The counter goes down by one and stops at zero |
| Feeder.PermitConservation | src/feeder/server.py:119-146 | In every interleaving the counter is the number of handlers between acquire and release and stays within 0..max_connections, each acquire is released exactly once, and no release finds the counter at zero |
| Feeder.HandlersWalk | src/feeder/server.py:126-146 | Every handler of every interleaving accounts for its dials, its open connections and its reply |
| Feeder.ClientsUnseen | src/feeder/server.py:126-146 | The system runs as its own steps make it run, whatever clients do |
| Feeder.OfferIsFair | src/core/services/pool.py:74-76 | In a pool whose choice fits, the list offered holds exactly the members whose flag is up, once each, the preferred one first |
| Feeder.RunsInOrder | src/core/services/pool.py:69-76 | In every interleaved run the pool is that of the inventory and its choice fits |
| Feeder.SnapshotOfThePool | src/feeder/server.py:129 | A request's snapshot is what the pool offered at the event at which its head was read, in the same run |
| Feeder.FailoverWalk | src/feeder/server.py:127-187 | The members dialled are a prefix of the first max(1, max_failover) of that snapshot, without repeats, all healthy then and the first of them preferred; absent faults and cancellation every upstream is closed and the reply says why the walk ended |
| Feeder.TriesAllOffered | src/feeder/server.py:129-138 | A request may try as many members as it was offered, up to max_failover and at least one, and one that ended with 502 has dialled all of them in vain |
| Feeder.HeadAnswered | src/feeder/server.py:127-136 | An unreadable head is answered 400, one with nobody on offer 502, a malformed CONNECT target 400, and any other dials the first member offered |
| Feeder.AdmittedIff | src/core/services/pressure.py:38-46 | A client gets a permit exactly if fewer than max_connections handlers hold one and the memory reading is below the cap, or there is no cap; otherwise it is answered 503 |
| Feeder.OneDialIsHealthy | src/feeder/server.py:129 | If no request can dial twice, every dialled member has its flag up when it is dialled |
| StaleDials.AllFlags | src/core/services/pool.py:86-117 | From any state at rest enough sweeps raise all flags, or lower them, for arbitrary thresholds |
| StaleDials.StaleWalkDialsUnhealthy | src/feeder/server.py:129-136 | With two members, two tries and a permit there is a run of sweeps and one request that dials a member whose flag is down |
| StaleDials.CurrentlyHealthyIff | docs/domain.md:57 | No member is ever dialled while its flag is down if and only if there is one try at most, or one member at most, or nobody is admitted |
| HeadReader.HeadersCompleteIff | src/feeder/server.py:31-32 | A head is complete exactly if it contains CR LF CR LF or LF LF |
| HeadReader.ReadHttpHead | src/feeder/server.py:35-46 | The loop stops at the first read that completes the head, passes the limit or meets EOF, and consumes no more than that |
| HeadReader.HeadLimits | src/feeder/server.py:9 | In reads of 1 to 1024 bytes a head that ends by byte 64513 is accepted, and none that ends beyond byte 65536 |
| HeadReader.AcceptedIff | src/feeder/server.py:35-46 | A head is accepted if and only if some read ends between its end and the limit, and is too long otherwise |
| HeadReader.ChunkingRobust | src/feeder/server.py:35-46 | A head that ends 1023 bytes before the limit is accepted for every chunking, one that ends beyond it for none, and an accepted head is exactly what was consumed |
| HeadReader.BoundIsTight | src/feeder/server.py:38-43 | For every later end there are two chunkings of one stream, one accepted and one rejected |
| HeadReader.NothingOverReadIff | src/feeder/server.py:38-46 | After an accepted head the stream goes on right behind it if and only if the stream was cut there |
| Forwarding.TurnConveys | src/feeder/server.py:77-91 | Each turn of a pipe keeps its destination at a prefix of its source, and at all of it at EOF |
| Forwarding.RelayConveys | src/feeder/server.py:71-93 | Whatever the schedule of the two directions, both destinations have prefixes of their streams, and the whole at EOF |
| Forwarding.OneEndsOfItself | src/feeder/server.py:87-91 | A direction is cut off only by the other one, which ended at EOF or by a failing write |
| Forwarding.HalfCloseOutcomes | src/feeder/server.py:87-93 | Once one direction has ended, every prefix of the other stream from what was sent to the whole, and nothing else, is a possible outcome |
| Forwarding.Relay | src/feeder/server.py:71-93 | The loop over the turns of the two pipes computes the scheduled relay, and turns after both have ended change nothing |
| Forwarding.FirstLineIs | src/feeder/server.py:178 | The status line ends with the first newline, or with the stream if there is none |
| Forwarding.ServesIff | src/feeder/server.py:178-180 | A candidate serves exactly if its first line can be read in time and its stream starts with `HTTP/`, in any case |
| Forwarding.Forward | src/feeder/server.py:171-187 | The first candidate that serves gets a prefix of the client's stream and the client a prefix of that candidate's; the ones before get the head at most |
| Forwarding.ServeForward | src/feeder/server.py:126-136 | Reading and forwarding together convey the client's stream from its first byte, over-read body included; a rejected head dials nobody |
| Tunnelling.VerdictUnique | src/feeder/server.py:35-46 | A given chunking has exactly one verdict |
| Tunnelling.EstablishedIsAHead | src/feeder/server.py:162 | What the client is told is one complete head that starts with `HTTP/1.1 200 ` |
| Tunnelling.GrantsIff | src/feeder/server.py:158-161 | A peer grants the tunnel exactly if its status is 2xx and some read ends between the end of its reply head and the limit |
| Tunnelling.Tunnel | src/feeder/server.py:149-168 | The first candidate that grants the tunnel is relayed after the reads of its reply head; the ones before get a prefix of the CONNECT request |
| Tunnelling.ServeTunnel | src/feeder/server.py:126-134 | Reading the client's head and tunnelling together convey what the client sends after the reads of its head; a rejected head or a malformed target dials nobody |
| Tunnelling.TunnelLosslessIff | src/feeder/server.py:149-164 | Each direction that ran to EOF delivered exactly what followed its head if and only if its stream was cut into reads there |
| Inventory.IdIs | src/core/domain/proxy.py:24 | An id is the host, a colon and the port in decimal |
| Inventory.DecimalReads | src/core/domain/proxy.py:24 | A port is written in digits that stand for it, without leading zeros |
| Inventory.IdDeterminesEndpoint | src/core/domain/proxy.py:24 | Members with equal ids have the same host and port |
| Inventory.StripIs | src/core/domain/proxy.py:19 | What is stripped from a text is white space at its ends |
| Inventory.BareIff | docs/domain.md:59 | A host is bare exactly if it is not empty and contains neither an `@` nor a `://` |
| Inventory.ProxyFromEndpoint | src/core/domain/proxy.py:18-24 | A member is made exactly of a bare host and a port in range, with the id derived from the stripped host and the port; a bad host is reported before a bad port |
| Inventory.MadeIff | src/inventory/yaml_file.py:22-28 | An entry makes a member exactly if it is a mapping with a bare host and a number in range as its port |
| Inventory.MadeOf | src/inventory/yaml_file.py:24-28 | An entry with a host and a port makes the member of that endpoint under its label, or under `default` if it has none |
| Inventory.LoadInventory | src/inventory/yaml_file.py:19-33 | Loading succeeds exactly when every entry is valid and no endpoint repeats, keeps the order, and otherwise reports the first offending entry |

## Left out

- HTTP probing, sessions, DNS and sockets: their answers are inputs.
- SQLAlchemy, pragmas, opening and closing of the database and the store's lock: each store method is one atomic operation on tables.
- Floating-point error and the float formatting of buckets: see the assumptions.
- History.HistoriesAgree: does not fix the order of checks at the same instant, because the SQL query does not.
- Stores.StoresAgree: is about runs whose rebuilds are all of one series; the program rebuilds the pool series only.
- SelectionRuns.DocumentedIff: its runs list what the selection is shown at each sweep, scores included; which sequences of scores given weights and latencies can produce is not part of it.
- Services.ReadStatusService.Detail: reads the store three times in one go; a sweep that runs between these reads is not part of this model.
- Feeder.FailoverWalk: says nothing about how a request ends after a write to the client failed or the relay raised an unexpected error, nor that a cancelled handler closes its upstream, because the code does not close it; permits and the order of the dials hold in those cases too.
- Feeder.PermitConservation: does not model a handler without a guard, which the server never starts.
- Tunnelling.ServeTunnel: takes the CONNECT request as a function of the head, and whether a reply's status is 2xx as an input; parsing the request line, the target and the status line is not part of this model.
- Inventory.LoadInventory: starts from the parsed list; the file, YAML and what `str` and `int` make of a value are not part of this model.
- The skip reasons in the results of sweeps and egress probes, and the state an interrupted sweep reports.
- API payloads, dashboard, CLI, settings, metrics, logging, timers and the measurement of memory.
