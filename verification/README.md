# Verification of migrations, jobs and lifecycle

This project models the parts of the repository whose correctness is not visible in any one
function body, and proves what they promise, for every input, every run and every interleaving.
`dafny verify dfyconfig.toml` checks all of it.

## What is modelled

**The migration planner.** A schema is a map from table names to columns, primary key, foreign
keys and options (`Schemas`). Every change operation is a partial function on schemas: it is
defined when a database that enforces referential integrity accepts the statement and the
definition the operation carries is the one in force. The loops of `diff` and
`createdTablesInOrder` are methods (`Planner`, `CreationOrder`), proved equal to a specification
of what they emit; the sorted Kahn queue is proved to give the alphabetically least order
(`TableOrder`, `OrderFacts`), and the phase sort to be a stable permutation (`Phases`). The
theorem of `PlanCorrect` is about that plan: run on the previous schema it reaches the next one
if and only if no foreign key changes its name and nothing else (a name is not part of what the
planner compares). On the way every schema is referentially closed, in both foreign-key modes,
and the down plan walks back through the same schemas. The proof gives each point of the plan a
closed form of the schema (`PlanStates`) and shows each operation to be defined in its turn
(`PlanSteps`, `PlanTurns`). `PlanOrder` says where each operation stands, from the snapshots
alone.

**The job store.** `Jobs` states each statement as one update of a map of rows, which is what the
PostgreSQL store executes. `JobRuns` proves the lease and fencing protocol over every run: any
number of workers, arbitrary clocks, arbitrary arguments. `JobRows` says what every column of a row
is, and what every statement reports, from what has happened to the job. `SqliteJobs` is the SQLite
store as an object whose rows hold text: it compares ISO timestamps as strings, claims one id at a
time and re-reads in text order, and each of its methods is proved to perform one step of such a
run. That rests on `Calendar`, the civil calendar of sections 21.4.1 and 21.4.4.36 of ECMA-262
(2024): text order is time order, and parsing inverts printing. `SchedulerLeases` does the same for
the schedulers' lease table, and says exactly when its leaders are disjoint. `StatementCache` is
the SQLite store's cache of statements, `PreparedStatements` the server-side names of the
PostgreSQL store with a failure or an abort possible at every await, and `ConnectionQueue` the
serial use of one connection by any number of operations of any number of stores, as a state
machine whose events are the awaits. SQL may fail with or without having taken effect; the race
between an operation and its caller's signal is included. `QueueFacts` says what an operation
sends, and why, from the events of the run.

**The migration runners.** `Embedded` and `EmbeddedRunner` are the bundle-resident SQLite runner,
`Runner`, `RunnerFacts` and `MigrationRunner` the asynchronous one. What SQL does to the data is
a parameter; every call on a connection may fail, and a failed migration body may have changed
part of the data before it is rolled back. The connections count their failed calls, so that the
runners can be shown to fail, other than by a refusal, exactly when a call did. A connection
without transactions is modelled too. `LedgerChecks` and `EmbeddedFacts` say what the checks of the
two mean, checksum by checksum, and what a run leaves in the ledger.

**The lifecycle.** `LifecycleRuns` is one application as a state machine: `init` and dispose may
be called at any await, and also from inside the synchronous part of a start's first hook, before
`initPromise` is assigned. Every life is proved to end, and every run without calls of the latter
kind to be exact; with them, an `init` always runs a hook twice, a dispose is harmless exactly for an
application that has nothing to stop, and a concrete run leaves an extension running for ever.
`Application` is the object whose methods perform those steps with the loops of the source;
`Lifecycle` says what a life's calls are.

**The jobs extension.** `ExtensionRuns` is the extension for workers, schedulers and stores as a
state machine, `JobsExtension` the object. A participant may call start or stop from inside the
call that starts or stops it. A stop is remembered only once its first call has returned, so a
stop from inside that call carries out a plan of its own: the stops of a run are ordered and called
once exactly when no stop is called there. Everything started is stopped exactly when nothing was
entered after the last plan was made. `ExtensionFacts` adds the order of starts, when a start stops
short, and whose outcome a stop reports.

**The CockroachDB scanners.** `Scanner` holds the identifier printer and reader and the two
parenthesis scanners, specified by the nesting level outside quotes.

## Modelling decisions

- `localeCompare` is an injective rank of names in the reals, an arbitrary strict total order.
- The JSON text by which foreign keys are matched is the triple it is made from.
- `rowstore` is either absent or true in the source, so it is a boolean here.
- Dafny strings are sequences of whole characters, so text is always well formed; SQLite's and
  PostgreSQL's binary collations order it character by character.
- On a row that conflicts in both its id and its dedupe key, the dedupe conflict is taken as the
  one the insert tolerates.
- The attempts column's CHECK is kept: completing a job at the largest attempts value fails.
- Awaits are step boundaries. A driver's `transaction` is atomic; the embedded runner's own
  BEGIN, COMMIT and ROLLBACK are modelled one by one, and SQLite's COMMIT that fails leaves the
  transaction open.
- `execute` is taken to settle only after its SQL has, as the queue's slot requires.
- A base-36 sequence number is the number itself.
- The memory connection of the migration package is the connection without transactions and
  checksums whose data is the list of executed texts (`RunnerFacts.InMemory`), the creation of the
  ledger table left out of it.
- The planner's maps merge entries of one name, or of one foreign-key identity, as JavaScript's do.
  The theorems about the plan assume snapshots in which that does not happen.

## Model

| member | source | states |
|---|---|---|
| CreationOrder.CreatedTablesInOrder | packages/migrations/src/index.ts:384-451 | The queue of ready tables computes exactly the order InOrder specifies, or refuses naming the cyclic tables; it terminates, for any list of tables |
| OrderFacts.InOrderTargetsFirst | packages/migrations/src/index.ts:384-427 | In an accepted order every table follows every other listed table it references |
| OrderFacts.InOrderIsLeast | packages/migrations/src/index.ts:408-425 | Among all orders with that property it is the alphabetically least, and it exists as soon as any does |
| OrderFacts.RefusesExactlyCycles | packages/migrations/src/index.ts:427-449 | Tables are left over exactly when their references, self-references aside, contain a cycle |
| OrderFacts.RefusalNamesTables | packages/migrations/src/index.ts:427-449 | A refusal names just the tables from which references lead to a cycle, in the order of their names |
| OrderFacts.CyclicComeLast | packages/migrations/src/index.ts:427-451 | A caller that does not refuse gets those tables last, in the order of their names, after the others with targets first |
| TableOrder.LeftOverIffCycle | packages/migrations/src/index.ts:412-427 | The same for any reference graph: the ordered list is shorter than the graph if and only if there is a closed walk |
| Phases.OrderingPermutes | packages/migrations/src/index.ts:325-332 | Sorting by phase keeps every operation, as often as it was there |
| Phases.OrderingIsByPhase | packages/migrations/src/index.ts:311-332 | No operation precedes one of an earlier phase |
| Phases.OrderingIsStable | packages/migrations/src/index.ts:325-332 | Within a phase the emission order stays |
| Phases.OrderingRespects | packages/migrations/src/index.ts:311-332 | An operation of an earlier phase, or emitted earlier in the same phase, comes earlier in the plan |
| Phases.KindsDecide | packages/migrations/src/index.ts:311-332 | Which of two operations comes first, by their kinds, and by emission between kinds of one phase |
| Planner.DiffForeignKeys | packages/migrations/src/index.ts:358-382 | Emptying the map of unmatched previous keys emits the specified drops and adds, in that order; a second next key of one identity finds its entry gone |
| Planner.DiffColumns | packages/migrations/src/index.ts:503-520 | Drops of columns not kept, then adds and alterations in the order of the next table |
| Planner.DiffTable | packages/migrations/src/index.ts:503-524 | Column changes, then the key change, then the foreign-key changes of one shared table |
| Planner.DiffShared | packages/migrations/src/index.ts:491-525 | All shared tables in the next snapshot's order, or the first whose options changed |
| Planner.Create | packages/migrations/src/index.ts:529-544 | Creations in the given order, foreign keys inline or as later operations by the dialect's mode |
| Planner.AddExtensions | packages/migrations/src/index.ts:476-484 | Creation of just the extensions that are not installed |
| Planner.DropEach | packages/migrations/src/index.ts:487-489 | Drops in the order given, each with the full definition |
| Planner.Diff | packages/migrations/src/index.ts:469-552 | The whole of diff, tables dropped in reverse creation order, returns the plan the theorems below are about, or the error of the first refusal, for any two snapshots |
| PlanContents.EmittedIffPlanned | packages/migrations/src/index.ts:469-544 | An operation is emitted if and only if the two snapshots call for it, stated without reference to the loops |
| PlanContents.EmittedDistinct | packages/migrations/src/index.ts:469-544 | No operation is emitted twice |
| PlanOrder.EmissionAscends | packages/migrations/src/index.ts:358-544 | The emission is strictly ascending in an order read off the snapshots: extensions, drops, changes table by table and part by part, creations with their later constraints; with which operations are emitted it leaves no freedom |
| PlanContents.AddsBeforeCreations | packages/migrations/src/index.ts:491-544 | Columns of shared tables are added before any table is created, though both are one phase |
| PlanContents.ChildrenDropFirst | packages/migrations/src/index.ts:486-489 | A dropped table that references another dropped table goes first |
| PlanContents.TargetsCreatedFirst | packages/migrations/src/index.ts:527-538 | With inline constraints a created table's new targets are created first |
| Schemas.SameColumnMeansSameFacts | packages/migrations/src/index.ts:239-309 | The planner's column comparison is equality of everything a column means to the database |
| Snapshots.SameColumnMeansAlike | packages/migrations/src/index.ts:239-309 | And it is equality of type, length, nullability, uniqueness and default, where absent type arguments count as none |
| Schemas.SameTableOptionsMeansSameFacts | packages/migrations/src/index.ts:334-344 | The same for table options |
| Snapshots.SameTableOptionsMeansAlike | packages/migrations/src/index.ts:334-344 | Options are the same exactly when rowstore, shard key and sort key are, where an absent key counts as empty and absent options as none |
| Schemas.ApplyKeepsClosed | packages/mssql/src/migrations.ts:199-239 | Every operation a database accepts keeps the schema referentially closed |
| Schemas.EveryIntermediateSchemaIsClosed | packages/migrations/src/index.ts:554-565 | So every schema along any run of operations is closed |
| Reversal.UndoInvertsApply | packages/mssql/src/migrations.ts:241-266 | The down form of an operation takes the schema after it back to the schema before it, including the re-creation of a dropped table with its foreign keys |
| Reversal.PrefixWalksBack | packages/migrations/src/index.ts:554-565 | Reversed down operations walk any prefix of a run back to any earlier point |
| PlanCorrect.PlanIsCorrect | packages/migrations/src/index.ts:469-552 | The plan runs from the previous schema and ends in the next one if and only if no foreign key changes its name alone |
| PlanCorrect.PlanReachesTarget | packages/migrations/src/index.ts:469-552 | The forward half: every operation is defined in its turn and the end is the next schema |
| PlanCorrect.NameOnlyChangeIsMissed | packages/migrations/src/index.ts:350-382 | The other half: a name-only change is never planned, so the plan misses its target |
| PlanCorrect.RenameIsMissed | packages/migrations/src/index.ts:350-382 | A concrete pair of snapshots that is accepted and missed |
| PlanCorrect.PlanStaysClosed | packages/migrations/src/index.ts:311-332 | Between closed snapshots every intermediate schema of the plan exists and is closed, in both modes |
| PlanCorrect.DownPlanWalksBack | packages/migrations/src/index.ts:554-565 | After any prefix of the plan, its down operations lead back through exactly the plan's own schemas |
| PlanCorrect.RefusalsAreExact | packages/migrations/src/index.ts:427-502 | The planner refuses exactly for a cycle among dropped tables, changed options of a shared table, or an inline cycle among created tables |
| PlanCorrect.RefusalsAreNamed | packages/migrations/src/index.ts:427-502 | Which refusal it is, in the order they are met: of the dropped tables, of the first shared table whose options no longer mean the same, of the created tables; with the names it carries |
| PlanCorrect.AltersExactlyWhen | packages/migrations/src/index.ts:510-519 | A column kept by name is altered exactly when its type, length, nullability, uniqueness or default no longer means the same |
| Calendar.CivilRoundTrip | packages/jobs-sqlite/src/index.ts:69-78 | Year, month, day and clock determine the time they were computed from |
| Calendar.EarlierIffBefore | packages/jobs-sqlite/src/index.ts:69-78 | Civil times compare field by field as the times do |
| Calendar.IsoOrders | packages/jobs-sqlite/src/index.ts:69-78 | In the guarded range, text order of ISO timestamps is time order, both ways, and equal text means equal time |
| Calendar.ParseInvertsIso | packages/jobs-sqlite/src/index.ts:97-109 | Decoding a stored timestamp gives back the time it was written from |
| Calendar.DaysFollow | packages/jobs-sqlite/src/index.ts:69-78 | A day later the date is the next one of the Gregorian calendar, at the same time of day |
| Calendar.ClockIs | packages/jobs-sqlite/src/index.ts:69-78 | The time of day is the time beyond whole days in hours, minutes, seconds and milliseconds |
| Calendar.EpochIs | packages/jobs-sqlite/src/index.ts:69-78 | Time 0 is the beginning of 1970, and its text is "1970-01-01T00:00:00.000Z" |
| Calendar.RangeEnds | packages/jobs-sqlite/src/index.ts:69-78 | The range accepted is from the first millisecond of year 1 to the last of year 9999 |
| Texts.FirstDifferenceDecides | packages/jobs-sqlite/src/index.ts:185-191 | Texts compare at the first place where they differ, and one that ends there comes first |
| JobRuns.GrantsAreDisjoint | packages/jobs-sqlite/src/index.ts:192-276 | Two grants of one job without an accepted settlement between them cover disjoint intervals, whatever the clocks |
| JobRuns.AcceptedExactlyForOpenGrant | packages/jobs-sqlite/src/index.ts:225-276 | A settlement is accepted if and only if its holder has the job's latest grant, still unsettled |
| JobRuns.EachGrantSettledOnce | packages/jobs-sqlite/src/index.ts:225-276 | Every accepted settlement has a grant of its own, right before it and by the same holder |
| JobRuns.CompletionIsFinal | packages/jobs-sqlite/src/index.ts:233-240 | A job completes at most once, and nothing happens to it afterwards |
| JobRuns.RetryWaits | packages/jobs-sqlite/src/index.ts:241-263 | A job put back is granted next, not before the time it was put back for |
| JobRuns.EveryRowIsSound | packages/jobs-sqlite/src/index.ts:225-302 | A lease owner implies pending; a job is dead exactly when reason, detail and time are all set, so listDead can decode it |
| JobRuns.RunPersists | packages/jobs-sqlite/src/index.ts:181-302 | Rows are never deleted or re-keyed, done rows never change, completed keys stay |
| JobRuns.CompletedExactlyWhenAccepted | packages/jobs-sqlite/src/index.ts:265-275 | A key counts as completed exactly when some accepted completion carried it |
| JobRuns.KeysAreUnique | packages/jobs-sqlite/src/index.ts:110-123 | Never more than one row per dedupe key |
| JobRuns.SameKeySameJob | packages/jobs-sqlite/src/index.ts:110-123 | All enqueues with one key return one id, whatever happens between |
| JobRuns.DuplicateChangesNothing | packages/jobs-sqlite/src/index.ts:110-123 | Every later enqueue with the key reports the first id and changes no row |
| JobRows.EveryRowIsItsLog | packages/jobs-sqlite/src/index.ts:110-302 | In every run each column of a row is what has happened to its job says: as enqueued, the attempts set by the last retry or burial and counted by completions, the last error, holder, availability, status, and the reason, detail and time of death |
| JobRows.EnqueueOutcome | packages/jobs-sqlite/src/index.ts:110-123 | An enqueue reports the job added with its key, or else a used id, or else that it was inserted |
| JobRows.GrantsExactly | packages/jobs-sqlite/src/index.ts:192-220 | A claim grants exactly those requested jobs that are neither completed nor dead and whose lease or delay is over |
| JobRows.SettlementOutcome | packages/jobs-sqlite/src/index.ts:225-276 | What a settlement reports: false unless its holder has the latest grant, a failure on a completion that would exceed the largest number of attempts, and true otherwise |
| JobRows.ReplayOutcome | packages/jobs-sqlite/src/index.ts:294-302 | A replay takes effect exactly on a dead job |
| JobRows.CompletedAtFirst | packages/jobs-sqlite/src/index.ts:265-275 | A completed key keeps the time of the first completion that carried it |
| JobRows.EveryRowIsStorable | packages/jobs-sqlite/src/index.ts:60-131 | No reachable table holds text with a NUL or empty where it must not be, a time outside years 1 to 9999 or attempts beyond 31 bits |
| JobRows.EnqueueRefusedWhen | packages/jobs-sqlite/src/index.ts:124-131 | Exactly which enqueues are refused, and how |
| JobRows.ClaimRefusedWhen | packages/jobs-sqlite/src/index.ts:192-205 | Exactly which claims are refused, and how |
| JobRows.SettlementRefusedWhen | packages/jobs-sqlite/src/index.ts:225-264 | Exactly which settlements are refused, and how |
| JobRows.ReplayRefusedWhen | packages/jobs-sqlite/src/index.ts:294-302 | Exactly which replays are refused, and how |
| SqliteJobs.CandidatesAreGranted | packages/jobs-sqlite/src/index.ts:185-220 | Claiming what candidates just returned, at the same time, grants all of it in the same order |
| SqliteJobs.CandidatesAreFirst | packages/jobs-sqlite/src/index.ts:185-191 | Candidates come in the order they were enqueued, ties by id, and whatever could be claimed and is left out would come later |
| SqliteJobs.GrantsDescribeJobs | packages/jobs-sqlite/src/index.ts:100-109 | What a claim hands out is the job as enqueued, with the attempts made so far and the holder |
| SqliteJobs.OneRowOrder | packages/jobs-postgres/src/index.ts:405-417 | The order by enqueue time and id leaves no freedom: the rows listed determine the list |
| SqliteJobs.ClaimOneMore | packages/jobs-postgres/src/index.ts:405-417 | One single-row update extends the set-based update by that id |
| SqliteJobs.OrderBy | packages/jobs-sqlite/src/index.ts:214-218 | Ordering by the stored text lists exactly the given rows, strictly in order |
| SqliteJobs.SqliteStore.Enqueue | packages/jobs-sqlite/src/index.ts:110-131 | Performs the enqueue step of a run on text rows, or refuses without a trace |
| SqliteJobs.SqliteStore.Candidates | packages/jobs-sqlite/src/index.ts:185-191 | The first rows in order among the pending ones whose lease has expired |
| SqliteJobs.SqliteStore.Claim | packages/jobs-sqlite/src/index.ts:192-220 | The per-id loop on text does the single set-based update of the distinct ids and returns the granted rows in order |
| SqliteJobs.SqliteStore.UpdateEach | packages/jobs-sqlite/src/index.ts:206-213 | The loop alone: its rows and its changed ids are those of the set-based update |
| SqliteJobs.SqliteStore.Completed | packages/jobs-sqlite/src/index.ts:221-224 | Membership in the completed keys |
| SqliteJobs.SqliteStore.Settle | packages/jobs-sqlite/src/index.ts:225-276 | Performs the settlement step of a run, whose effect on every column JobRows states, with its argument checks and the attempts overflow |
| SqliteJobs.SqliteStore.Replay | packages/jobs-sqlite/src/index.ts:294-302 | Performs the replay step of a run |
| SqliteJobs.SqliteStore.Close | packages/jobs-sqlite/src/index.ts:334-340 | Closes the store, leaves the table alone and releases the database once however often it is called; a bad grace period changes nothing |
| SchedulerLeases.LeadersAreDisjoint | packages/jobs-sqlite/src/index.ts:303-333 | While one holder has the key, every acquisition by another that can succeed is disjoint from an earlier tenure of this one if and only if that tenure does not outlast the holder's latest |
| SchedulerLeases.TakeoverIsDisjoint | packages/jobs-sqlite/src/index.ts:303-333 | So two leaders of a run do not overlap when the first one's tenure did not outlast its latest |
| SchedulerLeases.ShortenedLeaseOverlaps | packages/jobs-sqlite/src/index.ts:303-316 | A concrete run in which a shortened lease leaves the first tenure overlapping the next leader's |
| SchedulerLeases.OnlyTheHolderRenews | packages/jobs-sqlite/src/index.ts:317-333 | A renewal or release takes effect exactly for the latest holder, a renewal only before expiry |
| SchedulerLeases.AcquiresExactlyWhen | packages/jobs-sqlite/src/index.ts:303-316 | A lease can be had exactly when the key is free, by its last holder, and by others once it has run out |
| SchedulerLeases.TenuresAreAsked | packages/jobs-sqlite/src/index.ts:303-328 | Every tenure is one that was asked for, from the time its holder read for as long as it asked |
| SchedulerLeases.LeaseTable.Do | packages/jobs-sqlite/src/index.ts:303-333 | The text comparisons of the three statements decide as the times do |
| StatementCache.Cache.Query | packages/jobs-sqlite/src/index.ts:148-164 | After any queries the cache holds the most recent distinct texts in order of last use, each with a statement prepared from that text; prepare runs exactly on a miss; size 0 keeps nothing |
| StatementCache.Cache.Close | packages/jobs-sqlite/src/index.ts:334-340 | Closing empties the cache |
| StatementCache.OneMoreQuery | packages/jobs-sqlite/src/index.ts:150-158 | Moving a text last and dropping the first keeps that list right, stated on lists |
| StatementCache.MostRecentIsUnique | packages/jobs-sqlite/src/index.ts:148-164 | There is only one list of the most recent texts in order of last use |
| PreparedStatements.Connection.Query | packages/jobs-postgres/src/index.ts:149-193 | With failures and aborts at every await: no statement on the server is forgotten, a text without a name is sent under one never sent before, a completed call leaves exactly the most recent texts that fit, at most its own limit, and it fails only if a call failed or was aborted |
| PreparedStatements.Connection.Evict | packages/jobs-postgres/src/index.ts:169-181 | The eviction loop terminates and leaves the most recent entries that fit beside the text asked for |
| PreparedStatements.Connection.Forget | packages/jobs-postgres/src/index.ts:175-179 | A name is dropped only when its statement is known to be gone |
| PreparedStatements.Connection.RunAs | packages/jobs-postgres/src/index.ts:182-192 | A text keeps its name, a new text gets the next number, which was never sent, and the name is in the map before the server hears of it |
| PreparedStatements.NameOne | packages/jobs-postgres/src/index.ts:187-191 | Renewing an entry keeps the map free of leaks |
| PreparedStatements.KeptAreMostRecent | packages/jobs-postgres/src/index.ts:169-191 | The texts that keep their names: the one asked for last, and before it the end of the list of the others, as long as fits |
| ConnectionQueue.OperationsRunInCallOrder | packages/jobs-postgres/src/index.ts:214-320 | The SQL on the connection is one operation's after another's in call order, and a settled operation caused one complete piece: nothing, a failed BEGIN, statements, or BEGIN, statements and COMMIT or ROLLBACK |
| ConnectionQueue.EveryBeginIsClosed | packages/jobs-postgres/src/index.ts:257-294 | Once an operation has settled, and before a later one's first SQL, its trace ends in an answered COMMIT or ROLLBACK exactly when its BEGIN was acknowledged |
| ConnectionQueue.SlotOutlivesCaller | packages/jobs-postgres/src/index.ts:235-320 | When the caller's signal wins the race, then whatever happens next no later operation sends SQL before this one has settled with complete SQL, and the caller's outcome stays |
| ConnectionQueue.AbandonedHoldsTheSlot | packages/jobs-postgres/src/index.ts:299-320 | Such a run: the caller has been answered while BEGIN is in flight, and the next operation cannot start |
| ConnectionQueue.CallersAreToldTheTruth | packages/jobs-postgres/src/index.ts:257-320 | A caller that gets its transaction's outcome and is told success has a COMMIT that took effect; what it is told is true exactly unless a COMMIT took effect whose answer was an error or lost |
| ConnectionQueue.FailureMayHaveCommitted | packages/jobs-postgres/src/index.ts:264-283 | A run in which the caller is told of a failure and the database has committed |
| ConnectionQueue.LeavesOpenWhenDirty | packages/jobs-postgres/src/index.ts:257-294 | A settled operation leaves the connection inside a transaction exactly when its BEGIN took effect with its answer lost, or its ROLLBACK had no effect and no COMMIT had |
| ConnectionQueue.NextRunsOutsideTransaction | packages/jobs-postgres/src/index.ts:235-307 | In every run, after clean operations the connection is inside a transaction exactly when the one just settled was not clean |
| ConnectionQueue.SomethingCanHappen | packages/jobs-postgres/src/index.ts:214-320 | While an operation has not settled, the first such one can start, be answered or return |
| ConnectionQueue.StepsAreNearer | packages/jobs-postgres/src/index.ts:235-298 | Each of those steps lowers a measure that only a further statement of a body raises, by one |
| ConnectionQueue.AbandonedMayCommit | packages/jobs-postgres/src/index.ts:264-320 | A run in which the caller is told of an abort and the database commits |
| ConnectionQueue.CallerIsAnsweredOnce | packages/jobs-postgres/src/index.ts:309-320 | What a caller has got stays what it got, whatever happens later |
| ConnectionQueue.DrainedIsFinal | packages/jobs-postgres/src/index.ts:331-352 | A closed store whose operations have settled never causes SQL again |
| QueueFacts.OperationsAreCalls | packages/jobs-postgres/src/index.ts:214-216 | There is one operation for each call without a fired signal to a store not closed before, in the order of the calls |
| QueueFacts.AbortedExactlyWhen | packages/jobs-postgres/src/index.ts:217-234 | An operation counts as aborted exactly when its signal fired or its store was closed |
| QueueFacts.SentExactlyWhen | packages/jobs-postgres/src/index.ts:235-294 | In every run an operation has sent BEGIN, a statement, COMMIT or ROLLBACK exactly when something prompted it: its turn, its body, a body that returned well, a failure or an abort; the first three never after an abort |
| QueueFacts.OnlyRollbackAfterAbort | packages/jobs-postgres/src/index.ts:158-163 | Once aborted an operation sends nothing but ROLLBACK, whatever happens next, and nothing at all if it had not started |
| QueueFacts.TheFirstAnswers | packages/jobs-postgres/src/index.ts:309-320 | A caller waits exactly as long as its operation has neither been aborted nor settled, and which came first answers it |
| QueueFacts.CallersHearOfTheBody | packages/jobs-postgres/src/index.ts:261-298 | A caller is told of success only if the body returned well, and without a transaction of failure only if the body failed |
| Versions.CheckVersions | packages/migrations/src/runner.ts:232-243 | Finds the first unsafe or repeated version |
| Versions.NoneIsBadWhen | packages/migrations/src/runner.ts:232-243 | None is found exactly when all versions are safe integers and different |
| Embedded.RefusesExactly | packages/migrations/src/embedded.ts:73-174 | A run goes ahead exactly when versions are safe and distinct, the ledger has its columns and each of its rows is explained by the bundle |
| Embedded.RerunReachesTheSame | packages/migrations/src/embedded.ts:54-71 | After a failure at any migration, rerunning reaches the database and ledger of one uninterrupted run |
| Embedded.AnyNumberOfFailures | packages/migrations/src/embedded.ts:54-71 | The same for any number of failed runs, wherever each failed |
| Embedded.CompletedRunMatchesBundle | packages/migrations/src/embedded.ts:54-71 | After success the ledger's versions are the bundle's, and a further run is accepted, applies nothing and changes nothing |
| EmbeddedFacts.CompletedRunRecords | packages/migrations/src/embedded.ts:54-71 | A completed run leaves the rows there were and behind them one for each migration that had none, ascending, with its name and checksum, and the data after just their up texts |
| EmbeddedFacts.EditsAreRefused | packages/migrations/src/embedded.ts:152-196 | From then on a bundle in which a migration the run applied has another checksum is refused as changed |
| EmbeddedFacts.RefusalsAreNamed | packages/migrations/src/embedded.ts:73-174 | Which refusal it is, in the order of the checks, with the version it names: the smallest that changed, else the smallest unknown |
| EmbeddedFacts.ReadyMeans | packages/migrations/src/embedded.ts:93-119 | A missing ledger is created with its four columns, one without checksums gains an empty column, and the rest stays |
| EmbeddedRunner.EnsureLedger | packages/migrations/src/embedded.ts:93-119 | Creates the ledger or its checksum column, or refuses a table without the required columns, or fails without a trace exactly when a call did |
| EmbeddedRunner.VerifyLedger | packages/migrations/src/embedded.ts:152-174 | Reports the first changed checksum, else the first unknown version |
| EmbeddedRunner.ApplyMigration | packages/migrations/src/embedded.ts:176-196 | A migration is applied and recorded or neither, unless the rollback fails too |
| EmbeddedRunner.ApplyPending | packages/migrations/src/embedded.ts:63-70 | The loop applies the pending migrations in ascending order, or stops with just those before the failing one |
| EmbeddedRunner.RunEmbedded | packages/migrations/src/embedded.ts:54-71 | Every outcome of a run and the state it leaves; it succeeds or is refused exactly when every call on the connection succeeded |
| EmbeddedRunner.StoppedRunResumes | packages/migrations/src/embedded.ts:176-196 | What a failed run leaves behind leads to the uninterrupted result |
| RunnerFacts.DownToExactly | packages/migrations/src/runner.ts:149-188 | A rollback succeeds exactly when every version to revert has a down section and no newer row lacks a definition; then it reverts, strictly descending, all and only the defined applied versions above the target |
| RunnerFacts.FailsAt | packages/migrations/src/runner.ts:149-188 | A rollback that fails has stopped at the newest row above the target without a usable down section, and has done exactly what a rollback to that version does |
| RunnerFacts.UpThenDownToRestores | packages/migrations/src/runner.ts:119-188 | Up followed by downTo restores data and ledger when pending versions are above the target and each down section undoes its up section |
| RunnerFacts.UpCompletes | packages/migrations/src/runner.ts:119-147 | After up every defined version is recorded exactly once and nothing is pending |
| RunnerFacts.ApplyKeepsChecks | packages/migrations/src/runner.ts:133-145 | After any number of applied migrations the checksum checks still pass and versions stay distinct |
| RunnerFacts.AppliedMembers | packages/migrations/src/runner.ts:193-200 | Status reports as applied exactly the recorded versions that have a definition |
| RunnerFacts.InMemoryRecordsTexts | packages/migrations/src/testing.ts:13-31 | On the memory connection applying appends the up texts in order and rows without checksums |
| RunnerFacts.InMemoryChecksVersionsOnly | packages/migrations/src/testing.ts:13-31 | And a later call finds nothing to object to but the versions |
| LedgerChecks.PassesExactly | packages/migrations/src/runner.ts:202-243 | Every operation goes ahead exactly when versions are safe and distinct and the connection computes each recorded checksum from the migration of its version, if there is one |
| LedgerChecks.RefusalsAreNamed | packages/migrations/src/runner.ts:202-243 | Otherwise which refusal it is, and that it names the first row not vouched for |
| LedgerChecks.LedgerAfterUp | packages/migrations/src/runner.ts:133-145 | After up the ledger is what it was and behind it one row for each migration applied, with its name and the checksum of its up text if the connection computes any |
| LedgerChecks.ApplyingRunsTheTexts | packages/migrations/src/runner.ts:133-145 | Applying runs just the up texts, in order |
| LedgerChecks.EditsAreRefused | packages/migrations/src/runner.ts:119-230 | A migration edited after it was applied on a connection with checksums is refused from then on |
| LedgerChecks.DownDoes | packages/migrations/src/runner.ts:150-171 | One step down runs the down text of the greatest recorded version and takes out its row, or says what is missing |
| MigrationRunner.VerifyLedger | packages/migrations/src/runner.ts:202-230 | Reports the first row that cannot be verified or was edited, or that a call failed, exactly when one did |
| MigrationRunner.Up | packages/migrations/src/runner.ts:119-147 | Applies all pending migrations in order, or stops having recorded just those before the failing one; it fails other than by a refusal exactly when a call did |
| MigrationRunner.RevertLatest | packages/migrations/src/runner.ts:150-171 | Reverts the greatest recorded version, or says why not; it fails other than by a refusal exactly when a call did |
| MigrationRunner.ListStatus | packages/migrations/src/runner.ts:193-200 | The definitions in order with their applied flags |
| MigrationRunner.RollbackTo | packages/migrations/src/runner.ts:174-188 | Terminates; does what DownTo says unless a call fails, and then it stands at a point from which calling it again finishes the job, but for the effect of SQL that failed without a transaction |
| Scanner.ReadIdentifier | packages/cockroach/src/introspect.ts:109-132 | The reading loop computes IdentifierAt |
| Scanner.IdentifierReadsBack | packages/cockroach/src/introspect.ts:30-32 | Anywhere in a text a quoted identifier is read back with its exact end if and only if no further quote follows |
| Scanner.ReadIsQuoted | packages/cockroach/src/introspect.ts:109-128 | Whatever is read from a quote on is the quoted form of the name returned |
| Scanner.UnquoteAgrees | packages/cockroach/src/introspect.ts:64-66 | The unquoter and the reader agree on every quoted identifier |
| Scanner.UnquoteInverts | packages/cockroach/src/introspect.ts:30-66 | Unquoting undoes quoting and leaves alone what is not quoted on both sides |
| Scanner.WordReadsBack | packages/cockroach/src/introspect.ts:129-131 | Anywhere in a text a bare word is read with its exact end if and only if it does not go on |
| Scanner.ReadIsWord | packages/cockroach/src/introspect.ts:129-131 | What is read where no quote stands is such a word, and nothing only where none begins |
| Scanner.MatchingParenthesis | packages/cockroach/src/introspect.ts:134-157 | Finds the first closing parenthesis outside quotes that brings the level back to zero, if there is one |
| Scanner.BalancedOuterParentheses | packages/cockroach/src/introspect.ts:68-90 | Holds exactly when the opening parenthesis is matched by the last character |
| Scanner.ScannersAgree | packages/cockroach/src/introspect.ts:68-157 | For text that opens with a parenthesis the one scanner accepts exactly when the other finds the match at the last character |
| Scanner.StripOuterParentheses | packages/cockroach/src/introspect.ts:92-96 | Terminates and computes the stripped text |
| Scanner.StripIsIdempotent | packages/cockroach/src/introspect.ts:92-96 | Stripping twice is stripping once |
| Scanner.StripKeepsTheCore | packages/cockroach/src/introspect.ts:92-96 | Only white space and equally many opening and closing parentheses are taken away |
| Scanner.StripsJustPairs | packages/cockroach/src/introspect.ts:92-96 | Parentheses are taken away exactly when they are the outermost pair, one matching the other |
| Lifecycle.EveryHookOnce | packages/app/src/application.ts:108-173 | In a complete life no hook runs twice, each started extension is stopped and no other, and every shutdown hook runs |
| Lifecycle.LifeIsOrdered | packages/app/src/lifecycle.ts:36-66 | In a complete life come the init hooks, the bootstrap hooks and the starts, each in order, and then the stops and the shutdown hooks, each in reverse |
| Lifecycle.PassesAreComplete | packages/app/src/lifecycle.ts:36-48 | No bootstrap hook runs before every init hook has, and no extension starts before both passes are complete |
| LifecycleRuns.CalmRunsAreExact | packages/app/src/application.ts:103-191 | Without calls from inside a first hook, the calls of any run are the beginning of a life, and once the application is stopped or has cleaned up they are a whole one |
| LifecycleRuns.EveryLifeEnds | packages/app/src/application.ts:103-191 | From any state of any run, calls from inside the first hooks included, the hooks return and settle at most as often as a measure of the state says: every start and every disposal ends |
| LifecycleRuns.SomethingCanSettle | packages/app/src/application.ts:103-191 | And until then, in any run, a first hook can return or something that is awaited can settle |
| LifecycleRuns.QuietMeans | packages/app/src/application.ts:103-191 | What a run without calls from inside a first hook has come to when nothing is awaited: running or cleaned up without a disposal; with one, stopped, or cleaned up exactly if the start failed |
| LifecycleRuns.FailureIsFinal | packages/app/src/application.ts:142-154 | A hook or extension that fails during a start leads to its clean-up, never to a running application |
| LifecycleRuns.InitInWindow | packages/app/src/application.ts:178-184 | An init from inside a first hook calls that hook again, so the calls are those of no life, whatever follows |
| LifecycleRuns.DisposeInWindow | packages/app/src/application.ts:156-191 | A dispose from inside a first hook is safe, in every continuation, if and only if there is no extension and no shutdown hook |
| LifecycleRuns.NeverStopped | packages/app/src/application.ts:156-191 | A concrete run in which the dispose completes, the extension is started after it and never stopped, whatever follows |
| LifecycleRuns.EveryRunIsExactWhen | packages/app/src/application.ts:103-191 | Every run, calls from inside hooks included, is exact if and only if no instance has a hook that a start calls first |
| Application.Application.Init | packages/app/src/application.ts:178-184 | Performs the init step of such a run: starts unless a start is stored, and is refused once disposal was asked for |
| Application.Application.Dispose | packages/app/src/application.ts:156-191 | Performs the dispose step: waits for the stored start, or begins to stop, or has nothing to do |
| Application.Application.Return | packages/app/src/application.ts:182-183 | The first hook hands back its promise, and its start is stored |
| Application.Application.Settle | packages/app/src/application.ts:133-173 | Performs the step for whatever was awaited: the next hook, extension, stop or shutdown, or the end |
| Application.Application.FindInit | packages/app/src/lifecycle.ts:41-48 | The first pass goes on to the next instance with the hook, then to the second pass |
| Application.Application.StopEntered | packages/app/src/application.ts:108-122 | Entered extensions are stopped last first, and then the list is emptied |
| Application.Application.ShutDown | packages/app/src/lifecycle.ts:51-66 | The reverse pass goes on to the next instance with a shutdown hook, also after one that threw |
| ExtensionRuns.StopsAreOrdered | packages/jobs/src/extension.ts:67-73 | In one plan scheduler stops precede worker stops, which precede store closes, each kind last one first, none twice |
| ExtensionRuns.CalmRunsAreTidy | packages/jobs/src/extension.ts:34-97 | In every run without a valid stop from inside another's first call, the stops called are those of one plan in its order: none twice, schedulers first, stores last |
| ExtensionRuns.TidyExactlyWhenCalm | packages/jobs/src/extension.ts:42-97 | When a run has come to its end, its stops are ordered and called once if and only if no valid stop was called from inside another's first call |
| ExtensionRuns.CalmMeansOnePlan | packages/jobs/src/extension.ts:42-45 | Such a call is exactly what makes a second plan; a plan without calls has no inside |
| ExtensionRuns.EveryRunIsTidyWhen | packages/jobs/src/extension.ts:34-97 | Every run of an extension is tidy if and only if it has no participants and no stores |
| ExtensionRuns.StoppedTwice | packages/jobs/src/extension.ts:42-80 | A run in which a stop from inside another's first call repeats its calls, among them a scheduler's after a worker's |
| ExtensionRuns.StartedAreStopped | packages/jobs/src/extension.ts:34-97 | When a run has come to its end, every started participant has been stopped if and only if none was entered after the last plan was made |
| ExtensionFacts.WorkersStartFirst | packages/jobs/src/extension.ts:36-54 | A scheduler is started only once every worker has been |
| ExtensionFacts.StartsComeInOrder | packages/jobs/src/extension.ts:36-54 | In every run participants are started workers first, each kind in its order, and none twice |
| ExtensionFacts.AllAreStarted | packages/jobs/src/extension.ts:36-54 | Unless one throws, all participants have been started by the time start has returned |
| ExtensionFacts.ThrownStartIsOver | packages/jobs/src/extension.ts:36-54 | A participant whose start throws ends the start for good, whatever is called later |
| ExtensionFacts.GraceDecides | packages/jobs/src/extension.ts:57-64 | The first stop makes a plan exactly when its grace period is from 0 to 2^31 - 1, and is otherwise remembered as refused |
| ExtensionFacts.ErrorsAreCounted | packages/jobs/src/extension.ts:74-97 | In every run the errors of a stop are just its failed calls |
| ExtensionFacts.TheOutermostIsRemembered | packages/jobs/src/extension.ts:42-45 | However many plans are made inside one another, in the end it is the outermost whose outcome later stops are given |
| ExtensionRuns.RefusedStopIsFinal | packages/jobs/src/extension.ts:42-64 | A run that starts a worker and never stops it: a stop with a bad grace period, then a good one |
| ExtensionRuns.StartedDuringStop | packages/jobs/src/extension.ts:36-94 | Another: a start between the awaits of a stop |
| ExtensionRuns.StoppedDuringStart | packages/jobs/src/extension.ts:36-54 | Another: a worker's own start calls stop, and the next worker is started after that |
| ExtensionRuns.NothingIsStoppedUnstarted | packages/jobs/src/extension.ts:49-73 | Whatever calls what from where, no participant is stopped that was not started before |
| ExtensionRuns.EveryRunEnds | packages/jobs/src/extension.ts:34-97 | From any state of any run, calls return and settle at most as often as a measure of the state says |
| ExtensionRuns.SomethingCanSettle | packages/jobs/src/extension.ts:34-97 | And until it has come to its end, a call in progress can return or an awaited one settle |
| JobsExtension.Extension.Start | packages/jobs/src/extension.ts:36-41 | Performs the start step of such a run: once, and up to the call of the first participant |
| JobsExtension.Extension.EnterNext | packages/jobs/src/extension.ts:49-54 | The loops over workers and then schedulers go on: a participant is entered, then its start is called |
| JobsExtension.Extension.Stop | packages/jobs/src/extension.ts:42-80 | Performs the stop step: plans the stops of what has been entered by then and makes the first, unless a stop is remembered or the grace period is bad |
| JobsExtension.Extension.Proceed | packages/jobs/src/extension.ts:74-93 | One call of a plan is done, well or badly, and the next one is made in any case |
| JobsExtension.Extension.Return | packages/jobs/src/extension.ts:43-54 | The innermost call hands back control: the next participant is started, or the stop is remembered, or one that threw goes on to its next call |
| JobsExtension.Extension.Settle | packages/jobs/src/extension.ts:74-96 | When an awaited stop has settled, failed or run out of time, the next one is made |

## Left out

- `snapshot` and the reading of column defaults: the planner starts from snapshots.
- `validatePlan` and other dialect refusals, such as the dropping of constrained columns or changes of primary keys on SQL Server.
- That a foreign key's target columns must be unique in the target table; closure asks only that they exist.
- The wording of SQL statements and of error messages; an error is its kind and the name or version it reports.
- PlanCorrect.PlanIsCorrect: the target keeps every installed extension and does not record the per-column key flag, because the planner never drops an extension and does not compare that flag.
- PlanCorrect.DownPlanWalksBack: plans that create an extension are excluded, because their down form is refused.
- `listDead`, whose ordering is by time of death; that every dead row can be decoded is stated.
- Malformed database rows: the decoders' type errors.
- PreparedStatements.Connection.Query: the pass-through of queries that are not texts, of the backend-pid query and of stores without prepared statements, which touch neither map nor server names.
- ConnectionQueue.OperationsRunInCallOrder: operations are values moved by events rather than an object, because any number of asynchronous bodies are in progress at once; pools, whose connections are not shared, and the lists of cleanup errors are not modelled.
- Timers and deadlines as durations: an abort or a stop that runs out of time may happen at any point.
- Connections that report only version numbers, the warning about DDL outside transactions, and drivers' own transaction code.
- `applied_at` in the ledger, a clock reading that nothing compares.
- Lazily loaded modules, which add instances while an application runs.
- How errors of several failed hooks are wrapped into one; that they do not stop the pass is stated.
- The choice between a table column and an expression for an index, and the search for index predicates in a CREATE statement.
