# A verified model of the fx-quotes queue

fx-quotes is a durable job queue with leases and fencing in PostgreSQL, fed by an exact decimal
parser and a retry policy. This project models that queue, its readers, its recovery, its
migrations and the arithmetic around it, and proves what they promise.

`dafny verify dfyconfig.toml` checks the whole project.

## How the model is built

- `Queue.dfy` is the database: the rows of `quote_updates`, the rows of `latest_quotes`, the
  `request_seq` counter, the database clock and the transaction that holds the admission lock. Every
  SQL statement is one atomic step with its own parameters (the rows that `SKIP LOCKED` skips, the
  lease, the token, the batch size). Any call of any worker, also of one that was delayed or has lost
  its claim, is a step with some token at some time, so every run of any number of workers and
  replicas is a sequence of steps. `Disciplined` is all that is asked of the steps, and `Service.dfy`
  proves that the worker code keeps to it.
- An admission is four steps: take the lock, take the snapshot, decide on the snapshot and insert,
  commit or roll back. Steps of all other transactions may come in between.
- `Invariants.dfy` proves what every step keeps, `Runs.dfy`, `Fairness.dfy` and `Lease.dfy` prove
  properties of whole runs. The measure behind most of them is `Invariants.Phase`, twice the attempt
  number less one for a held claim: each transition of a row raises it by exactly one.
- `Store.dfy` and `Service.dfy` are the code itself: classes whose methods change the shared
  `Database` and are proved to make exactly the steps of `Queue.dfy`. What other replicas do between
  two statements is a parameter of the method, and so is a statement that did not run or whose
  reply was lost.
- `Workers.dfy` adds what a worker knows: each of its passes holds the token that its own claim
  returned, and writes with that token only (`Workers.LivePassIsNotLost` shows that the service does).
  `Calls.dfy` puts calls of `CreateOrGet` into a run and says what their callers are told.
- `Rate.dfy`, `Decimal.dfy`, `Retry.dfy` and `Provider.dfy` hold the arithmetic, `Reads.dfy` the way
  from rows to entities and response bodies, `Recovery.dfy` the batches, `Migrations.dfy` the ledger
  of applied scripts.

Assumptions: statements are atomic and read one value of a database clock that never goes back; the
advisory lock excludes other admissions; a rolled back transaction has no effect; `MaxAttempts` is at
least 1, and it and `MaxActive` are the same in all replicas for a whole run; the provider adapter
does not set a failure code of its own (true of internal/adapter/frankfurter/provider.go:166-168).
The hash behind the jitter is an arbitrary function. Ids are not assumed to be fresh: an id that is
taken makes the insert fail. Which texts are spellings of which stored id is the UUID parser's
knowledge, a parameter of the store. The names of the migrations come sorted and distinct, as
`sort.Strings` leaves them.

## Where a promise needs a condition

- A request that commits late can stand ahead of an overdue one: its `next_attempt_at` is the time of
  its insert, not of its commit. `Fairness.OvertakenIff` gives the exact condition,
  `Fairness.LateCommitOvertakes` a run where it happens, and the bound of `Fairness.NoStarvation`
  counts the one insert that can be in flight.
- The configuration accepts a lease of exactly the provider timeout plus one second. With the clock
  and the stored lease truncated to microseconds, that is one reading short: a recovery can come
  before the last write. `Workers.SafeIff` gives the exact condition under which no run can take the
  row from a pass, `Workers.ConfiguredLease` what it means for the configuration.
- A snapshot from before the admission lock breaks the capacity bound:
  `StaleSnapshot.BreaksCapacity`, exactly when `StaleSnapshot.OverfillsIff` says. The code takes it
  after the lock, and then the bound holds.

## Model

| member | source | states |
|---|---|---|
| Queue.First | internal/adapter/postgres/queue.go:28-31 | the selected row is on the list and no listed row precedes it; nothing is selected only if nothing is listed |
| Queue.ClaimTakesEarliest | internal/adapter/postgres/queue.go:28-31 | on the columns: the selected row is pending, due and not locked, with the smallest (`next_attempt_at`, `request_seq`) of all such rows; nothing is selected exactly if there is none |
| Queue.RecoveryTakesEarliest | internal/adapter/postgres/queue.go:130-132 | on the columns: the selected row is processing, its lease has run out, it is not locked, and it has the smallest (`lease_until`, `request_seq`) of all such rows; nothing is selected exactly if there is none |
| Runs.OwnedIff | internal/adapter/postgres/queue.go:84-85 | the fence finds the row that has this id, is processing and is on this attempt, and finds none exactly if there is none |
| Queue.FindKey | internal/adapter/postgres/store.go:70-72 | a present key finds a row with it, an empty key finds nothing |
| Invariants.BackgroundAdvances | internal/adapter/postgres/queue.go:25-134 | claim, complete, retry, fail and recover leave each row alone or move it by exactly one transition of its life cycle, into a row that satisfies every constraint, and touch neither the admission nor the counter |
| Invariants.BatchPointwise | internal/adapter/postgres/queue.go:124-133 | a batch recovers expired rows only, each at most once |
| Invariants.BatchReleases | internal/adapter/postgres/queue.go:125-133 | a row that a batch changed was out of its lease and not locked; below the attempt limit it is pending and due now, at the limit it is failed now with attempts_exhausted |
| Invariants.BatchTakesEarliest | internal/adapter/postgres/queue.go:132 | on the columns: a row that a batch recovers is no later by `lease_until`, then `request_seq`, than any row whose lease is still out after it |
| Invariants.UpsertElects | internal/adapter/postgres/queue.go:63-68 | after the upsert the pair's entry is a copy of its completed row with the greatest source date and request, whether or not the new row wins |
| Invariants.LatestComplete | internal/adapter/postgres/queue.go:49-68 | a completion keeps the latest projection of all pairs |
| Invariants.EvolveKeepsCapacity | internal/adapter/postgres/store.go:75-76 | rows that only evolve never become more active, so a count made on a snapshot stays an upper bound |
| Invariants.ExecuteKeepsInv | internal/adapter/postgres/store.go:70-80 | a decision made on the snapshot is still right for the rows as they are when the insert runs |
| Invariants.CommitKeepsInv | internal/adapter/postgres/store.go:90-93 | committing the insert keeps capacity, unique ids and keys, and the order of `request_seq` |
| Invariants.StepKeepsInv | internal/adapter/postgres/migrations/001_quotes.sql:1-40 | every step keeps the row shapes and column checks, the attempt limits, unique ids and keys, the capacity bound and the latest projection |
| Invariants.ReachableInv | internal/adapter/postgres/migrations/001_quotes.sql:16-25 | all of that in every state of every run from the empty tables |
| Invariants.RunEvolves | internal/adapter/postgres/queue.go:25-134 | over any run no row disappears or changes its request, no phase is visited twice, finished rows stay as they are and the clock does not go back |
| Runs.TokenIssuedOnce | internal/adapter/postgres/queue.go:25-31 | each (row, attempt) token is issued by at most one claim of a run |
| Runs.TokenConsumedOnce | internal/adapter/postgres/queue.go:49-54 | each token is consumed by at most one completion, retry, failure or recovery of a run |
| Runs.HeldWasIssued | internal/adapter/postgres/queue.go:25-31 | a token that is held was issued by an earlier claim |
| Runs.WriteFence | internal/adapter/postgres/queue.go:49-106 | a write changes the tables if and only if its token is current and its values are accepted, and then no other row |
| Runs.ConsumedTokenIsDead | internal/adapter/postgres/queue.go:81-106 | after a token is consumed every later write with it leaves both tables as they are |
| Runs.FinishedIsFinal | internal/adapter/postgres/queue.go:84-101 | completed and failed rows never change again |
| Runs.WorkIsConserved | internal/adapter/postgres/queue.go:26-31 | the phases of the rows add up to the number of row transitions the run has made |
| Runs.StepWork | internal/usecase/quote/service.go:74-91 | the work that active rows have left drops by at least the number of transitions of the step |
| Runs.BoundedWork | internal/usecase/quote/service.go:77-91 | N admissions allow at most 2 * MaxAttempts * N row transitions |
| Runs.KeyCreatesOnce | internal/adapter/postgres/store.go:70-78 | a key creates at most one request in a run |
| Runs.ReplayFindsTheRequest | internal/adapter/postgres/store.go:79-93 | every later call with the key is answered with that request as of its snapshot, or with a conflict for another pair, at any capacity and in any state, and changes nothing |
| Runs.SnapshotSeesCreation | internal/adapter/postgres/store.go:57-72 | the snapshot of any admission after the creation shows the created request |
| Runs.EmptyKeyNeverReplays | internal/adapter/postgres/store.go:71-74 | a call without a key is never answered from an existing request |
| Runs.AdmissionIff | internal/adapter/postgres/store.go:70-89 | inserted exactly if the key and the id are new and the snapshot has room; answered from an existing row exactly if the key exists now; full exactly if the key is new and the snapshot has no room |
| StaleSnapshot.OverfillsIff | internal/adapter/postgres/store.go:66-68 | in any state an admission overfills the queue if and only if the queue is full, its snapshot still had room, and key and id are new |
| StaleSnapshot.BreaksCapacity | internal/adapter/postgres/store.go:66-68 | the machine that takes snapshots before the lock fills the last slot twice, from every state with one free slot |
| Calls.CreatedIff | internal/adapter/postgres/store.go:90-93 | in any run a keyed call reports a created request if and only if it got the lock, its last step created the request of its key, and the reply was not lost |
| Calls.CreatedOnce | internal/adapter/postgres/store.go:70-78 | two calls of a run that are both told they created the request of one key are the same transaction |
| Calls.ReplayIsAnswered | internal/adapter/postgres/store.go:79-93 | once a key has created a request, whether or not its caller was told, every later call with the key that gets the lock is answered with that request, or a conflict for another pair, at any capacity, and changes nothing |
| Calls.ReplayNamesTheCreated | internal/usecase/quote/service.go:22-31 | a later call with the key and pair of a created request names the same id as not created, or learns nothing because of an outage |
| Calls.TurnedAwayIff | internal/adapter/postgres/store.go:76-83 | a call is turned away for capacity if and only if its key is new and its snapshot had no room |
| Calls.CreatedExactly | internal/adapter/postgres/store.go:79-93 | for every key, also none: created is reported if and only if the last step of the call added a row and the reply arrived; the row has the id, the pair and the key of the call, is pending and due at the time of the statement, and is what the reply describes |
| Calls.ExistingExactly | internal/adapter/postgres/store.go:70-89 | an existing request is named if and only if a row has the key and the pair, with that row's id, and a conflict is reported if and only if a row has the key and another pair |
| Calls.RejectedExactly | internal/adapter/postgres/migrations/001_quotes.sql:2-5 | the insert is refused by a constraint if and only if the key is new, the snapshot had room and the id is taken |
| Runs.RunTimely | internal/adapter/postgres/queue.go:50-129 | over any run a request is finished between its creation and the present, and nothing is dated in the future |
| Runs.LatestStep | internal/adapter/postgres/queue.go:63-68 | only completions touch the latest quotes, and they only move entries forward |
| Runs.LatestNeverGoesBack | internal/adapter/postgres/queue.go:61-68 | over any run an entry is never removed and never goes back in source date and request order |
| Fairness.NeverOvertaken | internal/adapter/postgres/queue.go:81-85 | no create, retry or recovery puts work ahead of an overdue row, the insert in flight being counted from its execution |
| Fairness.OvertakenIff | internal/adapter/postgres/store.go:73-90 | a committed row appears ahead of an overdue one if and only if an insert executed before that time commits now |
| Fairness.LateCommitOvertakes | internal/adapter/postgres/migrations/001_quotes.sql:9 | a run, for a lease of any length, in which that happens after a recovery |
| Fairness.ClaimProgress | internal/adapter/postgres/queue.go:28-30 | a claim that may take an overdue row takes it or a row ahead of it |
| Fairness.AheadBelowCapacity | internal/adapter/postgres/store.go:76 | fewer than MaxActive requests stand ahead of an overdue one |
| Fairness.NoStarvation | internal/adapter/postgres/queue.go:25-31 | in any run, MaxActive claims, or one more than stand ahead, have claimed an overdue row that is not locked |
| Lease.ClaimOutlastsItsLease | internal/adapter/postgres/queue.go:130-132 | until its lease runs out a claim survives every run in which nobody writes with its token |
| Workers.TokensAreExclusive | internal/adapter/postgres/queue.go:25-31 | in every run of any number of passes that claim and write with what their own claim returned, no two passes hold the same token |
| Workers.OthersDoNotWrite | internal/usecase/quote/service.go:45-57 | while a pass fetches, no statement of any other pass, recovery or admission writes with its token |
| Workers.LivePassOwnsItsRow | internal/adapter/postgres/queue.go:130-132 | whatever all others do, a pass owns its row until the lease ends on the database clock |
| Workers.SafeIff | internal/app/config/config.go:122-124 | times in nanoseconds, clock in microseconds: no run of the others can take the row from a pass that writes within a budget after its claim if and only if the lease covers the budget |
| Workers.ConfiguredLease | internal/app/config/config.go:122-124 | with the smallest lease that the configuration accepts a run can take the row before the last write, and two microseconds more exclude it |
| Workers.LivePassIsNotLost | internal/usecase/quote/service.go:41-57 | a pass of the service without fault or cancellation whose lease covers it writes with its own token, and is refused exactly for a bad value and never reported as lost |
| Lease.PendingWaitsForItsTime | internal/adapter/postgres/queue.go:29 | a pending row is left alone until its time has come |
| Lease.RetryHonoursItsDelay | internal/adapter/postgres/queue.go:81-85 | after a retry nobody claims the request before the delay has passed |
| Lease.RetryFallsDue | internal/adapter/postgres/queue.go:81-85 | a retried request that has not been claimed since is due as soon as the delay has passed, at exactly that time |
| Lease.LockedIsLeftAlone | internal/adapter/postgres/queue.go:30 | a claim and a recovery never change a row that somebody else has locked |
| Lease.ConfigCoversWholeMicros | internal/app/config/config.go:122-124 | for whole microseconds the configuration check is exactly the premise of the guarantee without delay |
| Lease.CoversIff | internal/adapter/postgres/queue.go:27 | in nanoseconds the lease covers a budget if and only if it exceeds it by what truncation can lose |
| Recovery.BatchShrinksBacklog | internal/adapter/postgres/queue.go:130-133 | a batch of size n takes n expired rows off the backlog, or all of them |
| Recovery.BulkReleases | internal/adapter/postgres/queue.go:125-133 | recovered in bulk, exactly the rows whose lease has run out and that nobody has locked are released |
| Recovery.BatchesEqualBulk | internal/adapter/postgres/queue.go:111-149 | batches of any sizes give the rows of one bulk recovery if and only if together they cover the backlog |
| Recovery.Drain | internal/adapter/worker/pool.go:74-82 | the recovery loop ends although calls may time out, committed or not, with the rows of one bulk recovery and a batch that never grew |
| Recovery.Round | internal/adapter/postgres/queue.go:111-119 | a call shrinks its batch by timing out, or shrinks the backlog, or reports that nothing was left |
| Store.Database.SelectFirst | internal/adapter/postgres/queue.go:28-30 | the loop over the rows finds the first row of a work list |
| Store.Database.UpsertLatest | internal/adapter/postgres/queue.go:63-68 | the upsert in place changes the one entry, to the value that elects the winner |
| Store.Store.ClaimNext | internal/adapter/postgres/queue.go:20-39 | makes the claim step, or nothing if the statement did not run, and returns the claimed row, which nobody had locked, on its next attempt and leased from now in whole microseconds, or that there is no work |
| Store.Store.Complete | internal/adapter/postgres/queue.go:41-76 | makes the completion step on both tables and answers it: a completed update whose quote has exactly the given rate, provider and source date and the time of the write, or a lost ownership, or a refused value |
| Store.Store.Retry | internal/adapter/postgres/queue.go:78-93 | makes the retry step and returns the pending request, due after exactly the given delay in whole microseconds, or a lost ownership |
| Store.Store.Fail | internal/adapter/postgres/queue.go:95-109 | makes the failure step and returns the failed request with exactly the given code, or a lost ownership, or a refused code |
| Store.Store.RecoverExpired | internal/adapter/postgres/queue.go:111-119 | recovers one batch, the leases that ran out first, and returns each recovered row exactly once, pending and due now or failed with attempts_exhausted, min(batch, backlog) of them; keeps the size within 1 to 100 and halves it only on its own deadline |
| Store.Store.RecoverExpiredBatch | internal/adapter/postgres/queue.go:121-150 | rows that the loop changed precede, by `lease_until` and `request_seq`, every row whose lease is still out; the updates are exactly the rows it changed, each once, as they are afterwards |
| Store.Store.CreateOrGet | internal/adapter/postgres/store.go:36-94 | refuses long keys, bad pairs and a wait for its gate that is given up before anything runs, releases its gate, and otherwise makes exactly the run lock, snapshot, execute, end around the steps of others; its one possible reply is fixed by that run and the outage |
| Store.Store.Admit | internal/adapter/postgres/store.go:52-93 | runs the transaction if and only if the lock becomes free before the wait is given up; a positive reply means it committed, an error that it rolled back or that the reply of the commit was lost |
| Store.Store.GetUpdate | internal/adapter/postgres/store.go:96-109 | not found exactly if the text is no id or no row has the id that it spells, otherwise the row as an entity |
| Store.Store.GetLatest | internal/adapter/postgres/store.go:111-133 | not found exactly if the pair has no entry, otherwise the quote that the entry stands for |
| Service.Service.ProcessNextUpdate | internal/usecase/quote/service.go:41-57 | with any steps of others between claim and write: completed means that the update carries exactly the fetched rate, provider and date and that the pair's entry serves them unless another completed row beats it; retried means a retryable error below the limit and the delay of the policy; failed means the code that the error calls for; refused exactly for a bad value, lost exactly if the token was no longer current (or the call was cancelled); after an error the invariant holds whether or not the write was committed |
| Service.Service.Finish | internal/usecase/quote/service.go:59-72 | completed only if this token completed its row, with exactly this quote; lost exactly if the token was no longer current and the value was not refused |
| Service.Service.HandleProviderFailure | internal/usecase/quote/service.go:74-111 | retries exactly a retryable error below the attempt limit, after the delay of the policy for the hint and the hash; otherwise fails with the error's own code, or attempts_exhausted for a retryable error, or provider_permanent; lost exactly if the token was no longer current and the code was not refused |
| Reads.ScanUpdate | internal/adapter/postgres/row.go:10-53 | dereferences nil exactly if a rate comes without provider, date or finishing time; otherwise the entity holds what the row holds |
| Reads.ReadRow | internal/adapter/httpapi/dto.go:36-60 | every row of a reachable state is scanned and mapped without error and without losing its quote or failure code |
| Reads.MapUpdate | internal/adapter/httpapi/dto.go:36-60 | fails exactly for a completed update without a quote or a failed one without a known code |
| Reads.StoredRateReadsBack | internal/adapter/postgres/queue.go:51-53 | the rate of a completed update reads back as the text that was stored |
| Reads.LatestEntryOk | internal/adapter/postgres/migrations/001_quotes.sql:32-40 | every reachable entry of latest_quotes satisfies its table's constraints and refers to an existing update of the pair |
| Reads.LatestAgreesWithUpdate | internal/adapter/postgres/store.go:111-133 | the latest quote of a pair is the quote of the winning update |
| Rate.ParseRate | internal/entity/rate.go:10-42 | accepts exactly the positive plain decimals with at most 15 written digits on each side, and returns the canonical text of the same number |
| Rate.AllDigits | internal/entity/rate.go:46-56 | true exactly for a non-empty text of ASCII digits |
| Rate.CanonicalUnique | api/openapi.yaml:189-196 | two texts of the Rate pattern that denote the same number are equal |
| Rate.ReadsSameIffEqual | internal/entity/rate.go:30-41 | two accepted texts have equal results if and only if they denote the same number |
| Rate.ReadsFixesCanonical | api/openapi.yaml:192 | reading is the identity on the texts of the Rate pattern and on no others |
| Rate.NumericReads | internal/adapter/postgres/row.go:39-43 | every value that the column's check admits is read, as the canonical text of that value |
| Rate.StorageRoundTrip | internal/adapter/postgres/migrations/001_quotes.sql:12 | a canonical rate written to NUMERIC(30,15) and read back is the same text |
| Retry.Backoff | internal/usecase/quote/retry.go:18-32 | computes min(maximum, initial * 2^(attempt - 1)) in terms of the policy's fields for all 64-bit inputs, without overflow, in at most 63 rounds |
| Retry.Delay | internal/usecase/quote/retry.go:33-41 | exactly max(hint, floor + hash modulo spread) for a hint within the backoff, the hint up to the maximum beyond it; between half the backoff and the maximum |
| Provider.RetryAfter | internal/adapter/frankfurter/provider.go:170-193 | digits of any length give that many seconds below 60 and one minute otherwise, a date gives the time left within 0 to one minute, anything else gives 0 |
| Provider.ResponseFailure | internal/adapter/frankfurter/provider.go:112-126 | exactly 408, 429, 500, 502, 503 and 504 may be retried, and only they carry a hint |
| Provider.DecodeQuote | internal/adapter/frankfurter/provider.go:143-163 | refuses exactly texts other than the three-letter codes of the pair, an absent or unacceptable rate or an absent date; otherwise the quote carries the pair, the canonical rate of the number sent, the date and the provider name frankfurter-ecb |
| Provider.ScheduledRetry | internal/app/app.go:68-71 | a hint survives the retry policy and the truncation to microseconds: never below the hint (section 10.2.3 of RFC 9110), never above one minute |
| Migrations.StepKeepsInv | internal/adapter/postgres/migrate.go:37-69 | whatever step a replica makes or fails at, the ledger stays a prefix of the names and the schema is that prefix applied in order |
| Migrations.ExactlyOnceInOrder | internal/adapter/postgres/migrate.go:23-35 | in every run of any number of replicas each script is applied at most once and in order, and all of them once a replica has passed every name |
| Migrations.TransactionCommits | internal/adapter/postgres/migrate.go:37-69 | a committed transaction appends the script and its record together, or nothing if the name is recorded already |
| Migrations.Schema.ApplyMigration | internal/adapter/postgres/migrate.go:37-69 | makes that transaction exactly if nothing fails before its commit, also when the reply of the commit is lost, and changes nothing otherwise |
| Migrations.Schema.RunMigrations | internal/adapter/postgres/migrate.go:23-35 | a run that succeeds leaves exactly the full list applied, whatever other replicas do between its transactions; an undisturbed run without failures succeeds |

## Left out

- HTTP routing, middleware, problem responses, the JSON decoder and OpenAPI serving: plumbing around the calls that are modelled.
- The HTTP client of the provider adapter: a fetch is an arbitrary answer for the requested pair; `DecodeQuote` starts from decoded fields, and calendar dates are numbers.
- Worker goroutines, the wakeup channel, poll and error pauses (internal/adapter/worker/pool.go:55-146): any schedule of steps is allowed, so they restrict nothing that is proved; only the recovery loop is modelled.
- Connection pooling and the lock manager: a wait that is given up is a call that did not run.
- Random ids (internal/adapter/postgres/store.go:135-146): an id is any text, and a clash is an outcome of the insert.
- An admission cut off in its statement: the value of `request_seq` that it may have drawn is drawn in the model.
- Separate readings of `statement_timestamp()` and `clock_timestamp()` inside one statement: a step reads one clock value.
- 64-bit width of `attempt` and `request_seq`: attempts stay within the configured limit of at most 10, and the counter is unbounded.
- Text encodings: strings are sequences of code points, so bytes that are not UTF-8 are not modelled.
- Configuration beyond the lease inequality, application lifecycle, readiness and logging: linear wiring.
