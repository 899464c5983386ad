# Loyalty wallet: a verified model

This project models the points wallet of the repository in Dafny 4.11 and proves what its design
promises: points are counted once, balances never go below zero or lose an update, a retry is safe, a
page walk misses nothing, a logout revokes every token, a migration survives a crash.

`dafny verify dfyconfig.toml` checks everything. Nothing here runs the program.

## How it is built

* `Domain`, `Wallet` – the entities, and `Process`: what one attempt does to accounts and ledger when it
  runs alone.
* `Protocol` – the same attempt as the sequence of SQL statements it issues, interleaved with any number
  of other attempts, raw balance adjustments, account openings and renames, over committed tables, row
  locks and a connection pool. Any statement, begin, commit or rollback may fail at any time.
* `Invariants`, `Runs`, `Linearizability`, `Progress`, `Isolation`, `Answers` – what holds in every state of
  every run of that protocol, what callers are told, and why.
* `Database`, `WalletService` – the service code itself, statement by statement on tables updated in
  place, proved against `Process` and against the batch function.
* `Sorting`, `Batch`, `Ingest` – the batch, and the command line that feeds it.
* `UnitOfWork` – nested `RunInTx` calls. `Migrations`, `Statements` – startup migrations.
* `Timestamps`, `Chronology`, `Instants` – dates as text, their order, and the text of any instant.
* `Cursor`, `Keyset` – cursors and the page walk.
* `Sessions` – users, tokens and session epochs: the interleavings as a run of events, and the code, each
  call of which appends to that run.

`Wallet.Process` is the reference: `walletServiceImpl.go:40-165` read as one function of the committed
tables. `Wallet.Means` says in terms of the request and the tables alone what its answers mean: `Posted`,
`Repeated` and `Grounded`, with `EntryOf` for the audit row. `Protocol.Step` gives the same lines one statement at a time, each on what is committed when it
runs; `Protocol.Ready` says what a statement waits for (an uncommitted row of the same `ref`, the account
row another live transaction updated, a free connection); `Protocol.StepFault` what a failure leads to
(`pkg/postgres/tx.go:22-44`); `Protocol.AdjustStep` the raw adjustment with its two separate statements
(`accountRepositoryImpl.go:165-232`).

An attempt in `Protocol` is a number into the list of calls. Its uncommitted ledger row is its hold on the
`ref`, its uncommitted balance is its hold on the account row. The names of attempts on audit rows and the
list of accepted raw adjustments are history the program does not store; they only serve to state results.

## Results worth reading first

* `Linearizability.Linearizable`, `Linearizability.Serializable`: every answer is the one-at-a-time answer
  at one of the call's own steps, and the books of a run are its accepted attempts run one at a time.
* `Wallet.ProcessMeans`, `Answers.AnswersMean`, `Answers.AcceptancePosts`: what those answers mean;
  `Answers.FailuresHappened`, `Answers.EverybodyIsAnswered`: nobody is told of a failure that did not happen.
* `Runs.Conservation`, `Runs.ExactlyOnce`, `Runs.RowIffAccepted`, `Runs.AllOrNothing`.
* `Progress.NoDeadlock`, `Progress.Completion`, `Progress.MovesBounded`.
* `Isolation.StrangersStepTouchesNothing`; `Batch.SafeReplay`; `Keyset.FollowedWalkIsComplete` and
  `Keyset.WalkEndsIff`; `Sessions.AcceptedIffNoLogoutBetween`; `Migrations.CrashesAreResumed`;
  `Statements.NothingLost`, `Statements.OnlyOneParse` and `Statements.SplittingIsStable`;
  `Chronology.TextOrder` and `Instants.ReadBack`.

## Where the code and its own words differ

The model follows the code.

* `pkg/accounts/account.go:5-6` and `pkg/wallets/transaction.go:25-26` say the balance is the ledger sum.
  Raw adjustments are not in the ledger, so it is the ledger sum plus the accepted adjustments
  (`Runs.Conservation`; `Runs.AdjustedBalanceCanDiffer` ends with 12 points and an empty ledger).
* `pkg/time/time.go:8-9` says stored timestamps sort as text. Trailing zeros of the fraction are dropped, so
  within one second they do not: `Chronology.NotSortable` gives a pair, `Chronology.SortableIff` the exact
  condition.
* `README.md:127-128` says resubmitting a `ref` returns the original outcome. The row is stored with its
  business time in UTC, and a time whose UTC year does not have four digits cannot be read back
  (`Instants.ReadBack`), although its written year did (`Instants.LateIsLost`, `Instants.EarlyIsLost`). A
  retry of such a request is rejected (`Batch.LateReplayIsRejected`), and a listing that meets the row fails.
  `Batch.ReplayOfAccepted`, `Batch.SafeReplay`, `Keyset.TransactionTable.List` and `Keyset.WalkEndsIff` give
  the exact conditions. And a `ref` recorded for an account of another owner reads as not found
  (`Batch.TakenRefReadsAsNotFound`, `Batch.TakenRefOccurs`).
* `cmd/cli/pkg/ingest/csv.go:43` compares the joined header, so a header of fewer, quoted fields passes, and
  a record of as many fields then indexes past its end. `Ingest.ParseCSV` says exactly when,
  `Ingest.ShortHeadersOccur` gives two files; with the five columns it never happens
  (`Ingest.FiveColumnsNeverBreak`, `Ingest.FittingHeader`).
* A raw adjustment answers with the balance it reads back in a second statement, not with the balance it
  produced: `Runs.AdjustedBalanceCanDiffer`, exactly by how much in `Runs.AdjustedBalance`, and when it does
  not in `Runs.AdjustedBalanceExact`.
* `internal/pkg/authentication/emailPasswordAuthenticatorImpl.go:18-21` says a token cannot be revoked before
  it expires; a logout revokes it (`Sessions.AcceptedIffNoLogoutBetween`).

## Model

| member | source | states |
|---|---|---|
| Wallet.ProcessMeans | internal/pkg/wallets/walletServiceImpl.go:40-165 | accepted: the ref is new, an earn adds and a spend takes the points within bounds, the new balance is reported, and one row says so; duplicate: the recorded row and the current balance; rejected: for a ground in the books |
| Wallet.AcceptedIff | internal/pkg/wallets/walletServiceImpl.go:53-155 | accepted exactly when the caller reaches the account, the ref is new and the balance stays within bounds |
| Invariants.UndisturbedKeeps | internal/pkg/accounts/accountRepositoryImpl.go:173-180 | what an attempt knows about its locked row, its claimed ref and the original it read survives every other attempt's step |
| Invariants.ExclusiveKept | internal/pkg/wallets/walletServiceImpl.go:79-82 | no two live transactions hold the same ref or the same account row |
| Invariants.BooksKept | internal/pkg/accounts/accountRepositoryImpl.go:181-221 | every commit keeps each balance equal to its ledger and adjustment sums, within bounds, and refs unique |
| Invariants.TrailKept | internal/pkg/wallets/walletServiceImpl.go:136-147 | every commit keeps the accepted audit rows and the ledger rows in step |
| Runs.RunsKeepInv | internal/pkg/wallets/walletServiceImpl.go:62-164 | all of these hold in every state of every run |
| Runs.Conservation | internal/pkg/accounts/accountRepositoryImpl.go:173-221 | in every reachable state a balance is its ledger sum plus its adjustments and lies between 0 and 2^63-1 |
| Runs.ExactlyOnce | internal/pkg/wallets/walletServiceImpl.go:79-147 | each ref at most once; accepted audit rows equal ledger rows in ref, account, owner and points, in order; every duplicate entry follows the accepted one of its ref in order and in id |
| Runs.OneEntryPerAttempt | internal/pkg/wallets/walletServiceImpl.go:245-262 | a settled attempt has exactly one audit row and it says what the caller was told; others have none |
| Runs.RowIffAccepted | internal/pkg/wallets/walletServiceImpl.go:82-93 | an attempt's row is in the ledger exactly when the attempt was accepted |
| Runs.AllOrNothing | pkg/postgres/tx.go:13-44 | whatever failed, no step of an attempt that is not accepted, finished or abandoned half way, ever changes accounts or ledger, and once done it holds no ref and no row |
| Runs.AbortedWhen | internal/pkg/wallets/transactionRepositoryImpl.go:42-51 | in every state of a run a transaction is aborted exactly when it is rolling back over a statement that raised an error |
| Runs.AbortedOnlyRollsBack | internal/pkg/wallets/transactionRepositoryImpl.go:42-51 | in an aborted transaction the only next step is the rollback |
| Runs.FaultAborts | internal/pkg/wallets/transactionRepositoryImpl.go:42-47 | a statement that fails inside a transaction aborts it there and then |
| Runs.AdjustedBalance | internal/pkg/accounts/accountRepositoryImpl.go:191-231 | a raw adjustment answers its own result plus exactly what was committed before its re-read |
| Runs.AdjustedBalanceCanDiffer | internal/pkg/accounts/accountRepositoryImpl.go:223-231 | two overlapping adjustments where the first is told a balance it did not produce, and the account ends above its empty ledger |
| Runs.AdjustedBalanceExact | internal/pkg/accounts/accountRepositoryImpl.go:191-231 | an adjustment nobody else on the account overlaps is told the balance it produced |
| Runs.LedgerOnlyGrows | internal/pkg/wallets/transactionRepositoryImpl.go:48-51 | the ledger of a later state extends that of an earlier one |
| Linearizability.Linearizable | internal/pkg/wallets/walletServiceImpl.go:40-165 | every accepted, duplicate or rejected answer is `Process` on the committed books at one of the call's own steps, where an acceptance also takes effect |
| Linearizability.Serializable | internal/pkg/wallets/walletServiceImpl.go:76-155 | the committed books of a run are its effective operations performed one at a time in order |
| Answers.FailuresHappened | internal/pkg/wallets/walletServiceImpl.go:157-164 | over every run a storage failure, a failed rollback or a missing audit is told only after a statement of that attempt failed with that cause, and only requests that cannot be acted on are refused |
| Answers.UntroubledIsAnswered | internal/pkg/wallets/walletServiceImpl.go:40-165 | an attempt none of whose statements failed is refused for its request or told what `Process` gives at one of its steps |
| Answers.EverybodyIsAnswered | internal/pkg/wallets/walletServiceImpl.go:40-165 | every run in which an attempt's statements did not fail goes on to one that answers it so |
| Answers.AnswersMean | internal/pkg/wallets/walletServiceImpl.go:40-165 | every answer of every run means what it says on the committed books around one of the call's own steps |
| Answers.AcceptancePosts | internal/pkg/wallets/walletServiceImpl.go:122-155 | an acceptance moves the committed balance by the points, up for an earn and down for a spend, and leaves the row and the one audit entry with that sign |
| Answers.AdjustmentsAreTold | internal/pkg/accounts/accountRepositoryImpl.go:191-231 | what a raw adjustment is told has its ground at one of its own steps: moved and read back, overdrawn, missing or foreign, out of range, or its own failure |
| Progress.SomeoneMoves | internal/pkg/wallets/walletServiceImpl.go:78-134 | while an attempt is unfinished, some unfinished attempt can issue its next statement |
| Progress.LiveTransactionMoves | pkg/postgres/client.go:19-20 | among live transactions one can move even if the pool had no connection left |
| Progress.NoDeadlock | internal/pkg/wallets/walletServiceImpl.go:78-162 | no reachable state is stuck |
| Progress.MovesBounded | pkg/postgres/client.go:19-20 | the pool is never overdrawn and attempts take at most ten steps each |
| Progress.Completion | internal/pkg/wallets/walletServiceImpl.go:78-162 | every run extends to one in which every attempt is done |
| Isolation.StrangersStepTouchesNothing | internal/pkg/accounts/accountRepositoryImpl.go:181-189 | in any run, whoever else is at work, no step of a member who is not the owner changes an account's balance, name or ledger |
| Isolation.StrangersTouchNothing | internal/pkg/accounts/accountRepositoryImpl.go:117-120 | a stretch of a run in which only such members act leaves the account as it was |
| Isolation.ForeignReadsAsMissing | internal/pkg/accounts/accountRepositoryImpl.go:108-120 | a foreign account gives the outcome of a missing one |
| Isolation.ForeignCallNotFound | internal/pkg/wallets/walletServiceImpl.go:57-71 | over any run a member calling on an account never theirs is told not found, or that storage failed |
| Isolation.OwnerScopeIsJoin | pkg/postgres/migrations/0001_init.sql:25-25 | listing by the ledger's owner column equals filtering by the owner of the account |
| Database.Store.Statement | pkg/postgres/tx.go:32-37 | a statement fails exactly when storage does or the transaction is aborted, and inside a transaction that aborts it |
| Database.Store.Commit | pkg/postgres/tx.go:39-43 | keeps everything the transaction wrote, or, exactly when it fails, nothing |
| Database.Store.Rollback | pkg/postgres/tx.go:32-37 | restores what the transaction began with, even when it reports a failure |
| Database.Store.GetAccount | internal/pkg/accounts/accountRepositoryImpl.go:100-133 | returns the row exactly when it exists and is the caller's or the caller reads all; refuses exactly the requests that lack a field |
| Database.Store.UpdateAccountBalance | internal/pkg/accounts/accountRepositoryImpl.go:165-232 | moves a row the caller may write, within bounds, or leaves it and says which guard stopped it |
| Database.Store.CreateTransaction | internal/pkg/wallets/transactionRepositoryImpl.go:30-78 | appends the row exactly when its ref is new and its account exists, never raises on a duplicate, and refuses exactly the rows that lack a field |
| Database.Store.GetTransaction | internal/pkg/wallets/transactionRepositoryImpl.go:205-273 | finds the recorded row of a ref the caller may read, and fails on one whose stored times do not parse |
| Database.Store.CreateEntry | internal/pkg/audit/auditEntryRepositoryImpl.go:26-57 | appends the row under the next id |
| WalletService.Validate | pkg/wallets/walletServiceValidations.go:27-53 | gives no reason exactly for a request with ref, account, user, a kind of earn or spend, and at least one point |
| WalletService.Service.UnitOfWork | internal/pkg/wallets/walletServiceImpl.go:78-155 | succeeds with the outcome and books of `Process` and one matching audit row, or fails for a reason `Process` gives; no request it builds fails validation |
| WalletService.Service.Repeat | internal/pkg/wallets/walletServiceImpl.go:94-115 | a recorded ref answers with its row and the balance the account has now, and one audit row says duplicate |
| WalletService.Service.RunInTx | pkg/postgres/tx.go:22-44 | books and trail are those of the unit of work or unchanged |
| WalletService.Service.Reject | internal/pkg/wallets/walletServiceImpl.go:248-262 | writes the rejection outside the transaction and hands back the error, or the failure of the audit row |
| WalletService.Service.ProcessTransaction | internal/pkg/wallets/walletServiceImpl.go:40-165 | under any failures accepted posts the points with their sign, duplicate gives back the row and the current balance, everything else leaves the books; and one audit entry says it for each request that can be acted on, naming the owner exactly when the account was reached |
| WalletService.Service.ProcessTransactionBatch | internal/pkg/wallets/walletServiceImpl.go:196-243 | under any failures the elements, by business time, say what each attempt did; those marked accepted are, in order, the rows added, and the counters count them; without failures results and books are those of the fold |
| Batch.BatchCounts | internal/pkg/wallets/walletServiceImpl.go:215-242 | accepted, duplicate and rejected add up to the batch |
| Batch.AttemptMeans | internal/pkg/wallets/walletServiceImpl.go:41-165 | an attempt means what it says, or is refused because it cannot be acted on |
| Batch.AppliedInTimeOrder | internal/pkg/wallets/walletServiceImpl.go:206-213 | the batch is applied by business time, equal times in the order of submission |
| Batch.BatchSays | internal/pkg/wallets/walletServiceImpl.go:215-240 | each element says accepted, duplicate or rejected as its attempt was told, with its balance or reason, and the counters count them |
| Batch.SubmissionOrderIrrelevant | internal/pkg/wallets/walletServiceImpl.go:206-213 | with distinct times any permutation gives the same results and books |
| Batch.SafeReplay | internal/pkg/wallets/walletServiceImpl.go:94-115 | for callers who read transactions as widely as accounts, as both roles do, resubmitting accepted and duplicate elements in any order, any number of times, changes nothing and yields each row back as a duplicate, except exactly those refs the batch accepted at a time that does not read back, which are rejected |
| Batch.SafeReplayInTime | internal/pkg/wallets/walletServiceImpl.go:94-115 | for a role's claims and times in UTC years 0000 to 9999 everything resubmitted is a duplicate |
| Batch.ReplayOfAccepted | internal/pkg/wallets/transactionRepositoryImpl.go:213-231 | the retry of an accepted request is a duplicate exactly when its owner asks or the caller reads all transactions, and its times lie in UTC years 0000 to 9999 |
| Batch.LateReplayIsRejected | internal/pkg/wallets/transactionRepositoryImpl.go:260-263 | a member's own accepted request whose retry is rejected |
| Batch.TakenRefReadsAsNotFound | internal/pkg/wallets/walletServiceImpl.go:94-101 | a ref recorded for another owner's account is answered not found to every member who submits it |
| Batch.TakenRefOccurs | internal/pkg/wallets/walletServiceImpl.go:94-101 | two members, each on their own account, of whom the second is told so |
| Batch.AttemptReplays | internal/pkg/wallets/walletServiceImpl.go:94-115 | an attempt is a duplicate exactly when its ref is recorded, its row readable and its times parse, and its account visible; then it changes nothing |
| Batch.RecordedLeaveNoTrace | internal/pkg/wallets/walletServiceImpl.go:94-115 | a batch ends as it would without the elements whose ref was already recorded |
| Sorting.StableSortUnique | internal/pkg/wallets/walletServiceImpl.go:206-213 | the stable sort is the only sequence that is sorted and keeps equal elements in order |
| Sorting.OrderOfDistinct | internal/pkg/wallets/walletServiceImpl.go:206-213 | with distinct keys every permutation sorts alike |
| Ingest.ParseCSV | cmd/cli/pkg/ingest/csv.go:36-88 | every record is in exactly one of rows and errors, under its number, in increasing order; a row says what the columns of its record say, an error what is wrong with it; it panics exactly when the joined header fits with fewer than five fields and a record of as many is indexed past its end |
| Ingest.ParseIntRoundTrip | cmd/cli/pkg/ingest/csv.go:62-66 | a 64-bit number written in decimal reads as itself |
| Ingest.FittingHeader | cmd/cli/pkg/ingest/csv.go:43-45 | a header that passes has at most five fields, and is the expected one exactly when it has five |
| Ingest.FiveColumnsNeverBreak | cmd/cli/pkg/ingest/csv.go:43-69 | with the five columns no file makes the parser panic |
| Ingest.ShortHeadersOccur | cmd/cli/pkg/ingest/csv.go:61-69 | a one-field and a four-field header that pass, each with a record that panics |
| Ingest.SortRows | cmd/cli/pkg/ingest/csv.go:90-99 | the array is left stably sorted by time and line |
| Ingest.SortRowsIsTheOrder | cmd/cli/pkg/ingest/csv.go:92-99 | that is the one permutation ordered by time and line |
| Ingest.BuildRequest | cmd/cli/pkg/ingest/request.go:28-50 | one entry for each row in order, times cut to whole seconds, the blank time left blank |
| Ingest.SortsAgree | internal/pkg/wallets/walletServiceImpl.go:206-213 | the server's sort of the list the command line sends is that list |
| Ingest.AppliedAsSent | internal/pkg/wallets/walletServiceImpl.go:215-240 | so the server runs the batch in the order of the request |
| Ingest.Summarize | cmd/cli/pkg/ingest/summary.go:40-87 | the tallies and the list of rejections for each kind of reply: local errors first, then the rejected elements in order, each with its own ref and reason and the line of the last row with that ref |
| Ingest.LinesByRef | cmd/cli/pkg/ingest/summary.go:51-54 | a ref that repeats keeps its last line |
| Ingest.Submit | cmd/cli/cmd/ingest.go:57-79 | without a reply an error and no summary; with one, of whatever kind, every row sent is accepted, duplicate or rejected, and every rejection is listed |
| Ingest.IngestFile | cmd/cli/cmd/ingest.go:41-80 | records = accepted + duplicates + rejected + local errors whenever a summary comes out, accepted being the rows the server added; and exactly when none does: a panic, a header that does not fit, or no reply |
| UnitOfWork.PostgresTxManager.RunInTx | pkg/postgres/tx.go:13-44 | for any tree of nested calls, on carrying and on plain contexts, the rows of a transaction commit together exactly when the call that began it returns no error, and a transaction around it is left alone |
| UnitOfWork.PostgresTxManager.Exec | pkg/sql/executor.go:19-26 | a statement goes to the transaction of its context, otherwise straight to the pool |
| UnitOfWork.CleanTreeJoins | pkg/postgres/tx.go:20-25 | nested calls join: all rows of the tree on the transaction's context, in order, are left to the outermost commit, and those on plain contexts are committed past it |
| UnitOfWork.AbortedTakesNothing | pkg/postgres/tx.go:32-37 | an aborted transaction takes no further row however its callers tolerate errors |
| UnitOfWork.FunctionErrs | pkg/postgres/tx.go:20-37 | a function returns an error exactly when it says so at its end or a step it reached failed untolerated |
| UnitOfWork.ErrorsSpoil | pkg/postgres/tx.go:32-43 | a failing statement of the transaction, tolerated or not, leaves nothing to commit |
| Statements.SplitStatements | pkg/postgres/migrate.go:80-101 | the two loops compute the list of statements, each nonempty, trimmed, without semicolon or line comment |
| Statements.NothingLost | pkg/postgres/migrate.go:83-101 | the lines joined are the text, each is what is kept of it and a comment, the parts joined by semicolons are what is kept, and the statements are the parts that are not blank, in order, without the white space at their ends |
| Statements.OnlyOneParse | pkg/postgres/migrate.go:83-101 | any lines, parts and statements that account for a text in this way are those of the splitter |
| Statements.SplitUndoesJoin | pkg/postgres/migrate.go:83-101 | any list of well-formed statements survives joining and splitting |
| Statements.SplittingIsStable | pkg/postgres/migrate.go:83-101 | joining the statements found and splitting again gives the same list |
| Migrations.Schema.ApplyFile | pkg/postgres/migrate.go:55-74 | a file's statements and its version commit together or not at all |
| Migrations.Schema.Migrate | pkg/postgres/migrate.go:16-78 | cut off anywhere it leaves exactly the first files applied and recorded; it never applies one twice |
| Migrations.SortFilesIsTheOrder | pkg/postgres/migrate.go:34-34 | the order of application is the only ascending order of the names |
| Migrations.CrashesAreResumed | pkg/postgres/migrate.go:36-75 | after any history of cut-off runs a run finishes exactly when it is not cut off, with every file applied |
| Migrations.Startups | pkg/postgres/migrate.go:16-19 | a finished startup leaves every file's statements applied exactly once in name order |
| Timestamps.ParseFormat | pkg/time/time.go:11-21 | parsing a formatted time gives it back |
| Instants.ReadBack | pkg/time/time.go:11-21 | the stored text of an instant parses exactly when its UTC year lies in 0000 to 9999, and then to the same instant |
| Instants.FormatParse | pkg/time/time.go:11-21 | formatting a parsed stored text gives the stored text |
| Instants.WrittenReadsBack | pkg/time/time.go:11-21 | a time written in any zone is read as its instant, and its stored text parses exactly when that instant lies in those years |
| Instants.LateIsLost | internal/pkg/wallets/transactionRepositoryImpl.go:260-263 | 9999-12-31T23:59:59-01:00 is received and stored, and its text does not parse |
| Instants.EarlyIsLost | internal/pkg/wallets/transactionRepositoryImpl.go:260-263 | the same of 0000-01-01T00:00:00+01:00 |
| Chronology.InstantOrder | pkg/time/time.go:11-13 | comparing instants is comparing the fields, across months and leap years |
| Chronology.TextOrder | pkg/time/time.go:8-13 | text order against time order for every pair of stored timestamps |
| Chronology.SortableIff | pkg/time/time.go:8-9 | a pair in time order is in text order exactly when they do not share a second with the earlier fraction a proper beginning of the later |
| Chronology.NotSortable | pkg/time/time.go:8-9 | a later time that sorts first |
| Cursor.CursorRoundTrip | internal/pkg/wallets/transactionRepositoryImpl.go:176-203 | a parseable timestamp and a nonempty ref decode to themselves, and only their own encoding decodes to them |
| Cursor.RebuiltCursor | internal/pkg/wallets/transactionRepositoryImpl.go:148-151 | a cursor rebuilt from a scanned row names the stored key |
| Keyset.ClampPageSize | internal/pkg/wallets/transactionRepositoryImpl.go:158-174 | a page holds between one and two hundred rows, and what was asked for within that |
| Keyset.TransactionTable.Create | internal/pkg/wallets/transactionRepositoryImpl.go:42-75 | a row joins the listing exactly when its ref is new |
| Keyset.ScanStored | internal/pkg/wallets/transactionRepositoryImpl.go:237-273 | a ledger row reads back exactly when its times lie in UTC years 0000 to 9999, and then as it was |
| Keyset.TransactionTable.List | internal/pkg/wallets/transactionRepositoryImpl.go:80-156 | answers exactly the valid requests all of whose fetched rows read back, with the page and its cursor; every row is the caller's own unless they read all, and a page with a successor is as long as was asked, 50 by default and 200 at most |
| Keyset.PageFacts | internal/pkg/wallets/transactionRepositoryImpl.go:101-153 | a page is the first visible rows strictly past the position, in order, and nothing in between is skipped |
| Keyset.EchoedCursor | internal/pkg/wallets/transactionRepositoryImpl.go:145-153 | the cursor of a reply stands for the position after the last row it showed |
| Keyset.ChainIsWalk | internal/pkg/wallets/transactionRepositoryImpl.go:101-153 | replies asked for with the cursor of the reply before read the pages of a walk |
| Keyset.FollowedWalkIsComplete | internal/pkg/wallets/transactionRepositoryImpl.go:93-153 | following NextCursor from the empty cursor, under any inserts, shows rows newest first and no ref twice, none of another owner unless the caller reads all, and, once a reply has no cursor, every such row that was there at the start |
| Keyset.RolesSee | internal/pkg/wallets/transactionRepositoryImpl.go:93-99 | a member is shown their own rows only, and all of them; an administrator everybody's |
| Keyset.FollowedWalkIsTheList | internal/pkg/wallets/transactionRepositoryImpl.go:121-153 | on a fixed table an ended walk has shown the sorted, scope-filtered list, and no walk takes more than one page more than there are visible rows |
| Keyset.WalkEndsIff | internal/pkg/wallets/transactionRepositoryImpl.go:132-153 | a fixed table can be walked to its end exactly when every row the caller may see reads back |
| Sessions.Identity.Register | internal/pkg/users/userRegistrationServiceImpl.go:47-127 | the history gains one registration, the row a member with the given hash and first account, or nothing; the token carries that row with a member's permissions |
| Sessions.Identity.CreateUser | internal/pkg/users/userRepositoryImpl.go:27-53 | one row for each id and each email, starting at version 0 |
| Sessions.Identity.GetByEmail | internal/pkg/users/userRepositoryImpl.go:128-161 | the login principal finds any email, everyone else without the permission only themselves |
| Sessions.Identity.BeginLogin | internal/pkg/authentication/emailPasswordAuthenticatorImpl.go:45-62 | the history gains the read of the user with that email, or an error that tells an unknown email from a storage failure |
| Sessions.Identity.FinishLogin | internal/pkg/authentication/emailPasswordAuthenticatorImpl.go:64-86 | a token exactly for a matching password; it carries the email, role and version that were read and the permissions of that role, for an hour |
| Sessions.Identity.Authenticate | internal/pkg/authentication/emailPasswordAuthenticatorImpl.go:39-94 | a token comes from a login of the history; unknown email and wrong password read alike, storage failures do not |
| Sessions.MemberTokensReachNobodyElse | pkg/authorization/permissions.go:41-62 | a member's token grants no permission that reaches across owners |
| Sessions.Identity.IncrementTokenVersion | internal/pkg/users/userRepositoryImpl.go:196-218 | the history gains one logout that takes effect, or nothing, and says why not |
| Sessions.Identity.GetTokenVersion | internal/pkg/users/userRepositoryImpl.go:168-189 | the stored version, or not found exactly for a missing user |
| Sessions.Identity.ValidateAccessToken | internal/pkg/authentication/accessTokenServiceImpl.go:70-100 | accepts exactly the honoured tokens whose version can be read; and then every token of every login of the history exactly until it expires or its user has logged out |
| Sessions.VersionCountsLogouts | internal/pkg/users/userRepositoryImpl.go:191-218 | over any interleaving the version moves by exactly the logouts that took effect |
| Sessions.VersionsFit | pkg/postgres/migrations/0001_init.sql:8-8 | in every state of a run a version lies between 0 and the largest BIGINT |
| Sessions.AcceptedIffNoLogoutBetween | internal/pkg/authentication/accessTokenServiceImpl.go:76-96 | a token is accepted exactly when it has not expired and no logout took effect between the two reads of the version |
| Sessions.RegisteredIffNoLogout | internal/pkg/users/userRegistrationServiceImpl.go:103-116 | the same for a token issued at registration, counted from its commit |
| Sessions.RevokedForGood | internal/pkg/authentication/accessTokenServiceImpl.go:81-96 | a token its version has failed is never accepted again |
| Sessions.EmailsStayUnique | pkg/postgres/migrations/0001_init.sql:3-3 | the login by email always means one row |

## Left out

- HTTP and JSON-RPC adaptors, configuration, logging, bootstrap, rate limiting: plumbing around what is modelled.
- The method gate of `pkg/authorization/policy.go`: one table look-up; isolation is proved without relying on it.
- JWT signing, bcrypt and UUIDs: a token is its claim, a password comparison a given boolean, row ids are distinct.
- Base64 and the byte grammar of CSV: a cursor is the string before base64, a file a header and a list of records, each its fields or an error.
- JSON encoding of the batch: the server is taken to receive the times as sent, a left-out time as the zero time.
- Ambiguous commits, where the connection is lost after the server committed: a commit succeeds or fails cleanly.
- Account and audit listings (`internal/pkg/audit/auditEntryRepositoryImpl.go:60-156`, `internal/pkg/accounts/accountRepositoryImpl.go:59-98`): plain filters in table order.
- Created-at columns and the fields of a row that nothing depends on; the clock that stamps them is taken to be in years that read back.
- Texts the database cannot hold (a NUL byte, malformed UTF-8): the statement fails, like any statement that storage fails.
- The text quoted in a parse error: `Unreadable` stands for it.
- The checks of the fields of registration and login requests, made before anything is read.
- Raw adjustments, openings and renames take their connection for the length of one statement; the pool count follows the attempts' transactions only.
- The wording of messages: it is what the functions that build it say; which error is told and on what ground is proved.
- Concurrent starts of `Migrate` over one database: one process migrates at a time.
- Timestamps.Parse: accepts section 5.6 of RFC 3339 with upper-case letters; Go's general parser also takes one-digit hours, a comma before the fraction and offsets of 24 hours or 60 minutes.
- Chronology.TextOrder: text is compared by code point; the page walk is proved for any collation that is a total order.
- WalletService.Service.ProcessTransaction: the closure handed to `RunInTx` is a method of its own, as Dafny has no closures that write to objects.
- Ingest.SortRows: the library sort is taken as its specification and copied into the array; its own swaps are not modelled.
