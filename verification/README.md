# Congo Pay: ledger and protocol proofs

A Dafny 4.11 model of the double-entry ledger of Congo Pay, in its Postgres and its in-memory form,
and of the protocols around it: wallets, payments and card funding, the idempotency middleware, the
login limiter, token versions, signed tokens and phone-number identity. `dafny verify dfyconfig.toml`
checks everything.

## How it is built

**The serial specification.** `LedgerSpec` has the three tables (accounts, transactions under their
unique key, entries) and `Serve`: what Transfer, CardIn and CardOut answer when nothing else runs,
with the checks in the order of the Go code. `Sheet` is every account's balance, `Sound` is double
entry, no overdraft outside `suspense:card`, and a zero grand total.

**The Postgres ledger under concurrency.** `PostgresMachine` interleaves any number of transactions
statement by statement under Read Committed: each statement sees the committed tables and its own
writes, `FOR UPDATE` locks are re-entrant and held to the end, an insert of a key that another open
transaction has inserted waits, and an abort can come between any two statements. `Linearizability`
holds the invariant and `PostgresTheorems` the results for every schedule. `Deadlock` says exactly
when open transactions can deadlock, and `CardProgress` what follows for the card calls.
`PostgresLedger` has the Go methods themselves, statement by statement, with arbitrary work of
others between any two statements; each call is shown to be a schedule of the machine, and a call
made while nobody else is there answers exactly `Serve`.

**The in-memory ledger.** `InMemoryLedger` is the class with its three maps and 64-bit wrap-around.
`MoneySupply` says, over all runs, where its money comes from and when nothing wraps.
`LedgerRefinement` relates it to the tables. The conditions the code forces for that are explicit:
transfers between different accounts, kinds without `:` other than the two card kinds, suspense
ensured, and accepted CardIn amounts that total at most 2^63 - 1. Both ledgers then accept the same
calls; a call that is not accepted may get a different reason (memory looks for duplicates before
accounts, and has one error for everything that is not a duplicate).

**Services.** `WalletRepository` and `Services` / `ServiceObjects` are the wallet store with its
owner index and the wallet, payment and funding services over one ledger.

**Protocols.** `Idempotency` (the cache protocol with failures and time), `IdempotencyMiddleware`
(the handler function), `ExactlyOnce` (the middleware over the concurrent Postgres ledger and any
other endpoints), `Repeats` (runs of that system), `RateLimit`, `Tokens`, `AuthService`, `Base64Url`, `Jwt`, `Identity`.

What cannot be seen from the code is a parameter: UUIDs are handed in and assumed new; HMAC, bcrypt
and JSON are functions with the one law that is needed (`Jwt.Lawful`, `AuthService.Faithful`,
`Idempotency.Lawful`, `ExactlyOnce.Lawful`); what others do, and which operations fail or lose their
replies, is an arbitrary argument.

## Where the code and its surroundings disagree

The model follows the code.

- A transfer from an account to itself (internal/ledger/inmemory.go:55-72) leaves the old balance plus
  the amount in memory and the old balance in Postgres: `LedgerRefinement.SelfTransferMints`. The
  payment service does not refuse it: `Services.PaymentMoves`.
- CardIn with the suspense account as the wallet returns a balance taken before suspense is updated
  (`LedgerRefinement.ReceiptAgrees`).
- Two transfers or more deadlock in Postgres when their accounts form a cycle, since they are locked
  in the order of the caller (internal/ledger/postgres.go:61-75): `Deadlock.NeverDeadlocksIff`.
- Postgres reads the balances of an answer after the commit, outside the locks
  (internal/ledger/postgres.go:119-127): they are those of some later moment. When a read fails, or
  the reply to COMMIT is lost, the caller gets an error for a posting that stays
  (`PostgresLedgers.Told`).
- `Idempotency` promises idempotent requests (internal/middleware/idempotency.go:26-28), but ignores
  whether SETNX set the key (line 72): `Idempotency.OverlapRunsTwice`. With the ledger's unique key
  a posting still happens at most once (`ExactlyOnce.AtMostOnePosting`).
- When the reply to SET is lost and the DEL on the same context fails too
  (internal/middleware/idempotency.go:106-108), the caller gets an error and the next request is
  replayed the response: `Idempotency.LostReplyIsReplayed`.
- A duplicate payment is an error (internal/payments/handler.go:48-49), a duplicate card call a
  success with status 200 (internal/funding/handler.go:40-41), which the middleware stores:
  `Repeats.SucceedsOnceIff`.
- The middleware is installed for all endpoints (internal/routes/routes.go:57) and its cache key is the
  header alone (internal/middleware/idempotency.go:44): a payment under a key that a login was called
  with is replayed the answer to the login, and nothing is posted (`Repeats.OtherAnswerReplayed`).
- A response is stored as JSON (internal/middleware/idempotency.go:84-94), which turns bytes that are
  not UTF-8 into U+FFFD, so a replay sends `Codec.seen` of the response; for UTF-8 it is the response.
- EXPIRE is sent once and its result ignored (internal/middleware/login_rate_limit.go:29-31): if it is
  lost, a key at its limit is locked out for good (`RateLimit.LockedOutIff`).
- internal/identity/service_test.go:36 registers the phone number `123`, which `normalizePhone`
  refuses as too short (internal/identity/service.go:101-103). A `+` counts as a digit anywhere but
  in front: `Identity.PlainNumber`.
- Versions go through JSON as float64 (internal/middleware/jwt.go:27-28). From 2^53 on, a token can
  come back to life after a logout: `Tokens.RevivedIff` says exactly when, and
  `Tokens.RevivalIsReachable` gets there. The Postgres column is an INT (migrations/0001_users.sql:8),
  so only the in-memory store can.
- The tier promotion and the last login that `Authenticate` returns are never stored
  (internal/identity/service.go:84-89): `Tokens.TiersStay`.

## Model

| member | source | states |
|---|---|---|
| `LedgerSpec.ServeMoves` | internal/ledger/postgres.go:103-113 | framing: a posting changes exactly its two accounts on the balance sheet, by opposite amounts |
| `LedgerSpec.MovedTotal` | internal/ledger/postgres.go:108-113 | conservation: a posting keeps the total over all accounts |
| `LedgerSpec.MovedToSelf` | internal/ledger/postgres.go:108-113 | a self-transfer posts two entries that change no balance |
| `LedgerSpec.ServeKeepsDoubleEntry` | internal/ledger/postgres.go:104-113 | after a posting every transaction row still has exactly two entries that cancel, and no entry lacks its row or account |
| `LedgerSpec.SerialSound` | internal/ledger/postgres.go:95-117 | any serial log of ensured accounts and served postings leaves double entry, no overdraft outside suspense, and a zero grand total |
| `LedgerSpec.SuspenseNeverPays` | internal/ledger/postgres.go:224-230 | in sound tables suspense is minus the sum of all other accounts and never positive, so every transfer or withdrawal from it is refused |
| `LedgerSpec.TransferAnswers` | internal/ledger/postgres.go:48-101 | each answer to a transfer, with its exact cause in accounts, amount, client id and balance |
| `LedgerSpec.CardInAnswers` | internal/ledger/postgres.go:133-164 | the same for CardIn, which fails on no balance |
| `LedgerSpec.CardOutAnswers` | internal/ledger/postgres.go:191-230 | the same for CardOut |
| `PostgresMachine.StatementFootprint` | internal/ledger/postgres.go:57-117 | one statement changes only its own session and locks, or ends its own transaction, and moves committed tables only when it is the commit |
| `Linearizability.OthersKept` | internal/ledger/postgres.go:59-101 | statements that commit nothing leave what every other open transaction has seen and locked valid |
| `Linearizability.ReadSession` | internal/ledger/postgres.go:84-101 | balances read after the duplicate lookup are those at the lookup, so a duplicate or insufficient-funds answer is the serial one at that point |
| `Linearizability.CommitServes` | internal/ledger/postgres.go:103-117 | at its commit a transaction run alone would pass account, duplicate and funds checks again and make the same tables |
| `Linearizability.CommitKeepsSum` | internal/ledger/postgres.go:59-75 | a commit cannot move the sum of an account whose row another session has locked |
| `Linearizability.ExecKeepsInv` | internal/ledger/postgres.go:48-254 | every action of every schedule, aborts included, keeps the global invariant |
| `PostgresTheorems.Serializable` | internal/ledger/postgres.go:53-117 | for every schedule the committed tables are those of the committed requests run one at a time in commit order, each accepted again, and the log is exactly the posted transactions |
| `PostgresTheorems.CommittedRecorded` | internal/ledger/postgres.go:103-113 | in every reachable committed state each committed posting has its row under its own client id and kind, completed for a transfer and pending settlement for a card call, and its two entries on its own accounts; and there are no other rows |
| `PostgresTheorems.Linearizable` | internal/ledger/postgres.go:48-254 | every answer (posted, duplicate with balances, insufficient funds, not found) is the serial answer at a commit count inside the transaction's own lifetime |
| `PostgresTheorems.RealTimeOrder` | internal/ledger/postgres.go:115-117 | a transaction begun after another ended takes effect no earlier, and strictly after it if it posted |
| `PostgresTheorems.CommittedSound` | migrations/0001_init.sql:28-42 | double entry, no overdraft and zero total in every reachable committed state, at whatever statement transactions were rolled back |
| `PostgresTheorems.SuspenseMirrors` | internal/ledger/postgres.go:166-176 | in every reachable committed state suspense is not positive and equals minus the sum of all other accounts |
| `PostgresTheorems.SuspenseIsCardFlowIff` | internal/ledger/postgres.go:166-242 | in every reachable committed state suspense is committed CardOut minus committed CardIn if and only if nobody paid suspense itself, and otherwise more |
| `PostgresTheorems.LockedBalanceStable` | internal/ledger/postgres.go:59-67 | while the holder of a row lock is open no schedule of others moves that account's committed sum or takes its lock |
| `PostgresTheorems.OnePostingPerKey` | migrations/0001_init.sql:33 | no two commits of a serial log share client transaction id and kind |
| `Deadlock.StuckIsBlocked` | internal/ledger/postgres.go:61-75 | whenever no open transaction can go on, some of them wait for each other's rows in a cycle |
| `Deadlock.AcyclicCanStep` | internal/ledger/postgres.go:59-75 | deadlock freedom: in every reachable state whose requests have no cycle, some open transaction is not waiting |
| `Deadlock.AcyclicFinish` | internal/ledger/postgres.go:59-117 | without a cycle statements alone finish all open transactions, in at most eight each |
| `Deadlock.CycleBlocks` | internal/ledger/postgres.go:61-75 | begun transactions whose accounts form a cycle of any length block each other after one statement of each |
| `Deadlock.BlockedForever` | internal/ledger/postgres.go:61-75 | blocked transactions stay blocked under every schedule that aborts none of them |
| `Deadlock.NeverDeadlocksIff` | internal/ledger/postgres.go:59-75 | in every reachable state, all open transactions can finish from every interleaving of their statements if and only if there is no cycle among those that are still locking |
| `Deadlock.Trap` | internal/ledger/postgres.go:59-75 | from every reachable state a cycle can be run into a deadlock, whoever else is open |
| `Deadlock.OrderedIsAcyclic` | internal/ledger/postgres.go:59-75 | requests that lock in a common order have no cycle |
| `CardProgress.CardsCanStep` | internal/ledger/postgres.go:144-151 | while card transactions are open, at least one of them is not waiting |
| `CardProgress.CardsFinish` | internal/ledger/postgres.go:202-209 | from any reachable set of open card transactions statements alone finish all of them in at most eight per transaction |
| `Deadlock.BusyIsBounded` | internal/ledger/postgres.go:48-254 | a schedule in which nobody waits is bounded by the work open at its start |
| `CardProgress.CardsNeverFail` | internal/ledger/postgres.go:153-169 | with cards only, no transaction that ends was failed by the unique key or otherwise |
| `CardProgress.ServedAlone` | internal/ledger/postgres.go:133-254 | a card transaction begun when nothing is open can be run to its end, and has answered and posted what the serial specification says |
| `PostgresLedgers.PostgresLedger.EnsureAccount` | internal/ledger/postgres.go:24-28 | a new account appears with balance zero, an existing one is untouched, and no other balance moves |
| `PostgresLedgers.PostgresLedger.Balance` | internal/ledger/postgres.go:31-45 | the sum of the account's entries, zero for an unknown code, never negative outside suspense |
| `PostgresLedgers.PostgresLedger.Transfer` | internal/ledger/postgres.go:48-130 | with any work of others between its statements the call ends as a linearized machine transaction; the caller is told exactly that, with balances read after the commit, or an error for an abort, and for a posting exactly when the reply to COMMIT is lost or a read of a balance fails; undisturbed it answers and posts exactly the serial specification |
| `PostgresLedgers.PostgresLedger.CardIn` | internal/ledger/postgres.go:133-188 | the same for CardIn, which reads no balance before it posts |
| `PostgresLedgers.PostgresLedger.CardOut` | internal/ledger/postgres.go:191-254 | the same for CardOut |
| `PostgresLedgers.PostgresLedger.CommitTransaction` | internal/ledger/postgres.go:115-117 | the commit is made or the transaction aborted; the caller sees an error for an abort and for a lost reply |
| `PostgresLedgers.PostgresLedger.LockAccount` | internal/ledger/postgres.go:256-266 | returns the account row and holds its lock, or ends the transaction as not found or aborted |
| `PostgresLedgers.PostgresLedger.QueryBalance` | internal/ledger/postgres.go:268-278 | reads the committed sum of a locked account and takes the branch that sum decides |
| `PostgresLedgers.Explain` | internal/ledger/postgres.go:48-130 | a call that only its own posting was committed during is the serial call on the tables it found |
| `InMemoryLedgers.InMemoryLedger.EnsureAccount` | internal/ledger/inmemory.go:24-31 | adds the account at zero once |
| `InMemoryLedgers.InMemoryLedger.Balance` | internal/ledger/inmemory.go:33-41 | the running balance, or an error for an unknown account |
| `InMemoryLedgers.InMemoryLedger.Transfer` | internal/ledger/inmemory.go:43-82 | new maps and answer are those of `Step`, whose effect is proved against the tables |
| `InMemoryLedgers.InMemoryLedger.CardIn` | internal/ledger/inmemory.go:84-113 | the same for CardIn |
| `InMemoryLedgers.InMemoryLedger.CardOut` | internal/ledger/inmemory.go:115-147 | the same for CardOut |
| `InMemoryLedgers.TransferReplies` | internal/ledger/inmemory.go:43-82 | each reply to a transfer, with its exact cause, and the receipt and the maps it leaves |
| `InMemoryLedgers.CardInReplies` | internal/ledger/inmemory.go:84-113 | the same for CardIn |
| `InMemoryLedgers.CardOutReplies` | internal/ledger/inmemory.go:115-147 | the same for CardOut |
| `MoneySupply.NothingWraps` | internal/ledger/inmemory.go:64-72 | over every run from an empty ledger, with any kinds and accounts: if accepted CardIn amounts and self-transfers total at most 2^63 - 1, no addition or subtraction of any call wraps |
| `MoneySupply.BoundIsTight` | internal/ledger/inmemory.go:99-102 | with a total of 2^63 a sum can wrap |
| `MoneySupply.RunKept` | internal/ledger/inmemory.go:43-147 | over those runs all balances add up to what self-transfers made, no wallet is in the red, and suspense owes at most what came in by card |
| `MoneySupply.OutstandingNeverWraps` | internal/ledger/inmemory.go:64-138 | when transfers spare suspense, nothing wraps as long as what is outstanding fits at every point, however much passes through in all |
| `MoneySupply.SuspenseMirror` | internal/ledger/inmemory.go:102-138 | when transfers spare suspense it is CardOut minus CardIn, and it mirrors the wallets if and only if no account was paid from itself |
| `LedgerRefinement.KeyInjective` | internal/ledger/inmemory.go:51 | kind + ":" + id determines kind and id when the kind has no colon |
| `LedgerRefinement.KeysCollideIff` | internal/ledger/inmemory.go:51 | two different kinds can share a remembered result if and only if one of them with a colon begins the other |
| `LedgerRefinement.StepMoves` | internal/ledger/inmemory.go:68-72 | an accepted call moves its two accounts by opposite amounts and no other |
| `LedgerRefinement.SelfTransferMints` | internal/ledger/inmemory.go:55-72 | after an accepted call the balances are those of the entries if and only if it was not a self-transfer, which adds the amount |
| `LedgerRefinement.StepRefines` | internal/ledger/inmemory.go:43-147 | on related ledgers a call gets the same verdict, leaves related ledgers, and a first-time receipt shows the entries' sums |
| `LedgerRefinement.OutstandingBoundsAll` | internal/ledger/inmemory.go:68-69 | if what is outstanding by card fits in 64 bits, no addition or subtraction of the call wraps |
| `LedgerRefinement.LogSound` | internal/ledger/inmemory.go:84-147 | over every run the log is sound and minus suspense is at most accepted CardIn minus accepted CardOut, exactly so when suspense is left to the card calls |
| `LedgerRefinement.SuspenseIdentity` | internal/ledger/inmemory.go:102-138 | suspense is accepted CardOut minus accepted CardIn, minus the sum of all wallets, never positive, and cannot be paid from |
| `LedgerRefinement.RunRefines` | internal/ledger/inmemory.go:43-147 | over every admissible run whose accepted CardIn total is at most 2^63 - 1 the running 64-bit balances are the sums of the entry log |
| `LedgerRefinement.RunsAgree` | internal/ledger/inmemory.go:43-147 | at every call of such a run both ledgers accept alike, receipts agree, and what is not accepted changes neither |
| `LedgerRefinement.ReplayReturnsFirst` | internal/ledger/inmemory.go:51-53 | over every run a call with a remembered key gets the first receipt and changes nothing |
| `WalletRepositories.RepoAnswersHistory` | internal/wallet/memory_repository.go:20-55 | Get is the first wallet created with the id, FindByOwner the owner's latest in the creation history, and its second lookup never misses |
| `WalletRepositories.WalletRepository.Create` | internal/wallet/memory_repository.go:20-31 | succeeds exactly when the history has no wallet with the id |
| `WalletRepositories.WalletRepository.Get` | internal/wallet/memory_repository.go:33-41 | the first wallet the history has for the id |
| `WalletRepositories.WalletRepository.FindByOwner` | internal/wallet/memory_repository.go:43-55 | what a search of the history from its end finds |
| `Services.RunCoherent` | internal/wallet/service.go:35-66 | in every reachable state each stored wallet's account is `wallet:` plus its id and the ledger has it |
| `Services.CodesDistinct` | internal/wallet/service.go:37 | different wallets have different accounts and none is suspense |
| `Services.PaymentCanOnlyFailOn` | internal/payments/service.go:49-75 | each result of a payment with its exact cause: amount, unknown wallet, ownership, duplicate under `p2p:` and the client's id if there is one, funds; it posts otherwise |
| `Services.RetriesPostOnce` | internal/payments/service.go:53-55 | over every run two payments with the same id of the client are never both accepted, and no two top-ups or withdrawals, whatever ids would be generated |
| `Services.PaymentMoves` | internal/payments/service.go:57-69 | an accepted payment moves the amount, or makes it when the wallet pays itself |
| `Services.ServicesRunLedger` | internal/payments/service.go:69 | every run of the services is a ledger run that leaves suspense to the card calls, admissible when no wallet pays itself |
| `Services.ServicesBalance` | internal/funding/service.go:65-160 | over every service run whose outstanding money fits in 64 bits at every point: suspense is CardOut minus CardIn, no wallet is in the red, all balances add up to the accepted self-payments, and suspense mirrors the wallets if and only if there were none, and then cannot be paid from |
| `Services.CardCallPostsIff` | internal/funding/service.go:65-103 | each result of a card call with its exact cause: card or amount, unknown wallet, acquirer, duplicate under the client's id, funds; it posts otherwise |
| `Services.ValidCardMeans` | internal/funding/service.go:162-173 | 12 to 19 digits, between which there may be spaces |
| `Services.CardCallMoves` | internal/funding/service.go:91-159 | an accepted top-up moves the amount from suspense to the wallet and a withdrawal back, nothing else, and the answer shows the new balance |
| `Services.CreatedIff` | internal/wallet/service.go:35-65 | a wallet is created exactly for an owner that parses and a new id, active and in XAF unless another currency is asked for; its account exists even if it is refused |
| `Services.CreatedIsLatest` | internal/wallet/service.go:43-65 | a created wallet starts at zero and is what its owner's lookup returns |
| `ServiceObjects.WalletService.Create` | internal/wallet/service.go:35-66 | the account is provisioned before the record, and stays when the record is refused |
| `ServiceObjects.WalletService.Balance` | internal/wallet/service.go:74-84 | in a coherent state the balance of a stored wallet is always found and is the ledger's |
| `ServiceObjects.PaymentService.Transfer` | internal/payments/service.go:49-93 | state and answer are the service specification's; the receiver is notified of every posted payment and of nothing else |
| `ServiceObjects.FundingService.constructor` | internal/funding/service.go:24-35 | the suspense account exists afterwards |
| `ServiceObjects.FundingService.CardIn` | internal/funding/service.go:65-112 | state and answer are the service specification's |
| `ServiceObjects.FundingService.CardOut` | internal/funding/service.go:115-160 | state and answer are the service specification's |
| `ServiceObjects.ValidateCardNumber` | internal/funding/service.go:162-173 | accepts exactly 12 to 19 digits once spaces are dropped |
| `ServiceObjects.AllDigits` | internal/funding/service.go:167-171 | the loop accepts exactly the strings of decimal digits |
| `Idempotency.StoredIsNotMarker` | internal/middleware/idempotency.go:17-24 | a stored JSON object is never taken for the in-progress marker |
| `Idempotency.SafeIff` | internal/middleware/idempotency.go:30-34 | exactly GET, HEAD and OPTIONS pass, in any case |
| `Idempotency.ContentLengthSpelt` | internal/middleware/idempotency.go:59 | a header is left out exactly if it is Content-Length, each letter in either case |
| `Idempotency.ExclusiveIffPolite` | internal/middleware/idempotency.go:46-112 | from a state in which handlers of a key exclude each other, an action keeps that if and only if no lookup falls between a miss and its SETNX and no time step ends a reservation before its handler |
| `Idempotency.OneInFlight` | internal/middleware/idempotency.go:46-82 | so over every run that keeps those two conditions at most one handler per key is in flight, and its key is taken |
| `Idempotency.StoredIsReplayed` | internal/middleware/idempotency.go:46-65 | from storing a response to its expiry no handler runs for the key, and every later lookup gets the stored status and body, and exactly the stored headers that do not spell Content-Length, whatever else happens |
| `Idempotency.ReplaysAreReal` | internal/middleware/idempotency.go:46-112 | under every interleaving, failure, lost reply and expiry, a replay is a response that some handler run under the same key returned and the cache took |
| `Idempotency.GivenIff` | internal/middleware/idempotency.go:106-112 | a caller was also answered with that response if and only if the SET of such a handler run was acknowledged |
| `Idempotency.ReplaysWereGiven` | internal/middleware/idempotency.go:106-112 | as long as no reply to a SET is lost, every replay is a response some caller got |
| `Idempotency.LostReplyIsReplayed` | internal/middleware/idempotency.go:106-109 | after a SET with a lost reply and a failed DEL the caller got an error and the next one is replayed the response |
| `Idempotency.OverlapRunsTwice` | internal/middleware/idempotency.go:72-77 | two requests that both miss both run their handler |
| `Idempotency.SlowHandlerRunsTwice` | internal/middleware/idempotency.go:72-77 | a handler that outlives its reservation lets another run beside it |
| `IdempotencyMiddleware.CollectHeaders` | internal/middleware/idempotency.go:84-92 | the loop keeps exactly the visited headers, each with the value of its last visit |
| `IdempotencyMiddleware.ResendHeaders` | internal/middleware/idempotency.go:58-63 | in any map order the loop sends exactly the stored headers that do not spell Content-Length, with their values |
| `IdempotencyMiddleware.Middleware.Handle` | internal/middleware/idempotency.go:29-113 | one request is a run of the protocol; undisturbed it conflicts with the marker, replays what is stored, or runs the handler once and stores or clears its key; safe methods pass and a missing key is refused |
| `ExactlyOnce.AtMostOnePosting` | internal/middleware/idempotency.go:72-112 | under any interleaving of cache steps, SQL statements, handlers, failures and expiries a client id and kind is posted at most once |
| `ExactlyOnce.SuccessShowsPosting` | internal/funding/handler.go:38-49 | under all of that, a handler that returned a response shows the one commit of its client id and kind: its own with 201, or for a card call only the one that was there with 200 |
| `ExactlyOnce.SuccessesAgree` | internal/payments/handler.go:44-62 | two successes for one client id and kind show the same transaction, at most one made it, and for payments they are one |
| `Repeats.SucceedsOnceIff` | internal/funding/handler.go:40-41 | over all runs a client id and kind has at most one success if and only if the kind is not that of a card call |
| `Repeats.CardInTwice` | internal/funding/handler.go:38-49 | for every client id a run from the empty system in which two top-ups with it, under two Idempotency-Keys, both succeed |
| `Repeats.CardOutTwice` | internal/funding/handler.go:66-77 | the same for withdrawals, after a top-up |
| `ExactlyOnce.AnswersHaveSource` | internal/middleware/idempotency.go:58-64 | fresh or replayed, every response that reaches a caller was returned by a handler under its Idempotency-Key, and shows the committed posting if that was the handler of one |
| `ExactlyOnce.PostingsOnlyShown` | internal/middleware/idempotency.go:44 | under a key that only postings succeeded with, every response shows a committed posting |
| `ExactlyOnce.ShowsPostingIff` | internal/middleware/idempotency.go:44 | an answer shows a posting if and only if it does not come from another endpoint called under the same key |
| `Repeats.OtherAnswerReplayed` | internal/routes/routes.go:56-58 | whatever another endpoint answered under a key is replayed to a posting under that key, and nothing is posted |
| `RateLimit.WindowBound` | internal/middleware/login_rate_limit.go:27-38 | any half-open minute has at most 2 * max - 1 attempts per key that were counted within the limit, for all arrivals and however late, often or never EXPIRE comes |
| `RateLimit.WindowBoundTight` | internal/middleware/login_rate_limit.go:27-38 | for every limit some arrivals reach that number |
| `RateLimit.LockedOutIff` | internal/middleware/login_rate_limit.go:28-31 | a live counter at its limit lets somebody through again if and only if it has an expiry; without one the key is locked out for good |
| `RateLimit.Limit` | internal/middleware/login_rate_limit.go:14-16 | a limit that is not positive becomes five |
| `RateLimit.LoginRateLimiter.Login` | internal/middleware/login_rate_limit.go:17-39 | one attempt counts on its own key only, only the first of a lifetime sets an expiry, and it is allowed exactly up to the limit, and always when INCR fails or its reply is lost |
| `RateLimit.LoginRateLimiter.KeyBound` | internal/middleware/login_rate_limit.go:27-38 | the window bound holds for every key of a limiter at any time |
| `Tokens.RunKeeps` | internal/auth/service.go:40-97 | over every run versions never decrease, a bound device never changes, and no issued token is ahead of its user |
| `Tokens.LoggedOutStaysOut` | internal/auth/service.go:90-97 | a token issued before a logout, with a version below 2^53, is refused ever after |
| `Tokens.RevivedIff` | internal/middleware/jwt.go:26-33 | for any version: an issued token can be accepted after a logout if and only if its float64 value exceeds the user's version |
| `Tokens.LargeVersionMoves` | internal/auth/service.go:65-66 | 2^53 + 3 is read back as 2^53 + 4 |
| `Tokens.RevivalIsReachable` | internal/auth/service.go:90-97 | after 2^53 + 3 logouts a login issues a token that can be accepted after the user's next logout |
| `Tokens.TiersStay` | internal/identity/service.go:84-89 | over every run stored users stay in the lowest tier |
| `Tokens.AcceptedUntilLogout` | internal/auth/service.go:58-88 | an accepted token stays accepted under everything but its user's logout |
| `Tokens.BoundByHistory` | internal/identity/service.go:71-82 | a user is bound to the device registered with, or else to the first that a login with the right PIN presented |
| `Tokens.LoginAfterRegister` | internal/identity/service.go:30-90 | after any registration and any run since, a spelling of the number logs in exactly with a matching PIN and the bound device or none, or any device while none is bound |
| `Tokens.Float` | internal/middleware/jwt.go:27-28 | the float64 trip of a version is exact below 2^53 |
| `Tokens.FloatIsNearest` | internal/middleware/jwt.go:27-28 | no double is nearer to the version, and of two equally near ones it is the even one |
| `Tokens.FloatIsDouble` | internal/middleware/jwt.go:27-28 | what is read back is a 53-bit whole number times a power of two |
| `AuthService.SignedIsAccepted` | internal/middleware/jwt.go:17-33 | a signed string is accepted in a header, and by Refresh, exactly when the token machine accepts its claims |
| `AuthService.AnyBearerIsAccepted` | internal/middleware/jwt.go:18-22 | behind `bearer` in any case, and with any white space around it, a signed token is granted exactly when the token machine accepts its claims |
| `AuthService.OtherHeadersRefused` | internal/middleware/jwt.go:18-20 | a header that does not begin so is refused |
| `AuthService.WrongSecretIsRefused` | internal/auth/service.go:58-63 | a token signed with one secret is refused where another is used unless their MACs of it coincide |
| `AuthService.Service.Login` | internal/auth/service.go:28-56 | both tokens are signed over the user's claims with their own secret and time to live, and accepted where they belong exactly while the user keeps the version, up to the float64 trip |
| `AuthService.Service.Refresh` | internal/auth/service.go:59-88 | issues an access token for the same user at its current version exactly when the refresh token is valid and current, and otherwise one of three errors with its exact cause |
| `AuthService.Service.Logout` | internal/auth/service.go:91-97 | is the logout step of the token machine |
| `AuthService.Service.Authorize` | internal/middleware/jwt.go:16-38 | grants exactly well-signed tokens of existing users at their current version, in a header that spells `bearer` |
| `Base64Url.DecodeEncode` | internal/auth/jwtutil.go:12-14 | decoding an encoding gives the bytes back for all byte strings, and the alphabet has no dot |
| `Base64Url.EncodeDecode` | internal/auth/jwtutil.go:35-41 | encoding what was decoded gives the text back if and only if it has no line breaks and zero spare bits |
| `Jwt.JoinSplit` | internal/auth/jwtutil.go:32 | splitting at dots loses nothing and leaves no dot in a part |
| `Jwt.SplitSigned` | internal/auth/jwtutil.go:17-33 | the three-part split recovers exactly the signed pieces |
| `Jwt.ValidIff` | internal/auth/jwtutil.go:31-45 | a text is valid for some claims exactly when it is three dotless pieces, the third the MAC of the first two and the second the claims |
| `Jwt.ValidHasTwoDots` | internal/auth/jwtutil.go:32-33 | a valid token has exactly two dots |
| `Jwt.ParseSign` | internal/auth/jwtutil.go:17-45 | parsing a signed token returns its claims with its own secret, and with another exactly when the MACs coincide |
| `Jwt.AcceptedSaysWhatWasSigned` | internal/auth/jwtutil.go:31-45 | any accepted text whose signature was made for some claims says those claims, unless its signed text and theirs have the same MAC |
| `Identity.NormalForm` | internal/identity/service.go:92-105 | normalisation is idempotent, and two accepted spellings are the same number exactly when their digits and plus signs agree |
| `Identity.PlainNumber` | internal/identity/service.go:92-105 | a number of digits and plus signs is accepted exactly with 8 to 15 of them, not counting a plus in front |
| `Identity.OthersIgnored` | internal/identity/service.go:96 | a character that is no digit and no plus makes no difference anywhere |
| `GoStrings.TrimSpaceCuts` | internal/identity/service.go:95 | the 25 white space characters are cut off at both ends, and only there |
| `Identity.UserRepository.Create` | internal/identity/memory_repository.go:19-27 | refuses exactly a taken phone and keeps ids unique |
| `Identity.UserRepository.Scan` | internal/identity/memory_repository.go:52-61 | the scan in any map order finds the one user with the id, or reports that there is none |
| `Identity.UserRepository.FindByID` | internal/identity/memory_repository.go:52-61 | the user with the id, if any |
| `Identity.UserRepository.UpdateDevice` | internal/identity/memory_repository.go:39-50 | sets the device of the user with the id and of nobody else |
| `Identity.UserRepository.UpdateTokenVersion` | internal/identity/memory_repository.go:63-74 | sets the version of the user with the id and of nobody else |
| `Identity.IdentityService.Register` | internal/identity/service.go:30-57 | each result with its exact cause: Ok exactly for a PIN of four bytes or more, a number with a normal form, a hash and a phone that is not taken; the stored user is in the lowest tier at version 0, and ids stay unique |
| `Identity.IdentityService.Authenticate` | internal/identity/service.go:60-90 | each result with its exact cause, the user answered with, promoted, and what is stored: the device of a user that had none |

## Left out

- HTTP handlers, routing, configuration, logging, audit and health checks: plumbing without state worth proving.
- Database errors, deadlock detection, connection loss and a sum outside 64 bits appear as an abort before any statement, and a lost reply to COMMIT as an error after it; foreign-key locks are covered by the row locks a transaction already holds.
- Every UUID that uuid.New returns is assumed new; a transaction's row has the id of its session, and entries have no ids of their own.
- Tokens.LoggedOutStaysOut: Logout is one atomic step; two overlapping logouts, which read and write in separate calls, are not modelled, and versions are not bounded by Go's int.
- Tokens.LoginAfterRegister: two overlapping first logins, which could bind different devices, are not modelled.
- Token expiry: `exp` is written and never read by the parser or the middleware, so nothing is claimed about time.
- The acquirer's decision status, which the funding service does not look at, and card data beyond the number.
- A command that Redis carries out only after a later one of the same request; a lost reply means that it was carried out at once.
- Idempotency.OneInFlight: a time to live of zero, which Redis takes for none, is excluded.
- RateLimit.WindowBound: eviction or deletion of counters by other means than expiry is excluded, and attempts that are let through because INCR failed or its reply was lost are not bounded.
- Time stamps of wallets, users, payments and balances.
- The Postgres repositories of wallets and users, the notification sender and the design documents with holds, fees, settlement, USSD and SMS.
- `SeedBalance`, a helper that sets a balance without an entry.
