# Verified model of the exchange backend's core state

This project states, and proves with Dafny 4.11, what the stateful cores of the exchange
backend promise: the money kernel (exact decimals, balances, double-entry ledger, realtime
settlement), the Redis session store, the market-data hub, idempotent execution in memory and
in PostgreSQL, the read-model projection, the audit hash chain and the rate limiter. Check it with
`dafny verify dfyconfig.toml`.

Code that computes a value is a function; an object whose methods change its fields is a class
over `map` and `seq` fields, each method proved against the function that states its step; a
protocol that many clients interleave is a transition system whose steps are the atomic commands.
Statements about runs quantify over every finite list of steps.

| files | part of the repository |
|---|---|
| `Numerals`, `Decimals`, `DecimalLaws`, `DecimalText` | `shared-kernel/decimal.ts` |
| `StringAdder`, `StringAdderGap` | `addDecimal` of the projection, compared with `Decimal.add` |
| `Balances`, `Postings`, `LedgerSpec`, `Ledger`, `LedgerLaws`, `LedgerKeys`, `LedgerMoney`, `LedgerUndo`, `LedgerAnswers` | `ledger/domain` |
| `Settlement`, `SettlementLaws`, `RealtimeExecution` | `realtime-execution.service.ts` |
| `LedgerExamples` | concrete runs: a self-transfer, a market that admits a SELL with its fee at its notional, and how that SELL stops |
| `SessionStore`, `SessionLaws`, `SessionRevocation` | `RedisSessionStore` with any number of interleaved clients |
| `SessionReference`, `SessionRefinement`, `SessionAlone` | `RedisSessionStore` against `MemorySessionStore`, call by call, and against its own protocol |
| `OrderBooks`, `ResyncLaws`, `MarketData` | `MarketDataHub` |
| `Idempotency`, `IdempotencyAnswers` | `IdempotencyStore` in memory |
| `PostgresIdempotency`, `PostgresAnswers`, `PostgresTransactions`, `ScopedKeys` | the PostgreSQL idempotency store and its transaction manager |
| `ProjectionSpec`, `Projection`, `ProjectionLaws`, `ProjectionMoney`, `ProjectionViews` | `ProjectionStore` |
| `AuditLog`, `RateLimits` | `AuditLog`, `RateLimitService` |

What is uninterpreted: random ids and tokens are values the caller supplies, never used before;
SHA-256 and HMAC digests are the caller's strings, and the audit hash is any function, taken to be
injective where that matters; clocks are parameters; telemetry, metrics and logging are dropped.

## Where the code and its promises part

Each is a proved statement, with the exact limit where there is one.

- A transfer or reserved settlement on one account creates its amount, because the second balance
  write overwrites the first (`LedgerMoney.MoveConservesIffDistinct`, `LedgerExamples.SelfTransferDoubles`).
- Two (account, asset) pairs share a balance key exactly when one account id continues the other
  across a colon (`LedgerKeys.KeyCollisions`). Listing an account's assets is exact if and only if no
  other account's key starts with the account id and a colon; otherwise it shows, besides its own
  assets, what those keys are misread as (`LedgerKeys.ListingIsOwnAndMisread`,
  `LedgerKeys.ListingMisreadsColons`).
- A credit, debit, reserve or release can be compensated only where a `system` balance is open
  (`LedgerUndo.MarkersNeedTheSystemBalance`).
- After a passed liquidity check a SELL whose fee is not below its notional stops behind its first
  leg (`SettlementLaws.SettleSucceedsExactly`); one unit of the eighteenth digit at rate 0.6 is such
  an order (`LedgerExamples.TinySellAdmitted`, `LedgerExamples.TinySellStopsHalfway`). The delivered leg
  stays under `MemoryRealtimeExecutionRepository`; `PostgresRealtimeExecutionRepository` settles inside
  one transaction and rolls it back.
- `execute` repeats the liquidity check before it settles again, so a settlement that stopped behind a
  leg resumes only for a user, and behind two legs a liquidity account, with funds twice over
  (`SettlementLaws.RetryChecksFundsTwice`). This concerns legs that failed under
  `MemoryRealtimeExecutionRepository`, which keeps what was settled; `PostgresRealtimeExecutionRepository`
  settles inside one transaction and rolls all legs back.
- `addDecimal` leaves the decimal grammar exactly for sums strictly between -1 and 0
  (`StringAdder.AddDecimalIsExact`, `ProjectionMoney.AddAllIsExact`). From -1 (excluded) to -0.1 it writes
  "-.5" and the like, which it reads back exactly; strictly between -0.1 and 0 it writes "0.-5" and the
  like, and every later settlement on that balance throws (`StringAdderGap.AddReadableIsExact`,
  `ProjectionMoney.AddAllThrowsBehindATenth`).
- Once a user's generation key expires, a create that overlapped a full `revokeAll` can be found
  again (`SessionLaws.ExpiryRevivesAnOverlappingCreate`); the reference still revokes and counts expired
  sessions, which Redis does not (`SessionRefinement.SameAnswers`); a touch under another digest is refused by
  the reference and obeyed by Redis (`SessionRefinement.TouchUnderAnotherDigestDiffers`).
- A client that missed a snapshot can be sent a replay over the wrong base and not notice
  (`ResyncLaws.ReplayDecidesEachPrice`, `ResyncLaws.StaleAcrossASnapshot`); subscribing to a book that
  does not exist fails and leaves the subscriber registered (`MarketData.MarketDataHub.SubscribePublic`);
  with no room for a pending message an increment moves the book and then fails
  (`MarketData.MarketDataHub.PublishIncrement`).
- `executeSensitive` tells a duplicate `replayed` before the operation ends, also if it then fails: the
  answer is safe if and only if the key is recorded already, and otherwise comes true exactly if the
  operation in flight succeeds (`Idempotency.ReplayedIsSafeIffRecorded`,
  `Idempotency.ReplayedOperationDecides`, `Idempotency.ReplayedBeforeFailure`); a plain `execute` that joins it gets the value
  (`Idempotency.PlainCallerJoinsTheCredential`).
- If an enclosing transaction catches the operation's error and commits, the row stays PENDING and
  the key can never be answered again (`PostgresIdempotency.PendingIffSwallowed`,
  `PostgresIdempotency.SwallowedErrorBlocksTheKey`). The transaction manager admits this; no caller in
  the repository wraps `idempotency.execute` in a transaction of its own today.
- Were a COMMIT that took effect ever reported with a retried code, the call would come back to its own
  row (`PostgresIdempotency.RetryFindsItsOwnRow`): still one effect, but an `executeSensitive` caller
  would get word of a replay and not its value.
- A settlement event whose later posting is malformed has already counted the earlier ones, and
  counts them again when it is repaired. The first such event makes a rebuild differ from the live
  models; a later one can make the two coincide again, so a run in which they never differ is exactly
  a run without one (`ProjectionLaws.RebuildableIffNoLateThrow`, `ProjectionLaws.LateThrowBreaksRebuild`,
  `ProjectionLaws.FiveBecomesTen`).
- The audit log's comment says deletion is detected; deletion from the end is not
  (`AuditLogs.DeletionNoticedUnlessLast`), and a record's `id` is not protected
  (`AuditLogs.EditNoticedUnlessIdOnly`).
- The rate limiter's bound needs a clock that does not fall, unless the limit is one
  (`RateLimits.FallingClockBreaksTheBound`, `RateLimits.LimitOneNeedsNoClock`).

## Model

| member | source | states |
|---|---|---|
| Decimals.Normalize | apps/backend/src/modules/shared-kernel/decimal.ts:111-119 | normalising keeps the value, reaches the normal form, and leaves a normal number alone |
| Decimals.NormalizeByLoop | apps/backend/src/modules/shared-kernel/decimal.ts:111-119 | the loop that strips one zero per turn computes that normal form |
| Decimals.RatioIsQuotient | apps/backend/src/modules/shared-kernel/decimal.ts:4-9 | the value used throughout is the coefficient over the power of ten of the scale |
| Decimals.Add | apps/backend/src/modules/shared-kernel/decimal.ts:31-34 | addition is exact on values and its result is normal |
| Decimals.Subtract | apps/backend/src/modules/shared-kernel/decimal.ts:37-51 | subtraction is exact on values |
| Decimals.Multiply | apps/backend/src/modules/shared-kernel/decimal.ts:42-46 | multiplication is exact on values |
| Decimals.Compare | apps/backend/src/modules/shared-kernel/decimal.ts:54-57 | the sign of compare is the order of the values, in both directions |
| Decimals.IsNegative | apps/backend/src/modules/shared-kernel/decimal.ts:69-71 | negative means a value below zero |
| Decimals.IsZero | apps/backend/src/modules/shared-kernel/decimal.ts:74-76 | zero means the value zero |
| Decimals.RoundByUpdate | apps/backend/src/modules/shared-kernel/decimal.ts:79-94 | truncating and then adjusting the quotient equals rounding to the nearest unit, ties away from zero |
| DecimalLaws.NormalFormIsUnique | apps/backend/src/modules/shared-kernel/decimal.ts:111-119 | two normal decimals have the same value if and only if all their fields are equal |
| DecimalLaws.MultipleMeansWholeQuotient | apps/backend/src/modules/shared-kernel/decimal.ts:60-66 | for a positive step and non-negative number, isMultipleOf holds if and only if an integer quotient exists |
| DecimalLaws.RoundWithinHalfUnit | apps/backend/src/modules/shared-kernel/decimal.ts:79-94 | rounding moves a value by at most half a unit of the target digit |
| DecimalLaws.RoundIsMonotone | apps/backend/src/modules/shared-kernel/decimal.ts:79-94 | rounding keeps the order of any two numbers |
| DecimalLaws.RoundIsOdd | apps/backend/src/modules/shared-kernel/decimal.ts:79-94 | rounding a negated number negates the rounding |
| DecimalLaws.RoundIsIdempotent | apps/backend/src/modules/shared-kernel/decimal.ts:79-94 | a rounded number has at most that many digits and rounds to itself |
| DecimalText.PatternLanguage | apps/backend/src/modules/shared-kernel/decimal.ts:1-15 | every text the pattern accepts is a sign, a plain integer part and an optional fraction written together |
| DecimalText.WriteMatches | apps/backend/src/modules/shared-kernel/decimal.ts:1-20 | and every text written so is accepted with exactly those groups |
| DecimalText.FromOfToString | apps/backend/src/modules/shared-kernel/decimal.ts:11-20 | toString of a stored number is always accepted and reads back field for field |
| DecimalText.FromReadsValue | apps/backend/src/modules/shared-kernel/decimal.ts:11-20 | reading an accepted text gives the number its digits spell |
| DecimalText.ToStringInjective | apps/backend/src/modules/shared-kernel/decimal.ts:97-109 | different stored numbers are written differently |
| StringAdder.AddDecimalIsExact | apps/backend/src/modules/projections/application/projection.store.ts:304-313 | on two decimal texts the text adder never throws; its result is a decimal text if and only if the sum is not strictly between -1 and 0, and then equals what Decimal.add gives |
| StringAdder.ShowSumSmallNegative | apps/backend/src/modules/projections/application/projection.store.ts:311-312 | every sum strictly between -1 and 0 is written outside the grammar |
| StringAdderGap.AddReadableIsExact | apps/backend/src/modules/projections/application/projection.store.ts:304-313 | on a text it can read and a decimal text the adder never throws; its result can be read again if and only if the sum is not strictly between -0.1 and 0, and then reads as the exact sum; otherwise every next addition throws |
| StringAdderGap.TenthsAreBare | apps/backend/src/modules/projections/application/projection.store.ts:311-312 | a sum above -1 and at most -0.1 is written as a sign, a point and its digits, and reads as itself |
| StringAdderGap.BelowTenthIsUnreadable | apps/backend/src/modules/projections/application/projection.store.ts:305-312 | a sum strictly between -0.1 and 0 is written so that every later addition to it throws |
| Balances.Credit | apps/backend/src/modules/ledger/domain/balance.ts:32-35 | adds a positive amount to available only; fails exactly for a non-positive amount |
| Balances.Debit | apps/backend/src/modules/ledger/domain/balance.ts:38-43 | takes a positive amount from available; fails exactly for a non-positive or uncovered amount |
| Balances.Reserve | apps/backend/src/modules/ledger/domain/balance.ts:46-49 | moves a covered positive amount from available to reserved, the holding unchanged |
| Balances.Release | apps/backend/src/modules/ledger/domain/balance.ts:52-57 | moves a reserved positive amount back to available, the holding unchanged |
| Balances.DebitReserved | apps/backend/src/modules/ledger/domain/balance.ts:60-65 | takes a positive amount out of reserved; fails exactly when reserved does not cover it |
| Postings.AssertBalanced | apps/backend/src/modules/ledger/domain/posting.ts:17-36 | the two loops accept a batch if and only if debits equal credits in every asset |
| LedgerAggregate.Ledger.RecordBalancedMarker | apps/backend/src/modules/ledger/domain/ledger.ts:313-336 | the balance assertion against the system account never fires, and journal, table and numbering move together |
| LedgerAggregate.Ledger.RegisterAsset | apps/backend/src/modules/ledger/domain/ledger.ts:51-60 | accepts exactly a new id or the very asset already registered, and touches nothing but the catalogue |
| LedgerAggregate.Ledger.RegisterAccount | apps/backend/src/modules/ledger/domain/ledger.ts:63-68 | accepts exactly a new id, and touches nothing but the accounts |
| LedgerAggregate.Ledger.OpenBalance | apps/backend/src/modules/ledger/domain/ledger.ts:76-84 | opens an empty balance for a known account and asset once; otherwise names the failed check and changes nothing |
| LedgerAggregate.Ledger.ListBalanceAssetIds | apps/backend/src/modules/ledger/domain/ledger.ts:87-94 | filtering, cutting and sorting the keys in insertion order computes the listing |
| LedgerAggregate.Ledger.Credit | apps/backend/src/modules/ledger/domain/ledger.ts:106-117 | the method takes exactly the specified step, so a call that throws leaves every field as it was |
| LedgerAggregate.Ledger.Debit | apps/backend/src/modules/ledger/domain/ledger.ts:120-131 | likewise, for a debit |
| LedgerAggregate.Ledger.Reserve | apps/backend/src/modules/ledger/domain/ledger.ts:232-243 | likewise, for a reservation |
| LedgerAggregate.Ledger.Release | apps/backend/src/modules/ledger/domain/ledger.ts:246-257 | likewise, for a release |
| LedgerAggregate.Ledger.Transfer | apps/backend/src/modules/ledger/domain/ledger.ts:134-161 | likewise, for a transfer; its balance assertion never fires |
| LedgerAggregate.Ledger.SettleReservedTransfer | apps/backend/src/modules/ledger/domain/ledger.ts:202-229 | likewise, for a settlement out of reserved |
| LedgerAggregate.Ledger.Compensate | apps/backend/src/modules/ledger/domain/ledger.ts:260-289 | filtering, reversing and rewriting posting by posting takes the specified step, or throws with nothing changed |
| LedgerAggregate.Ledger.Reconcile | apps/backend/src/modules/ledger/domain/ledger.ts:297-307 | reconciliation succeeds in every state a ledger can be in |
| LedgerLaws.EveryRunIsConsistent | apps/backend/src/modules/ledger/domain/ledger.ts:106-289 | after any calls the journal, numbering, operation table and balances fit the applied operations, ids are unique and no balance part is negative |
| LedgerLaws.OppositePairBalances | apps/backend/src/modules/ledger/domain/posting.ts:17-36 | one debit and one credit of the same amount balance in every asset |
| LedgerLaws.BatchOfOperation | apps/backend/src/modules/ledger/domain/ledger.ts:260-264 | filtering the journal by an operation id gives exactly the two postings of that operation, or none |
| LedgerLaws.EveryOperationBalances | apps/backend/src/modules/ledger/domain/ledger.ts:297-307 | the postings of every operation of a consistent ledger balance |
| LedgerLaws.CompensateByPostings | apps/backend/src/modules/ledger/domain/ledger.ts:263-288 | the posting-by-posting compensation is the reversal of the recorded operation |
| LedgerAnswers.MarkerAnswersExactly | apps/backend/src/modules/ledger/domain/ledger.ts:106-257 | credit, debit, reserve and release, for every ledger: which error or success, in the order of the checks; they go through if and only if the balance is open and the amount positive and covered |
| LedgerAnswers.MarkerMovesExactly | apps/backend/src/modules/ledger/domain/ledger.ts:313-336 | what each does to the parts of the one balance, and the pair of postings against the system account that it appends and names in its receipt |
| LedgerAnswers.MoveAnswersExactly | apps/backend/src/modules/ledger/domain/ledger.ts:134-229 | transfer and reserved settlement: they go through if and only if both balances are open and the amount is positive and covered by the payer's available, or reserved, part alone; otherwise which error, and nothing changes |
| LedgerAnswers.MoveMovesExactly | apps/backend/src/modules/ledger/domain/ledger.ts:144-160 | what they move between the two balances, nothing else changing, and the two postings; on one balance only the payee's side is written |
| LedgerAnswers.CompensationAnswersExactly | apps/backend/src/modules/ledger/domain/ledger.ts:263-272 | for every applied original: its two postings are taken back in turn, each needing an open balance and, where it credited, the amount still available |
| LedgerAnswers.CompensationNeedsTheOriginal | apps/backend/src/modules/ledger/domain/ledger.ts:260-264 | a compensation finds nothing to undo if and only if the original was never applied |
| LedgerAnswers.CompensationPostsTheOpposite | apps/backend/src/modules/ledger/domain/ledger.ts:273-288 | it appends the original's two postings with opposite directions, in their order |
| LedgerAnswers.ReceiptsNameThePostings | apps/backend/src/modules/ledger/domain/ledger.ts:157-160 | in every run the receipt of an operation names exactly its postings in the journal, in order |
| LedgerKeys.KeyInjective | apps/backend/src/modules/ledger/domain/ledger.ts:363-365 | for account ids without a colon the joined key stands for one account and asset |
| LedgerKeys.KeyCollisions | apps/backend/src/modules/ledger/domain/ledger.ts:363-365 | exactly which pairs share a key when account ids may hold colons |
| LedgerKeys.ListingIsOwnAndMisread | apps/backend/src/modules/ledger/domain/ledger.ts:87-94 | in every ledger, colons or not, the listing is sorted and holds the assets opened for the account and what the keys of others are misread as; it is exact if and only if no other account's key starts with the account's prefix |
| LedgerKeys.ListingIsExact | apps/backend/src/modules/ledger/domain/ledger.ts:87-94 | so, sorted, it holds exactly the assets opened for the account where no account id has a colon |
| LedgerKeys.ListingMisreadsColons | apps/backend/src/modules/ledger/domain/ledger.ts:87-94 | an instance of the other side: "a" is shown the asset "b:c" of the account "a:b" |
| LedgerMoney.BalancesFollowTheJournal | apps/backend/src/modules/ledger/domain/ledger.ts:106-289 | in every run each available part is credit minus debit postings plus what was paid out of reserved, reserved is what is held, and neither is negative |
| LedgerMoney.MoneyIsConserved | apps/backend/src/modules/ledger/domain/ledger.ts:106-289 | in every run the balances of an asset together hold external credits minus external debits |
| LedgerMoney.MoveConservesIffDistinct | apps/backend/src/modules/ledger/domain/ledger.ts:144-160 | a move conserves money if and only if its accounts differ; on one account it creates the amount |
| LedgerExamples.SelfTransferDoubles | apps/backend/src/modules/ledger/domain/ledger.ts:144-160 | a run of five calls ends with twice what was credited |
| LedgerUndo.CompensationSucceedsExactly | apps/backend/src/modules/ledger/domain/ledger.ts:260-289 | when a compensation goes through, for every state; otherwise nothing changes |
| LedgerUndo.CompensationMovesBack | apps/backend/src/modules/ledger/domain/ledger.ts:265-284 | a successful compensation moves exactly two available parts by the amount, in opposite directions |
| LedgerUndo.MarkersNeedTheSystemBalance | apps/backend/src/modules/ledger/domain/ledger.ts:265-271 | in every run a credit, debit, reserve or release is compensated only while a system balance is open in its asset; in a run that opens no key of the system account the call always throws and changes nothing |
| LedgerUndo.CompensatedTransferRestores | apps/backend/src/modules/ledger/domain/ledger.ts:260-289 | compensating a transfer between different accounts restores every balance field for field |
| LedgerUndo.CompensatedSettlementFreesReserve | apps/backend/src/modules/ledger/domain/ledger.ts:260-289 | compensating a reserved settlement restores the creditor and both holdings, the debtor's amount now available |
| LedgerUndo.ReplayChangesNothing | apps/backend/src/modules/ledger/domain/ledger.ts:112-113 | a call under an applied id answers with the stored receipt and changes nothing |
| LedgerUndo.RunExtends | apps/backend/src/modules/ledger/domain/ledger.ts:157-160 | over any run the journal only grows at its end and receipts never change |
| LedgerUndo.RegistrationsAreForever | apps/backend/src/modules/ledger/domain/ledger.ts:51-68 | over any run what was registered of an asset or an account never changes |
| LedgerUndo.OpeningsAreRegistered | apps/backend/src/modules/ledger/domain/ledger.ts:76-84 | in every run each opened balance is of a registered account and asset |
| LedgerUndo.RepeatGivesTheFirstReceipt | apps/backend/src/modules/ledger/domain/ledger.ts:112-113 | a call that went through gives its first receipt whenever its id is used again, after any other calls and with any arguments, and changes nothing |
| Settlement.OperationIdsInjective | apps/backend/src/modules/realtime-market/application/realtime-execution.service.ts:170-208 | the settlement ids are injective in order id and leg, colons in the order id included |
| SettlementLaws.NotionalIsExact | apps/backend/src/modules/realtime-market/application/realtime-execution.service.ts:58 | the notional is exactly quantity times price |
| SettlementLaws.FeeIsExact | apps/backend/src/modules/realtime-market/application/realtime-execution.service.ts:60 | the fee has at most eighteen digits and is within half a unit of the last of notional times rate, half a unit going away from zero |
| SettlementLaws.NothingElseIsNear | apps/backend/src/modules/realtime-market/application/realtime-execution.service.ts:60 | which determines it: no other number of eighteen digits is that near |
| SettlementLaws.FeeBelowNotional | apps/backend/src/modules/realtime-market/application/realtime-execution.service.ts:58-60 | for a rate in [0,1) the fee is not negative, and when exactly it is below the notional, for notionals of any scale; more than half a unit left after the fee is enough |
| SettlementLaws.TinySellFee | apps/backend/src/modules/realtime-market/application/realtime-execution.service.ts:58-60 | one unit of the eighteenth digit at price 1 and rate 0.6 is charged its whole notional |
| LedgerExamples.TinySellAdmitted | apps/backend/src/modules/realtime-market/application/realtime-execution.service.ts:124-154 | a ledger reached by twelve calls admits that order |
| LedgerExamples.TinySellStopsHalfway | apps/backend/src/modules/realtime-market/application/realtime-execution.service.ts:185-200 | there its settlement stops behind the first leg: the unit is delivered and nothing is paid |
| SettlementLaws.RunStopsAtTheFirstError | apps/backend/src/modules/realtime-market/application/realtime-execution.service.ts:156-209 | for any ledger the legs go through in turn up to the first that throws, and its error is the settlement's |
| SettlementLaws.SettleSucceedsExactly | apps/backend/src/modules/realtime-market/application/realtime-execution.service.ts:124-209 | after the liquidity check a settlement goes through if and only if it is a BUY or its fee is below the notional; otherwise it stops behind the first leg |
| SettlementLaws.SettlementMovesWhatWasPromised | apps/backend/src/modules/realtime-market/application/realtime-execution.service.ts:156-209 | every account's available part of every asset changes by exactly quantity, notional and fee as promised |
| SettlementLaws.PricedOrderSettles | apps/backend/src/modules/realtime-market/application/realtime-execution.service.ts:55-60 | an order computed from quantity, price and rate that passes the check settles in full, if more than half a unit of the eighteenth digit is left after the fee; base moves by quantity, quote by quantity times price, and a fee by the nearest number to that times rate |
| SettlementLaws.ResumeRunsTheRest | apps/backend/src/modules/realtime-market/application/realtime-execution.service.ts:156-209 | after a crash behind any leg, and any other ledger calls, settling again performs exactly the missing legs |
| SettlementLaws.ResumeIsUninterrupted | apps/backend/src/modules/realtime-market/application/realtime-execution.service.ts:156-209 | crash and resume give the very ledger of an uninterrupted run |
| SettlementLaws.RerunChangesNothing | apps/backend/src/modules/realtime-market/application/realtime-execution.service.ts:156-209 | settling again after success changes nothing |
| SettlementLaws.LegIdsDistinct | apps/backend/src/modules/realtime-market/application/realtime-execution.service.ts:170-208 | the ids of one order differ from each other and from every other order's |
| SettlementLaws.RetryChecksFundsTwice | apps/backend/src/modules/realtime-market/application/realtime-execution.service.ts:82-111 | behind one or two legs, for either side, the repeated liquidity check passes exactly when the user had what it pays twice over, and behind two legs the liquidity account as well |
| SettlementLaws.CheckAnswersExactly | apps/backend/src/modules/realtime-market/application/realtime-execution.service.ts:124-154 | for every ledger and order: which of the three errors the check gives, or none, by the balances and the values of quantity, notional and fee |
| SettlementLaws.LegsInOrder | apps/backend/src/modules/realtime-market/application/realtime-execution.service.ts:156-209 | which account pays which other what, under which operation id and in which order, for either side |
| RealtimeExecution.RealtimeExecutionService.EnsureLiquidity | apps/backend/src/modules/realtime-market/application/realtime-execution.service.ts:124-154 | the check reads the five balances and answers as specified, changing nothing |
| RealtimeExecution.RealtimeExecutionService.Settle | apps/backend/src/modules/realtime-market/application/realtime-execution.service.ts:156-209 | the ledger calls issued one by one perform the legs in order up to the first that throws |
| SessionLaws.CopiesAlwaysAgree | apps/backend/src/modules/identity/infrastructure/redis-session.store.ts:98-172 | in every interleaving the token key and the session key of a session hold the same record |
| SessionLaws.RevokedStaysRevoked | apps/backend/src/modules/identity/infrastructure/redis-session.store.ts:98-172 | whatever stale copies clients hold, a revoked session is never written back as live |
| SessionLaws.NoLaterFindReturnsRevoked | apps/backend/src/modules/identity/infrastructure/redis-session.store.ts:80-96 | no find that reads its token after a revocation returns that session |
| SessionLaws.FindReturnsCurrentGenerations | apps/backend/src/modules/identity/infrastructure/redis-session.store.ts:86-92 | a find returns a session if and only if the generation it was created under is still current |
| SessionLaws.FindAnswersExactly | apps/backend/src/modules/identity/infrastructure/redis-session.store.ts:80-96 | a whole find, with any steps of others between its reads, returns exactly the unrevoked record of its first read whose generation is current at its second |
| SessionLaws.RevokeAllKillsOverlappingCreate | apps/backend/src/modules/identity/infrastructure/redis-session.store.ts:60-96 | a create that read the generation before a full revokeAll never yields a session a later find returns, with the user lock lapsed at any time |
| SessionLaws.RevokeAllKillsEarlierSessions | apps/backend/src/modules/identity/infrastructure/redis-session.store.ts:174-195 | the same for every session that existed when the revokeAll began |
| SessionLaws.ExpiryRevivesAnOverlappingCreate | apps/backend/src/modules/identity/infrastructure/redis-session.store.ts:176-181 | once the generation key has expired in between, such a session can be found |
| SessionRevocation.RevokeRunMarks | apps/backend/src/modules/identity/infrastructure/redis-session.store.ts:151-172 | the script of a revoke marks a session that is stored, live and of that user in both copies, at the given time, and changes nothing else; otherwise it changes nothing |
| SessionRevocation.TouchWrites | apps/backend/src/modules/identity/infrastructure/redis-session.store.ts:98-130 | a touch writes the session find returned with its new times to both copies if it is still stored and live, otherwise it changes nothing |
| SessionRevocation.CreateStores | apps/backend/src/modules/identity/infrastructure/redis-session.store.ts:60-78 | a whole create, others stepping in between, stores the session under its digest and the generation it read, in both copies and its user's index |
| SessionRevocation.RevokeKills | apps/backend/src/modules/identity/infrastructure/redis-session.store.ts:146-172 | when a revoke has returned, whatever others did in between, a session written for that user before it began is revoked or gone, for good |
| SessionRevocation.RevokeAllKills | apps/backend/src/modules/identity/infrastructure/redis-session.store.ts:174-195 | when a revokeAll has returned, full or sparing one session, so is every session written for the user before it began, the spared one apart |
| SessionRevocation.RevokedIsNeverFound | apps/backend/src/modules/identity/infrastructure/redis-session.store.ts:80-96 | once either has returned, no find that reads its token later returns such a session |
| SessionRevocation.RevokeAllTouchesNothingElse | apps/backend/src/modules/identity/infrastructure/redis-session.store.ts:185-194 | every step of a revokeAll changes nothing or revokes one live session of that user, never the spared one |
| SessionRevocation.RevokeTouchesNothingElse | apps/backend/src/modules/identity/infrastructure/redis-session.store.ts:146-172 | every step of a revoke changes nothing or revokes the one session it was given, and only if it is that user's |
| SessionRevocation.BeginningCounts | apps/backend/src/modules/identity/infrastructure/redis-session.store.ts:176-184 | beginning a revokeAll moves the user's generation on if it is full and changes nothing if it spares a session |
| SessionAlone.CreateAlone | apps/backend/src/modules/identity/infrastructure/redis-session.store.ts:60-78 | the protocol's steps of a create, run alone, do what the sequential call does |
| SessionAlone.FindAlone | apps/backend/src/modules/identity/infrastructure/redis-session.store.ts:80-96 | likewise for a find |
| SessionAlone.RevokeAlone | apps/backend/src/modules/identity/infrastructure/redis-session.store.ts:146-172 | likewise for a revoke, which ends |
| SessionAlone.RevokeAllAlone | apps/backend/src/modules/identity/infrastructure/redis-session.store.ts:174-195 | likewise for a revokeAll, in whatever order it takes the sessions, which ends |
| SessionReference.MemorySessionStore.FindByTokenDigest | apps/backend/src/modules/identity/infrastructure/memory-identity.stores.ts:161-165 | the search returns the live session of the digest if there is one |
| SessionReference.MemorySessionStore.Touch | apps/backend/src/modules/identity/infrastructure/memory-identity.stores.ts:167-178 | replaces a live session of the same digest and security version, otherwise changes nothing |
| SessionReference.MemorySessionStore.Revoke | apps/backend/src/modules/identity/infrastructure/memory-identity.stores.ts:187-192 | marks a live session of the user revoked, otherwise changes nothing |
| SessionReference.MemorySessionStore.RevokeAll | apps/backend/src/modules/identity/infrastructure/memory-identity.stores.ts:194-204 | the counting loop revokes exactly the user's other live sessions and returns their number |
| SessionReference.RedisSessionStore.RevokeAll | apps/backend/src/modules/identity/infrastructure/redis-session.store.ts:174-195 | likewise on both copies, a full revokeAll also moving the generation on |
| SessionReference.RedisSessionStore.FindByTokenDigest | apps/backend/src/modules/identity/infrastructure/redis-session.store.ts:80-96 | the branches of the Redis find, run without interleaving |
| SessionReference.RedisSessionStore.Create | apps/backend/src/modules/identity/infrastructure/redis-session.store.ts:60-78 | writes both copies and the index under the user's current generation |
| SessionReference.RedisSessionStore.Revoke | apps/backend/src/modules/identity/infrastructure/redis-session.store.ts:146-172 | reads the index, then marks both copies revoked in one script; a miss changes nothing |
| SessionRefinement.SameAnswers | apps/backend/src/modules/identity/infrastructure/memory-identity.stores.ts:154-204 | for every list of calls with fresh ids and digests, while time passes and sessions expire, Redis answers as the in-memory reference does if and only if the call does not revoke a session that had expired unrevoked |
| SessionRefinement.RunsStayInStep | apps/backend/src/modules/identity/infrastructure/memory-identity.stores.ts:154-204 | over every such list what Redis holds is what the reference holds unexpired |
| SessionRefinement.RevokeAllSame | apps/backend/src/modules/identity/infrastructure/redis-session.store.ts:174-195 | a revokeAll has the same targets in both stores, and the generation it moves on strands no live session |
| SessionRefinement.TouchSame | apps/backend/src/modules/identity/infrastructure/redis-session.store.ts:98-130 | a touch with a record of the same session, however stale, is answered alike and keeps the stores in step |
| SessionRefinement.TouchUnderAnotherDigestDiffers | apps/backend/src/modules/identity/infrastructure/redis-session.store.ts:98-130 | a live session touched under another digest is refused by the reference and stored under that digest by Redis |
| OrderBooks.LevelsDecide | apps/backend/src/modules/market-data/domain/market-data.ts:272-277 | what a list of levels makes of every price of a side: untouched where no level has it, otherwise the last level decides, "0" removing it |
| OrderBooks.TouchedHasALast | apps/backend/src/modules/market-data/domain/market-data.ts:272-277 | and that leaves no price open: it is touched if and only if one level is its last |
| OrderBooks.IncrementDecidesEachPrice | apps/backend/src/modules/market-data/domain/market-data.ts:149-159 | so on both sides of the book after an increment |
| OrderBooks.SnapshotIsListed | apps/backend/src/modules/market-data/domain/market-data.ts:132-140 | a snapshot gives each price of each side the quantity of its last level, "0" included, and no other price |
| OrderBooks.PlacesAfterLevel | apps/backend/src/modules/market-data/domain/market-data.ts:272-277 | a rewritten price keeps its place, a new one goes to the end, a deleted one leaves the others in order |
| OrderBooks.SnapshotCarriesTheBook | apps/backend/src/modules/market-data/domain/market-data.ts:168-178 | whoever receives a snapshot holds exactly the hub's book, order of levels included |
| OrderBooks.FollowingAppliesAll | apps/backend/src/modules/market-data/domain/market-data.ts:26-38 | a client sent consecutive increments applies every one of them |
| OrderBooks.IncrementsDecideThePrice | apps/backend/src/modules/market-data/domain/market-data.ts:272-277 | the same increments make two books agree on a price if and only if they write it or the books agreed before |
| ResyncLaws.PublishExtendsTheEpoch | apps/backend/src/modules/market-data/domain/market-data.ts:149-159 | an accepted increment keeps the history equal to the latest thousand increments since the snapshot |
| ResyncLaws.ReplayIffRetained | apps/backend/src/modules/market-data/domain/market-data.ts:187-194 | resync sends a replay if and only if the history reaches back to the given sequence, and then exactly the increments after it |
| ResyncLaws.ResyncConverges | apps/backend/src/modules/market-data/domain/market-data.ts:187-194 | a client with the hub's book as of any sequence since the last snapshot ends with exactly the hub's book, however much was trimmed |
| ResyncLaws.UnretainedConverges | apps/backend/src/modules/market-data/domain/market-data.ts:187-194 | a client the history does not reach converges whatever it held |
| ResyncLaws.ReplayDecidesEachPrice | apps/backend/src/modules/market-data/domain/market-data.ts:187-194 | any other client is right about a price after its replay if and only if the replay writes it or it was right before |
| ResyncLaws.StaleAcrossASnapshot | apps/backend/src/modules/market-data/domain/market-data.ts:132-140 | a snapshot republished at a client's own sequence leaves that client wrong and unaware |
| MarketData.MarketDataHub.PublishSnapshot | apps/backend/src/modules/market-data/domain/market-data.ts:132-140 | replaces the book by the one its levels list, clears its history, and leaves only that book's listeners uninformed |
| MarketData.MarketDataHub.PublishIncrement | apps/backend/src/modules/market-data/domain/market-data.ts:149-165 | a gap changes nothing; otherwise each price on both sides is decided by the increment's last level with it, and every listener that followed still holds the hub's book, or the fan-out stops at the first listener exactly when no message may be pending |
| MarketData.MarketDataHub.Broadcast | apps/backend/src/modules/market-data/domain/market-data.ts:278-288 | delivers to every subscriber in turn, or drops the first one exactly when the pending bound is below one |
| MarketData.EveryoneIsHanded | apps/backend/src/modules/market-data/domain/market-data.ts:278-288 | a full fan-out hands the message to every subscriber behind what it had received |
| MarketData.MarketDataHub.ApplyEach | apps/backend/src/modules/market-data/domain/market-data.ts:272-277 | the loop leaves every price to its last level, deleting it for quantity 0, and computes the specified side, order included |
| MarketData.MarketDataHub.UnsubscribePublic | apps/backend/src/modules/market-data/domain/market-data.ts:295-298 | drops the one subscription, keeps every other listener in step, and is safe to repeat |
| MarketData.MarketDataHub.Resync | apps/backend/src/modules/market-data/domain/market-data.ts:187-194 | the filtering loop computes the answer, and its receiver converges |
| MarketData.MarketDataHub.SubscribePublic | apps/backend/src/modules/market-data/domain/market-data.ts:205-218 | capacity is never exceeded; a new book listener holds the hub's book; a missing book fails the call and still takes a place |
| MarketData.MarketDataHub.SubscribePrivate | apps/backend/src/modules/market-data/domain/market-data.ts:227-244 | a stream of another user is refused before anything is registered |
| MarketData.MarketDataHub.PublishPrivate | apps/backend/src/modules/market-data/domain/market-data.ts:247-249 | a private event reaches exactly the subscribers of its user |
| MarketData.MarketDataHub.PublishTick | apps/backend/src/modules/market-data/domain/market-data.ts:256-262 | a tick reaches exactly the subscribers of its instrument and channel and disturbs no book listener |
| MarketData.MarketDataHub.GetSubscriberCount | apps/backend/src/modules/market-data/domain/market-data.ts:265-270 | the count is the number of subscriptions over both registries |
| MarketData.IncrementReachesListeners | apps/backend/src/modules/market-data/domain/market-data.ts:160-163 | after a full fan-out every listener told of everything since the last snapshot holds the hub's book |
| MarketData.PublicKeyInjective | apps/backend/src/modules/market-data/domain/market-data.ts:292-294 | no two instrument and channel pairs share a registry key, colons included |
| Idempotency.IdempotencyStore.Execute | apps/backend/src/modules/gateway/application/gateway.idempotency.ts:98-127 | the call takes one step of the system of callers and operations, and starts an operation if and only if every earlier one of the key failed |
| Idempotency.IdempotencyStore.OnFulfilled | apps/backend/src/modules/gateway/application/gateway.idempotency.ts:119-123 | the callback takes one step of that system; it never replaces a record, and its operation still holds the key |
| Idempotency.IdempotencyStore.OnFinally | apps/backend/src/modules/gateway/application/gateway.idempotency.ts:124-125 | the callback takes one step of that system; the entry it deletes is its own, and a record stays exactly if the operation succeeded |
| IdempotencyAnswers.CallAnswersExactly | apps/backend/src/modules/gateway/application/gateway.idempotency.ts:99-161 | for every state: which call is answered from the record, which joins or is told of a replay, which is a conflict, and which starts an operation |
| IdempotencyAnswers.SuccessIsRecorded | apps/backend/src/modules/gateway/application/gateway.idempotency.ts:119-126 | an operation that succeeds leaves its key's record, a marker for a credential, frees the in-flight entry and gives every waiting caller the result |
| IdempotencyAnswers.FailureFreesTheKey | apps/backend/src/modules/gateway/application/gateway.idempotency.ts:119-126 | one that fails leaves no record, frees the entry and gives every waiting caller the error |
| IdempotencyAnswers.CredentialsAreNeverRecorded | apps/backend/src/modules/gateway/application/gateway.idempotency.ts:153-157 | in every run the record of a credential is a marker, and any other record its operation's result |
| Idempotency.AtMostOneEffect | apps/backend/src/modules/gateway/application/gateway.idempotency.ts:98-127 | in every interleaving no two operations of one key run at once, and at most one ever succeeds |
| Idempotency.StartsIffAllFailed | apps/backend/src/modules/gateway/application/gateway.idempotency.ts:94-127 | a call starts an operation if and only if every earlier one of the key failed |
| Idempotency.ResultsComeFromTheOneSuccess | apps/backend/src/modules/gateway/application/gateway.idempotency.ts:98-127 | whoever gets a result gets that of the key's one success, for the same fingerprint |
| Idempotency.OneResultPerKey | apps/backend/src/modules/gateway/application/gateway.idempotency.ts:98-162 | all callers of a key that get a result made one request, and when exactly their results are equal |
| Idempotency.RefusedOnlyForAnotherRequest | apps/backend/src/modules/gateway/application/gateway.idempotency.ts:101-117 | a conflict is reported only if another request really used the key |
| Idempotency.RecordsAreForever | apps/backend/src/modules/gateway/application/gateway.idempotency.ts:119-126 | a recorded success is never replaced or removed |
| Idempotency.OneCallerGetsTheCredential | apps/backend/src/modules/gateway/application/gateway.idempotency.ts:130-162 | of the executeSensitive callers of a key at most one gets the value |
| Idempotency.ReplayedIsSafeIffRecorded | apps/backend/src/modules/gateway/application/gateway.idempotency.ts:145-161 | in every run, the key of a call told replayed is recorded at every later time if and only if it is recorded already; if not, the answer came from an operation of the same request in flight, running or refused |
| Idempotency.ReplayedOperationDecides | apps/backend/src/modules/gateway/application/gateway.idempotency.ts:145-161 | at every later time the key carries the record of the operation the call was told of if and only if that operation has succeeded; once it has settled, exactly if it ended Done |
| Idempotency.ReplayedBeforeFailure | apps/backend/src/modules/gateway/application/gateway.idempotency.ts:145-161 | a duplicate can be told replayed although the operation then fails and nothing is recorded |
| Idempotency.PlainCallerJoinsTheCredential | apps/backend/src/modules/gateway/application/gateway.idempotency.ts:109-117 | a plain execute that joins a running executeSensitive gets the value |
| PostgresIdempotency.OneEffectPerRow | apps/backend/src/modules/gateway/infrastructure/postgres-idempotency.store.ts:51-98 | over every run with failures, crashes, lost acknowledgements and retries no key has two committed effects; a key has one exactly if it has a row none of whose errors was swallowed, and the row holds that effect's hash and result |
| PostgresIdempotency.ReturnsTheCommittedResult | apps/backend/src/modules/gateway/infrastructure/postgres-idempotency.store.ts:65-98 | in every run, a call that returns, and whose enclosing transaction if any commits, was answered from the key's one committed effect of the same hash |
| PostgresIdempotency.WithdrawnLeavesNothing | apps/backend/src/infrastructure/postgres/postgres-transaction.ts:47-48 | a result handed to an enclosing transaction that rolled back is that of no committed effect |
| PostgresIdempotency.RaisedForAReason | apps/backend/src/modules/gateway/infrastructure/postgres-idempotency.store.ts:73-85 | the PENDING branch is taken only for a key one of whose errors was swallowed, or by a call inside the open transaction of another call of the same key and hash; a key conflict is with another committed hash, or with the hash of the call whose transaction it is made in |
| PostgresIdempotency.EchoIsOfItsTransaction | apps/backend/src/modules/gateway/infrastructure/postgres-idempotency.store.ts:65-80 | a call made in the same transaction behind a call of its key is told that call's result for the same request; where the transaction commits, it is the key's one committed effect |
| PostgresIdempotency.SecondInsertWaits | apps/backend/src/modules/gateway/infrastructure/postgres-idempotency.store.ts:56-63 | while one transaction has a key inserted, no other has, and an INSERT of the key waits |
| PostgresIdempotency.SwallowedErrorBlocksTheKey | apps/backend/src/infrastructure/postgres/postgres-transaction.ts:47-48 | once an enclosing transaction has swallowed the error of a call that held the key, from any state and whatever comes later, no call of the key is ever answered |
| PostgresIdempotency.PendingIffSwallowed | apps/backend/src/infrastructure/postgres/postgres-transaction.ts:47-48 | in every run a key's row is PENDING if and only if that has happened |
| PostgresIdempotency.SwallowingRun | apps/backend/src/infrastructure/postgres/postgres-transaction.ts:47-48 | a run in which it happens |
| PostgresIdempotency.RetryFindsItsOwnRow | apps/backend/src/infrastructure/postgres/postgres-transaction.ts:56-62 | a call whose COMMIT took effect but was reported with a retried code comes back, finds its row and is given its own result as a replay: still one effect |
| PostgresAnswers.NewKeyIsApplied | apps/backend/src/modules/gateway/infrastructure/postgres-idempotency.store.ts:51-98 | a call with a key that has no row and no holder inserts it, runs, and commits row and effect together, a marker for a credential; nothing else changes |
| PostgresAnswers.RowIsAnswered | apps/backend/src/modules/gateway/infrastructure/postgres-idempotency.store.ts:65-85 | a call with a key that has a row is answered from it, told of a replay, or fails with the error its hash and status ask for; nothing is written |
| PostgresAnswers.InsertWaitsExactly | apps/backend/src/modules/gateway/infrastructure/postgres-idempotency.store.ts:56-63 | an INSERT waits if and only if another open transaction holds the key |
| PostgresAnswers.RollbackExactly | apps/backend/src/infrastructure/postgres/postgres-transaction.ts:56-62 | a failed call is rolled back, retried if and only if its code is one of three and attempts are left, and frees the key it held |
| PostgresAnswers.InterruptionsWriteNothing | apps/backend/src/infrastructure/postgres/postgres-transaction.ts:51-62 | a refused connection, a failure and a crash write nothing, and a crash frees the key |
| PostgresAnswers.HandedExactly | apps/backend/src/infrastructure/postgres/postgres-transaction.ts:47-48 | inside an enclosing transaction the result is handed over, and committed or withdrawn with that transaction |
| PostgresAnswers.ReenteringIsAnswered | apps/backend/src/modules/gateway/infrastructure/postgres-idempotency.store.ts:65-85 | what a second call of the key is told inside the same open transaction |
| PostgresAnswers.CredentialsAreNeverStored | apps/backend/src/modules/gateway/infrastructure/postgres-idempotency.store.ts:133-137 | in every run the row of a credential holds a marker, and any other row its effect's result |
| PostgresAnswers.AttemptsAreBounded | apps/backend/src/infrastructure/postgres/postgres-transaction.ts:51-62 | in every run no call makes more than the allowed attempts |
| PostgresTransactions.PostgresTransactionManager.Run | apps/backend/src/infrastructure/postgres/postgres-transaction.ts:43-68 | inside an open transaction the operation runs once; otherwise the loop stops at the first turn that is not retried and returns its outcome, and commits once when it resolves unless an earlier turn lost the acknowledgement of its COMMIT |
| PostgresTransactions.UsedIsWhereItStops | apps/backend/src/infrastructure/postgres/postgres-transaction.ts:51-66 | a run of retried turns ends with the first that is not retried, or the last allowed |
| PostgresTransactions.RetriedExactly | apps/backend/src/infrastructure/postgres/postgres-transaction.ts:81-89 | what is retried: serialization failure, deadlock and lock not available, of a statement or of COMMIT |
| PostgresTransactions.RetriesThenResolves | apps/backend/src/infrastructure/postgres/postgres-transaction.ts:51-62 | such a failure followed by a success resolves, while attempts are left |
| PostgresTransactions.OtherErrorsAreThrown | apps/backend/src/infrastructure/postgres/postgres-transaction.ts:60 | any other error is thrown at once |
| PostgresTransactions.LastErrorIsThrown | apps/backend/src/infrastructure/postgres/postgres-transaction.ts:56-66 | when every attempt meets such a failure, the last one is thrown |
| PostgresTransactions.Backoff | apps/backend/src/infrastructure/postgres/postgres-transaction.ts:92-96 | the delay is at least the exponential, never above the bound, and jitter adds less than a quarter |
| PostgresTransactions.DelaysDoNotShrink | apps/backend/src/infrastructure/postgres/postgres-transaction.ts:92-96 | before jitter, later attempts never wait less |
| PostgresTransactions.DelaysDouble | apps/backend/src/infrastructure/postgres/postgres-transaction.ts:92-96 | the first delay is the base, and each later one twice the one before, up to the bound |
| ScopedKeys.SplitIsFaithful | apps/backend/src/modules/gateway/infrastructure/postgres-idempotency.store.ts:144-150 | which keys are accepted, and that different keys have different columns |
| Projection.ProjectionStore.Apply | apps/backend/src/modules/projections/application/projection.store.ts:107-161 | a duplicate or gap changes nothing; otherwise the specified step, a failure included |
| Projection.ProjectionStore.AddPostings | apps/backend/src/modules/projections/application/projection.store.ts:269-286 | the loop settles the postings in turn up to the first that throws |
| Projection.ProjectionStore.ApplySettlement | apps/backend/src/modules/projections/application/projection.store.ts:262-287 | a payload without a list of postings fails untouched; otherwise the postings are settled, a failure keeping what came before |
| Projection.ProjectionStore.Rebuild | apps/backend/src/modules/projections/application/projection.store.ts:164-176 | clears everything and applies the list up to the first event that throws |
| Projection.ProjectionStore.ObserveSourceSequence | apps/backend/src/modules/projections/application/projection.store.ts:221-227 | rejects a position below the applied one, otherwise raises the watermark |
| ProjectionViews.AnswersExactly | apps/backend/src/modules/projections/application/projection.store.ts:107-147 | for every store and event: duplicate, gap, malformed settlement, settlement that throws, or done, and what each leaves unchanged |
| ProjectionViews.OrderEventIsShown | apps/backend/src/modules/projections/application/projection.store.ts:235-246 | an accepted order event writes the view of its order, each field from the payload field of its own name, with its status, and nothing else |
| ProjectionViews.TradeIsShown | apps/backend/src/modules/projections/application/projection.store.ts:248-260 | likewise for a trade, maker before taker |
| ProjectionViews.PostingIsShown | apps/backend/src/modules/projections/application/projection.store.ts:269-286 | when a posting goes through and what it makes of the one balance of its account and asset |
| ProjectionViews.ViewsShowTheLastEvent | apps/backend/src/modules/projections/application/projection.store.ts:107-260 | in every run an order or trade is shown if and only if an accepted event names it, and as the last such event tells it |
| ProjectionViews.BalancesStandUnderTheirKeys | apps/backend/src/modules/projections/application/projection.store.ts:270-272 | in every run each balance stands under the account and asset it shows |
| ProjectionLaws.AcceptedExactlyOnceInOrder | apps/backend/src/modules/projections/application/projection.store.ts:107-149 | in every run the accepted events are sequences 1 to the applied one with distinct ids, and the source position is never below it |
| ProjectionLaws.RebuildEqualsLive | apps/backend/src/modules/projections/application/projection.store.ts:164-176 | if every settlement that throws does so at its first posting, rebuilding from the accepted events gives the live models, ids and position |
| ProjectionLaws.RebuildableIffNoLateThrow | apps/backend/src/modules/projections/application/projection.store.ts:107-176 | for every run, the accepted events build the live models at each point if and only if no settlement threw behind a posting that had gone through |
| ProjectionLaws.LateThrowBreaksRebuild | apps/backend/src/modules/projections/application/projection.store.ts:262-287 | the first settlement that throws so late makes rebuild and live models differ |
| ProjectionMoney.PlainFeedIsRebuilt | apps/backend/src/modules/projections/application/projection.store.ts:164-176 | where all deltas are decimals and no running sum of a balance is strictly between -0.1 and 0, rebuilding always gives the live store |
| ProjectionLaws.HarmlessIffFirstPostingThrows | apps/backend/src/modules/projections/application/projection.store.ts:262-287 | a settlement that throws leaves the models alone if and only if its first posting throws, on balances that carry no later sequence |
| ProjectionLaws.EarlyRunsAreDated | apps/backend/src/modules/projections/application/projection.store.ts:280-285 | no balance carries a sequence that has not been applied, in every run without a late throw |
| ProjectionLaws.RetryCountsTwice | apps/backend/src/modules/projections/application/projection.store.ts:262-287 | a settlement repaired and sent again counts its first posting twice |
| ProjectionLaws.FiveBecomesTen | apps/backend/src/modules/projections/application/projection.store.ts:262-287 | credited "5" and then "x", repaired to "5": the balance reads "10" where a rebuild gives "5" |
| StringAdder.WholeNumbersAdd | apps/backend/src/modules/projections/application/projection.store.ts:304-313 | plain numerals add up to the numeral of their sum |
| ProjectionLaws.SourceBelowAppliedIff | apps/backend/src/modules/projections/application/projection.store.ts:170-171 | the one kind of list whose rebuild leaves the source position below the applied one |
| ProjectionMoney.BalanceIsFoldOfDeltas | apps/backend/src/modules/projections/application/projection.store.ts:262-287 | every projected balance is the fold of the text adder over its deltas in event order |
| ProjectionMoney.AddAllIsExact | apps/backend/src/modules/projections/application/projection.store.ts:305-313 | the fold stays decimal if and only if no running sum is strictly between -1 and 0, and then is the exact total that Decimal.add gives |
| ProjectionMoney.AddAllThrowsBehindATenth | apps/backend/src/modules/projections/application/projection.store.ts:305-313 | the fold can be added to, and reads as the exact total, if and only if no running sum is strictly between -0.1 and 0; it throws exactly behind the first such sum |
| ProjectionMoney.BalancesAreExact | apps/backend/src/modules/projections/application/projection.store.ts:262-313 | under that condition a projected balance is the exact sum of everything the events added to it |
| AuditLogs.AuditLog.Append | apps/backend/src/modules/audit/domain/audit-log.ts:87-116 | an appended record links to the log before it, so a log built by appending is intact |
| AuditLogs.AuditLog.VerifyIntegrity | apps/backend/src/modules/audit/domain/audit-log.ts:132-163 | the loop accepts if and only if every record has its place, its predecessor's hash and its own hash |
| AuditLogs.LastHashPinsTheLog | apps/backend/src/modules/audit/domain/audit-log.ts:132-163 | two accepted logs with the same last hash have the same length and agree in every hashed field |
| AuditLogs.PrefixIntact | apps/backend/src/modules/audit/domain/audit-log.ts:132-163 | deletion from the end is never noticed |
| AuditLogs.DeletionNoticedUnlessLast | apps/backend/src/modules/audit/domain/audit-log.ts:132-163 | deleting one record goes unnoticed if and only if it is the last |
| AuditLogs.ExchangeNoticed | apps/backend/src/modules/audit/domain/audit-log.ts:132-163 | exchanging two records is always noticed |
| AuditLogs.InsertionNoticedUnlessLast | apps/backend/src/modules/audit/domain/audit-log.ts:132-163 | inserting a record before another is always noticed |
| AuditLogs.EditNoticedUnlessIdOnly | apps/backend/src/modules/audit/domain/audit-log.ts:142-154 | replacing a record before the end goes unnoticed if and only if every hashed field and the hash stay the same |
| AuditLogs.LastEditNoticedIff | apps/backend/src/modules/audit/domain/audit-log.ts:132-163 | exactly which replacements of the last record go unnoticed |
| RateLimits.RateLimitService.Check | apps/backend/src/modules/gateway/application/gateway.rate-limit.ts:47-56 | opens or counts on the key's window, refusing beyond the limit; refused requests count too |
| RateLimits.WindowsCountExactly | apps/backend/src/modules/gateway/application/gateway.rate-limit.ts:47-56 | for any clock, a key's window began with the request that found none or an expired one, and counts the key's requests since, refused ones included |
| RateLimits.FewerThanTwiceTheLimit | apps/backend/src/modules/gateway/application/gateway.rate-limit.ts:47-56 | with a clock that never falls between the key's own requests, any half-open interval of one window length sees at most 2 * limit - 1 accepted for the key, at most limit where the window is one millisecond, and none where limit or window is not positive |
| RateLimits.BoundIsReached | apps/backend/src/modules/gateway/application/gateway.rate-limit.ts:47-56 | for every limit and window some run with such a clock reaches that bound |
| RateLimits.FallingClockBreaksTheBound | apps/backend/src/modules/gateway/application/gateway.rate-limit.ts:47-56 | for every limit of two or more, window and n, a clock that falls lets n + 1 through in one interval |
| RateLimits.LimitOneNeedsNoClock | apps/backend/src/modules/gateway/application/gateway.rate-limit.ts:47-56 | with a limit of one the bound holds whatever the clock does |

## Left out

- Posting ids are the number in `posting-n`; `createId` rejecting blank ids is not modelled, and sorting compares characters rather than UTF-16 units.
- BigInt literals other than signed decimal digits (hexadecimal, blanks around digits) do not occur in the modelled texts; `Decimal.fromInteger` is left out.
- PostgresLedgerAdapter and PostgresProjectionStore: their repositories are not part of this model.
- The steps of `execute` around pricing, catalogue, ownership, replay lookup and publication: only its arithmetic, check and settlement are modelled.
- The user lock of the session store: it may lapse at any time, so the protocol allows every interleaving, with or without it.
- Record size limits, connection deadlines, reconnects, `listByUser` order and `trimToLimit` of the session store.
- SessionLaws.CopiesAlwaysAgree: a client touches a session under the digest it found it by, as `authenticate` does (apps/backend/src/modules/auth/application/human-auth.service.ts:155-177), and the two keys of a session expire together.
- Expiry of the per-user index of sessions.
- SessionRefinement.SameAnswers: takes the keys of a session to go when the session expires; the rounding of a time to live up to whole seconds and the longer life of a revoked record, which no call can see, are not modelled.
- A subscriber handler that throws or calls the hub again; the handler of the model only records its message.
- Operations of the in-memory idempotency store that call it back synchronously, or that throw before they return a promise.
- PostgreSQL itself: isolation is represented by the waiting INSERT and by commits that are atomic, and retention never deletes a row.
- Pagination, cursors and the order of pages of the projection; schema migration.
- AuditLogs.LastHashPinsTheLog: takes the hash of a serialised body to be injective, which excludes numbers that JSON cannot tell apart.
- Sequence numbers beyond the range in which JavaScript numbers are exact integers.
- A rate limit or window that is not a number, and floating-point clocks.
- HTTP and WebSocket controllers, guards, DTOs, validation schemas, configuration and the frontend; matching, sequencing and the instrument catalogue.
