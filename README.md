# Ledger engine of transactions-api, modelled in Dafny

This project models the money-movement core of the NestJS transactions API:
`TransactionService.transferMoney` and `TransactionService.reverseTransaction`.
It works over a store of user balances and transaction records.

- `balances.dfy` (module `Balances`) holds the balance map. `Debit` and
  `Credit` are the two single-row `decrement`/`increment` updates. `Move` is
  the net effect of a pair of them. `Total` is the sum of all balances.
- `ledger.dfy` (module `Ledger`) holds the transaction records and the
  `Store` one database transaction sees. `Transfer` and `Reverse` give the
  meaning of one call as a pure function from store to store. `Run` chains
  calls. The class `TransactionService` performs the calls as step-by-step
  writes to its fields: two balance updates, then the record create or
  update. Each method is proved to end in exactly the state, and return
  exactly the result, given by `Transfer` or `Reverse`.

Each call runs inside one `prisma.$transaction` callback, and every check
comes before the first write. So a call either commits all its writes or
throws with the store unchanged. In the model a rejected call returns `Err`
and leaves the store as it was.

Modelling decisions:

- Amounts and balances are integers in minor currency units. An amount that
  reaches the service is positive, because the request DTO demands
  `@Min(0.01)` (`src/transaction/dto/create-transaction.dto.ts:11`). The
  service itself does not re-check it, so `amount > 0` is a precondition and
  not an error case.
- Record ids are handed out by a counter, `nextId`, which stands for the
  store's fresh id.
- Records only ever name existing accounts (`WellFormed`). This matches the
  sender/recipient relations the records carry, which the reversal's
  `include: { sender, recipient }` relies on.
- Three behaviours of the service are kept as written:
  - A self-transfer (`senderId == recipientId`) is accepted. It still needs
    `balance >= amount`, and it leaves every balance as it was
    (`SelfTransferIsNetZero`).
  - The service has no error for a non-positive amount. Only the DTO bound
    keeps amounts positive.
  - A reversal does not check that the recipient can still cover the amount.
    So balances are not kept non-negative. `ReversalCanOverdraw` shows a
    sequence of accepted calls that starts from non-negative balances and
    ends with one account below zero. For example, with A = 100 and B = 0,
    the sequence A to B 100, B to A 100, then reversing the first, leaves B
    at -100.
- The service raises three error messages; two of them each cover two
  cases. The `Error` datatype keeps that grouping: missing sender or
  recipient; insufficient balance; record missing or already reversed.

## Model

| member | source | states |
|---|---|---|
| `Balances.Debit` | src/transaction/transaction.service.ts:24-27 | the decrement lowers exactly the named account by the amount; every other account and the set of accounts are unchanged |
| `Balances.Credit` | src/transaction/transaction.service.ts:29-32 | the increment raises exactly the named account by the amount; every other account and the set of accounts are unchanged |
| `Balances.Move` | src/transaction/transaction.service.ts:24-32 | the net effect of a transfer satisfies `Moved`: same accounts, sender down and recipient up by the amount when they differ, no change for a self-transfer, no other account touched |
| `Balances.MovedDetermines` | src/transaction/transaction.service.ts:24-32 | `Moved` fixes the resulting balance map uniquely |
| `Balances.MoveIsDebitThenCredit` | src/transaction/transaction.service.ts:24-32 | the transfer's decrement-then-increment writes, including onto the same account, net to `Move` |
| `Balances.MoveIsCreditThenDebit` | src/transaction/transaction.service.ts:57-65 | the reversal's increment-then-decrement writes net to `Move` in the opposite direction |
| `Balances.MoveBack` | src/transaction/transaction.service.ts:57-65 | moving an amount back between the same two accounts restores the original balance map |
| `Balances.TotalRemove` | src/transaction/transaction.service.ts:24-32 | the sum of balances is any one account's balance plus the sum of the rest |
| `Balances.TotalChange` | src/transaction/transaction.service.ts:24-32 | a balance map that differs from another in one account only has a sum that differs by exactly that account's difference |
| `Balances.DebitTotal` | src/transaction/transaction.service.ts:24-27 | a decrement lowers the sum of balances by exactly the amount |
| `Balances.CreditTotal` | src/transaction/transaction.service.ts:29-32 | an increment raises the sum of balances by exactly the amount |
| `Balances.MoveConservesTotal` | src/transaction/transaction.service.ts:24-32 | a move leaves the sum of all balances unchanged |
| `Balances.MovePreservesNonNegative` | src/transaction/transaction.service.ts:20-32 | when all balances are non-negative and the sender covers the amount, all balances stay non-negative |
| `Ledger.RecordsEvolveTransitive` | src/transaction/transaction.service.ts:67-70 | "records only gain keys and only flip reversed from false to true" composes across calls |
| `Ledger.Transfer` | src/transaction/transaction.service.ts:9-42 | success iff both accounts exist and the sender balance is at least the amount (equal is allowed); a missing account gives SenderOrRecipientNotFound and a short balance gives InsufficientBalance, both with the store unchanged; on success the balances satisfy `Moved`, the sender ends non-negative, the record returned is unreversed with the given parties and amount, it is filed under the next id, and the next id advances by one |
| `Ledger.Reverse` | src/transaction/transaction.service.ts:44-72 | fails with NotFoundOrAlreadyReversed and the store unchanged iff the record is missing or already reversed; otherwise the balances satisfy `Moved` from recipient to sender by the record's amount, with no funds check, and only that record changes, to the same record with `reversed = true`, which is also the result |
| `Ledger.TransferKeepsRecords` | src/transaction/transaction.service.ts:34-40 | from a well-formed store a transfer gives a well-formed store, every existing record is left exactly as it was, and a success adds exactly one record under an id not used before |
| `Ledger.ReverseKeepsRecords` | src/transaction/transaction.service.ts:67-70 | a reversal keeps the store well formed, and every record keeps its id, parties and amount, with its flag only going from false to true |
| `Ledger.TransferConservesTotal` | src/transaction/transaction.service.ts:24-32 | a transfer, accepted or rejected, keeps the sum of all balances |
| `Ledger.ReverseConservesTotal` | src/transaction/transaction.service.ts:57-65 | a reversal, accepted or rejected, keeps the sum of all balances |
| `Ledger.TransferPreservesNonNegative` | src/transaction/transaction.service.ts:20-32 | from all non-negative balances, a transfer leaves all balances non-negative |
| `Ledger.SelfTransferIsNetZero` | src/transaction/transaction.service.ts:16-32 | a self-transfer succeeds iff the account exists and covers the amount, and leaves every balance unchanged |
| `Ledger.TransferThenReverseRestores` | test/app.e2e-spec.ts:118-147 | reversing the record a successful transfer created succeeds, restores every balance to its value before the transfer, and leaves that record marked reversed |
| `Ledger.SecondReversalFails` | src/transaction/transaction.service.ts:51-55 | after a successful reversal, reversing the same record again fails with NotFoundOrAlreadyReversed and changes nothing |
| `Ledger.Apply` | src/transaction/transaction.service.ts:9-72 | one call of either kind keeps the store invariant and only lets records evolve |
| `Ledger.Run` | src/transaction/transaction.service.ts:9-72 | any sequence of calls keeps the store invariant |
| `Ledger.RunConservesTotal` | src/transaction/transaction.service.ts:9-72 | no sequence of transfers and reversals changes the sum of all balances |
| `Ledger.RunEvolvesRecords` | src/transaction/transaction.service.ts:9-72 | over any sequence of calls, records are never removed, keep their id, parties and amount, and stay reversed once reversed |
| `Ledger.ReversedStaysFinal` | src/transaction/transaction.service.ts:51-55 | once a record is reversed, a reversal of it fails after any later sequence of calls |
| `Ledger.TransferAndReverseScenario` | test/app.e2e-spec.ts:118-147 | balances 1000/0, transfer 100 gives 900/100 and an unreversed record; its reversal gives 1000/0 with the record reversed; a second reversal fails with nothing changed |
| `Ledger.ReversalCanOverdraw` | src/transaction/transaction.service.ts:57-65 | from non-negative balances where `a` covers `x` and `b` holds less than `x`: the transfers a to b and b to a of `x` and the reversal of the first are all accepted, and `b` ends below zero |
| `Ledger.TransactionService.constructor` | src/transaction/transaction.service.ts:7 | the service starts over the given accounts with no records, and the store invariant holds |
| `Ledger.TransactionService.TransferMoney` | src/transaction/transaction.service.ts:9-42 | the lookups, the two checks, the decrement, the increment and the record create leave the fields equal to the store `Transfer` gives and return its result; the invariant is kept |
| `Ledger.TransactionService.ReverseTransaction` | src/transaction/transaction.service.ts:44-72 | the lookup, the check, the increment, the decrement and the flag update leave the fields equal to the store `Reverse` gives and return its result; the invariant is kept |

## Left out

- Prisma itself: the `$transaction` API, isolation levels, and the query shapes of `findUnique`, `update` and `create`. Atomicity becomes the all-or-nothing contract above.
- Concurrency and locking. Every call is one sequential step. The service takes no locks of its own beyond the store transaction.
- `Prisma.Decimal` values and JavaScript `number` amounts, including the `toNumber()` comparison. These are floating point or decimal arithmetic; the model uses exact integers in minor units.
- Record id generation and `createdAt` timestamps. The id is a counter and the timestamp is not modelled.
- Failures of the store (a conflict, a lost connection). They abort the whole unit of work, which the model can only express as "nothing changed", so they are not modelled as separate outcomes.
- Account creation, user lookups, password hashing and logging (`src/user/user.service.ts`), authentication (`src/auth/*`) and the controllers. They only forward arguments or are outside the ledger. The constructor takes the initial accounts instead.
- Validation in the DTO. Only its `amount > 0` consequence is kept, as a precondition.
