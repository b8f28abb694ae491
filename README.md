# Ledger engine model

This project models the ledger engine of a small account service and proves
properties of it. The service keeps two PostgreSQL tables, `accounts` and
`transactions`, and offers five operations:

- create an account;
- look up an account;
- deposit into an account;
- transfer money between two accounts;
- look up a transaction.

Every operation that writes runs inside one database transaction, so a failure
rolls back all the row changes it made.

Money is handled as whole cents. A balance or amount fits the columns'
NUMERIC(8, 2) type when its magnitude is at most 99999999 cents (999999.99).

The modules, one per source file or component:

- `Wrappers`: `Option` and `Result`.
- `Constants`: the reason codes attached to fields.
- `Exceptions`: the engine's exceptions, plus `NumericValueOutOfRange`. This is
  the database error raised by a statement that no `except` clause covers.
- `Tables`: the rows and the database state (`Store`). `ValidStore` is every
  constraint of the migration: balance and amount bounds, unique emails, ids
  drawn from the serial sequences, and foreign keys.
- `LedgerSpec`: the effect of each `DBHandler` operation as one atomic step on
  a `Store` value. It also holds the lemmas that relate several steps.
- `DbHandler`: class `Ledger`, whose fields are the two tables and the two
  sequences. Each method runs the source's SQL statements in order, and
  restores the tables when a later statement fails. Each method is proved to
  compute exactly its `LedgerSpec` function and to keep `Valid()`.
- `Schemas`: `gt_zero` over exact decimals.
- `AppHandlers`: how the HTTP handlers turn engine outcomes into responses
  with per-field errors.

Facts taken from the code and from PostgreSQL's behaviour:

- Sequence values are not rolled back. An INSERT that fails on a constraint
  (a duplicate email, say) still uses up the id it drew. An INSERT that fails
  on a NUMERIC(8, 2) range error may use up its id. The database may fold the
  cast of the bound value when it plans the statement, in which case the
  error comes before the sequence is drawn. The model draws the id in every
  case. No property depends on the sequence value after a failure. On every
  failure the tables are unchanged.
- `create_account` catches only the unique violation. An initial balance
  outside NUMERIC(8, 2) raises an uncaught error. Over HTTP this cannot
  happen: the request schema for account creation lists only `email`, and
  the validator refuses unknown fields. So every HTTP call reaches the engine
  with no initial balance, and the handler's server-error branch is
  reachable only by calling the engine directly.
- In `create_account_payment`, the INSERT of the transaction row is outside the
  `try`. An amount that fits the new balance but not the `amount` column
  escapes uncaught. For a positive amount that needs a negative balance. A
  negative amount can do it from a non-negative balance.
- In `create_transaction`, the INSERT and the target credit are inside the
  `try`, but the source debit is not. A debit overflow escapes uncaught. That
  is only possible with amount <= 0.
- The engine does not check that amounts are positive. That check is done
  upstream by `gt_zero`. The model keeps the engine's real behaviour for every
  amount, and states which outcomes a positive amount rules out.
- For `source == target` with an existing account, the locking query returns
  one row. The engine then raises `AccountNotFound` with an empty field list.
  The handler's same-account guard is what keeps this from becoming an error
  response that names no field.
- Each account's ledger sum is preserved by create, deposit and transfer. The
  ledger sum is the balance minus the net of the transaction log for that
  account, i.e. its opening balance. `drop_account` is not covered: it deletes
  transfers without changing the other account's balance.

## Model

| member | source | states |
|---|---|---|
| `Tables.BalancesFit` | migrations/20201005_01_VLFX5-initial.py:14 | every balance fits NUMERIC(8, 2) |
| `Tables.EmailsUnique` | migrations/20201005_01_VLFX5-initial.py:13 | no two accounts share an email |
| `Tables.AccountIdsIssued` | migrations/20201005_01_VLFX5-initial.py:12 | every account id was drawn from its serial sequence, so it lies between 1 and the next value |
| `Tables.TxIdsIssued` | migrations/20201005_01_VLFX5-initial.py:18 | every transaction id was drawn from its serial sequence, and rows appear in increasing id order |
| `Tables.AmountsFit` | migrations/20201005_01_VLFX5-initial.py:21 | every amount fits NUMERIC(8, 2) |
| `Tables.ReferencesExist` | migrations/20201005_01_VLFX5-initial.py:19-20 | every target, and every source that is not NULL, is an existing account |
| `Tables.ValidStore` | migrations/20201005_01_VLFX5-initial.py:10-24 | all constraints of the migration at once; every engine operation keeps it |
| `Tables.EmptyIsValid` | migrations/20201005_01_VLFX5-initial.py:10-24 | the freshly migrated database satisfies every table constraint |
| `Tables.KeysAreUnique` | migrations/20201005_01_VLFX5-initial.py:12-18 | serial primary keys: transaction ids are pairwise distinct and no id is 0 |
| `Tables.ReferencedAccountIsRestricted` | migrations/20201005_01_VLFX5-initial.py:19-20 | an account that a transaction row refers to exists, and deleting it would leave a dangling reference (ON DELETE RESTRICT) |
| `DbHandler.Ledger.constructor` | migrations/20201005_01_VLFX5-initial.py:11-23 | the engine starts from empty tables with both sequences at 1, which is a valid state |
| `LedgerSpec.CreateAccount` | server/handlers.py:26-39 | keeps the constraints and appends no transaction; an initial balance outside NUMERIC(8, 2) gives the uncaught NumericValueOutOfRange, and only it does; succeeds iff the balance fits and the email is unused; stores a fresh id with the initial balance (0 when absent) and leaves every other account unchanged; a used email gives DuplicateAccountEmail with no change to the tables |
| `DbHandler.Ledger.CreateAccount` | server/handlers.py:26-39 | running the INSERT step by step (sequence value drawn, then the range check and the unique check) has exactly the atomic effect above and keeps `Valid()` |
| `DbHandler.Ledger.DropAccount` | server/handlers.py:41-50 | deleting the account's transactions first makes the account's own delete pass ON DELETE RESTRICT; the result is `LedgerSpec.DropAccount` and keeps `Valid()` |
| `LedgerSpec.DropAccount` | server/handlers.py:41-50 | the account is gone, exactly the transactions not referring to it remain, and every constraint still holds |
| `LedgerSpec.Unreferencing` | server/handlers.py:45-47 | keeps exactly the rows that do not refer to the account, in their original order |
| `LedgerSpec.GetAccount` | server/handlers.py:52-57 | returns the stored row iff the id exists, AccountNotFound (no extra info) otherwise |
| `DbHandler.Ledger.GetAccount` | server/handlers.py:52-57 | returns the `LedgerSpec.GetAccount` result and changes nothing (no modifies clause) |
| `LedgerSpec.CreateAccountPayment` | server/handlers.py:59-77 | AccountNotFound iff the id is absent; AccountBalanceExceededMaximum iff the new balance overflows; NumericValueOutOfRange iff the balance fits but the amount does not; success iff the account exists and both the new balance and the amount fit; on success only that balance grows by the amount and exactly one row (no source, that target, the amount) is appended; every failure leaves the tables unchanged; a positive deposit to a non-negative balance never escapes uncaught |
| `DbHandler.Ledger.CreateAccountPayment` | server/handlers.py:59-77 | the UPDATE-then-INSERT sequence, with rollback of the update when the INSERT fails, has exactly the atomic effect above and keeps `Valid()` |
| `LedgerSpec.LockedRows` | server/handlers.py:83-96 | the locking query returns fewer than two rows exactly when an id is missing or the ids are equal; otherwise the source row comes first and the target row second |
| `LedgerSpec.RowIds` | server/handlers.py:91 | the ids of the locked rows, one per row, in row order |
| `LedgerSpec.Unmatched` | server/handlers.py:91-93 | the comprehension lists every role whose id was not returned, and only those |
| `LedgerSpec.MissingFieldsAreAbsentRoles` | server/handlers.py:88-94 | `extra_info` is exactly the roles whose account does not exist, source then target; for source == target on an existing account it is empty |
| `LedgerSpec.CreateTransaction` | server/handlers.py:79-118 | a transfer keeps every table constraint, draws no account id, and leaves both tables unchanged on every failure |
| `LedgerSpec.TransactionErrors` | server/handlers.py:83-116 | AccountNotFound iff an id is missing or the ids are equal, with the missing roles as extra info and no state change at all; AccountNotEnoughtMoney iff both exist and the source balance < amount (balance == amount passes); AccountBalanceExceededMaximum iff the funds suffice but the amount or the target's new balance overflows; a positive amount never escapes uncaught |
| `LedgerSpec.TransactionEffect` | server/handlers.py:101-118 | the transfer succeeds iff both accounts exist, they differ, the source balance covers the amount, and the amount and both new balances fit; on success the source is debited and the target credited by the amount (pair sum conserved, source balance >= 0), every other account is unchanged, and exactly one row with both ids, the amount and a fresh id is appended |
| `DbHandler.Ledger.CreateTransaction` | server/handlers.py:79-118 | lock, check, INSERT, credit, then debit, with rollback at each failing statement, has exactly the atomic effect above and keeps `Valid()` |
| `LedgerSpec.TransferTwiceRecordsTwice` | server/handlers.py:101-118 | two identical successful transfers append two rows with distinct ids and move twice the amount |
| `LedgerSpec.FindTx` | server/handlers.py:122 | the lookup returns a row of the log with that id, or none when no row has it |
| `LedgerSpec.FindAppendedTx` | server/handlers.py:120-125 | a row appended with a fresh id is found by that id |
| `LedgerSpec.GetTransaction` | server/handlers.py:120-125 | returns a stored row with that id iff one exists, TransactionNotFound otherwise |
| `DbHandler.Ledger.GetTransaction` | server/handlers.py:120-125 | returns the `LedgerSpec.GetTransaction` result and changes nothing |
| `LedgerSpec.NetAppend` | server/handlers.py:73-76 | appending a row adds exactly that row's movement to each account's net |
| `LedgerSpec.NetUnreferenced` | migrations/20201005_01_VLFX5-initial.py:19-20 | an account that no row refers to has a net of zero |
| `LedgerSpec.CreateAccountKeepsLedgerSums` | server/handlers.py:26-39 | a new account's history is empty and its opening balance is its initial balance; no other ledger sum changes |
| `LedgerSpec.PaymentKeepsLedgerSums` | server/handlers.py:59-77 | after a deposit, every account's balance is still its opening balance plus the net of the log |
| `LedgerSpec.TransactionKeepsLedgerSums` | server/handlers.py:79-118 | after a transfer, every account's balance is still its opening balance plus the net of the log |
| `LedgerSpec.CreateThenGet` | server/handlers.py:26-57 | an account created without an initial balance reads back with balance 0 under its new id |
| `LedgerSpec.PaymentThenGet` | server/handlers.py:52-77 | after a deposit the account reads back with the new balance, and the new row is found by its id with no source, that target and the amount |
| `Schemas.GtZero` | server/schemas.py:7-9 | reports at most one error, always MUST_BE_GREATER_0 on the given field; an int passes iff it is positive; a non-positive Decimal is always reported unless quantizing raises; quantizing raises iff the cents need more than 28 digits |
| `Schemas.RoundHalfEvenNearest` | server/schemas.py:8 | half-even rounding of n/d gives a nearest integer, and on a tie the even one |
| `Schemas.QuantizeNearest` | server/schemas.py:8 | quantizing to cents is exact for at most two decimals, and otherwise gives the nearest cent, a tie going to an even cent |
| `Schemas.QuantizeBound` | server/schemas.py:8 | a value below 10^k quantizes to at most 100 * 10^k cents |
| `Schemas.QuantizeFitsPrecision` | server/schemas.py:8 | a Decimal below 10^25 in magnitude quantizes within the 28-digit precision, so it does not raise |
| `Schemas.ModerateDecimalsAreChecked` | server/schemas.py:7-9 | every Decimal below 10^25 in magnitude is checked, and it passes iff it exceeds 0.005 |
| `Schemas.RoundHalfEvenPositive` | server/schemas.py:8 | half-even rounding of n/d is positive iff n/d exceeds one half |
| `Schemas.QuantizePositive` | server/schemas.py:8 | the value quantized to cents is positive iff the exact value exceeds half a cent |
| `Schemas.DecimalAcceptedIffAboveHalfCent` | server/schemas.py:7-9 | a Decimal that quantizes without raising passes iff it exceeds 0.005 (`Decimal('0.005')` itself rounds to 0.00 and fails), and the trailing `value <= 0` test never rejects anything the rounding test accepted |
| `Schemas.TestedValues` | server/schemas.py:17-27 | the exact decimals 0.001, 0.005, 0 and -1 are rejected as amounts; 0.01, 0.1, 1 and 10 pass; ids 0 and -1 are rejected |
| `AppHandlers.NotFoundErrors` | server/handlers.py:194 | one NOT_FOUND entry for each field name in `extra_info`, and no others |
| `AppHandlers.CreateAccount` | server/handlers.py:148-157 | success iff the engine inserts, and then the payload is the inserted row (its new id, the email and the initial balance, 0 when absent); a used email gives `{email: NOT_UNIQUE}` with status 422; an uncaught engine error gives the server error |
| `AppHandlers.GetAccount` | server/handlers.py:159-164 | the account row for an existing id, `{id: NOT_FOUND}` with status 404 otherwise |
| `AppHandlers.IsDigits` | server/handlers.py:170 | a path id passes the digit test only when it is non-empty and has no sign |
| `AppHandlers.DigitsValue` | server/handlers.py:173 | `int` of a digit string: the last digit is the value modulo 10, and a leading zero changes nothing |
| `AppHandlers.DecimalStringRoundTrip` | server/handlers.py:170-173 | every id written in decimal passes `isdigit` and `int` reads it back as the same id |
| `AppHandlers.PaymentReachesNamedAccount` | server/handlers.py:166-182 | a deposit posted to the path of account `id` runs the engine on account `id`, and succeeds with that account's credited row when the engine's conditions hold |
| `AppHandlers.AccountPayment` | server/handlers.py:166-182 | a non-digit path id gives `{account_id: MUST_BE_INT}` and never reaches the engine; an unknown id gives `{account_id: NOT_FOUND}` with 404; an overflowing balance gives `{amount: TOO_BIG}`; success iff the id is digits, the account exists and both the new balance and the amount fit, and it returns the credited row |
| `AppHandlers.PaymentPathIds` | server/handlers.py:168-178 | the path ids "-1" and "test" are not integers; "0" is an integer that no account has, so it gives 404 |
| `AppHandlers.CreateTransaction` | server/handlers.py:184-200 | source == target gives `{target_account: SAME_AS_SOURCE_ACCOUNT}` before the engine runs and changes nothing; missing ids give NOT_FOUND on exactly the missing role fields (never none); insufficient funds give `{source_account_id: NOT_ENOUGHT_MONEY}`; target overflow gives `{amount: TOO_BIG}`; success iff the engine's transfer conditions all hold; a positive amount never leads to the server error |
| `AppHandlers.SameAccountGuardAvoidsEmptyErrors` | server/handlers.py:186-194 | without the guard, a transfer from an account to itself would produce AccountNotFound with an empty field list, i.e. an empty error map |
| `AppHandlers.GetTransaction` | server/handlers.py:202-207 | the stored row for an existing id, `{id: NOT_FOUND}` with status 404 otherwise |

## Left out

- The connection pool, asyncio, asyncpg and aiohttp plumbing (`DBHandler.__init__`, `_create_db_pool`, routing, startup): framework I/O with no ledger logic.
- Row locking (`FOR UPDATE`) and concurrent interleavings: each operation is one atomic step, so neither the lock order nor deadlock freedom is modelled.
- The `validate` decorator, Cerberus, JSON body parsing and the email regex: these are library code that is not part of this model. Only `gt_zero` is modelled, as a function that the handlers' inputs are assumed to have passed.
- Float inputs: the exact binary value of a JSON float turned into a Decimal, and PostgreSQL's rounding of amounts with more than two decimals on storage. Only exact decimals are modelled, and amounts reach the engine as whole cents. For example, the JSON number 0.005 becomes a Decimal slightly above 0.005, which passes `gt_zero`, while `Decimal('0.005')` does not.
- `ctime` columns: they are set by the database clock.
- The 64-bit range of BIGINT ids, and the sequences running out: ids are unbounded integers.
- The string values of the reason codes: server/constants.py is not part of this model.
- AppHandlers.AccountPayment, AppHandlers.IsDigits, AppHandlers.DigitsValue: `str.isdigit` also accepts non-ASCII digits, which `int` may then reject. The model accepts ASCII digits only.
- Schemas.GtZero: NaN and infinite Decimals are not modelled. Decimal magnitudes are bounded only by the 28-digit quantize limit.
- DbHandler.Ledger.DropAccount: it is not shown to preserve the ledger sums. Deleting a transfer leaves the other party's balance as it was, so that account's balance no longer matches its log.
- The JSON rendering of rows and errors (`custom_json_dumps`, `json_defaults`) and configuration loading: formatting and I/O only.
