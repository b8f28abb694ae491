/** The ledger engine `DBHandler`: the database as mutable state, and each
    operation as the sequence of SQL statements it runs inside one unit of
    work. A failing statement rolls back every row change made before it;
    values already drawn from a serial sequence stay drawn (the model draws
    one at every INSERT attempt). */
module DbHandler {
  import opened Wrappers
  import opened Tables
  import opened Exceptions
  import LedgerSpec

  class Ledger {
    var accounts: map<int, Account>
    var txs: seq<Tx>
    var accountSeq: int
    var txSeq: int

    function State(): Store
      reads this
    {
      Store(accounts, txs, accountSeq, txSeq)
    }

    ghost predicate Valid()
      reads this
    {
      ValidStore(State())
    }

    /** The database as the initial migration leaves it. */
    constructor ()
      ensures Valid() && State() == Empty
    {
      accounts, txs, accountSeq, txSeq := map[], [], 1, 1;
    }

    method CreateAccount(email: string, initialBalance: Option<int>)
      returns (r: Result<LedgerSpec.AccountRow, EngineError>)
      requires Valid()
      modifies this
      ensures Valid()
      ensures (r, State()) == LedgerSpec.CreateAccount(old(State()), email, initialBalance)
    {
      var balance := if initialBalance == None || initialBalance == Some(0) then 0 else initialBalance.value;
      // INSERT INTO accounts(email, balance) VALUES ($1, $2) RETURNING *
      // The id is drawn before the range check; a plan that folds the cast
      // may raise the range error first, leaving the sequence where it was.
      var id := accountSeq;
      accountSeq := accountSeq + 1;
      if !FitsNumeric(balance) {
        r := Err(NumericValueOutOfRange);
        return;
      }
      if LedgerSpec.EmailTaken(accounts, email) {
        // UniqueViolationError
        r := Err(DuplicateAccountEmail);
        return;
      }
      accounts := accounts[id := Account(email, balance)];
      r := Ok(LedgerSpec.AccountRow(id, email, balance));
    }

    /** Test teardown: the account's transactions go first, so that ON
        DELETE RESTRICT lets the account itself go. */
    method DropAccount(id: int)
      requires Valid()
      modifies this
      ensures Valid()
      ensures State() == LedgerSpec.DropAccount(old(State()), id)
    {
      // DELETE FROM transactions WHERE source_account_id = $1 OR target_account_id = $1
      txs := LedgerSpec.Unreferencing(txs, id);
      // DELETE FROM accounts WHERE id = $1: no row refers to the account any
      // more (Unreferencing's contract), so ON DELETE RESTRICT lets it go
      accounts := accounts - {id};
    }

    method GetAccount(id: int) returns (r: Result<LedgerSpec.AccountRow, EngineError>)
      ensures r == LedgerSpec.GetAccount(State(), id)
    {
      // SELECT * FROM accounts WHERE id = $1
      if id in accounts {
        r := Ok(LedgerSpec.RowOf(accounts, id));
      } else {
        r := Err(AccountNotFound(None));
      }
    }

    method CreateAccountPayment(id: int, amount: int)
      returns (r: Result<LedgerSpec.AccountRow, EngineError>)
      requires Valid()
      modifies this
      ensures Valid()
      ensures (r, State()) == LedgerSpec.CreateAccountPayment(old(State()), id, amount)
    {
      var saved := accounts;
      // UPDATE accounts SET balance = balance + $1 WHERE id = $2 RETURNING *
      if id !in accounts {
        // no row updated, none returned
        r := Err(AccountNotFound(None));
        return;
      }
      var balance := accounts[id].balance + amount;
      if !FitsNumeric(balance) {
        r := Err(AccountBalanceExceededMaximum);
        return;
      }
      accounts := accounts[id := accounts[id].(balance := balance)];
      var row := LedgerSpec.RowOf(accounts, id);
      // INSERT INTO transactions(target_account_id, amount) VALUES ($1, $2)
      var txId := txSeq;
      txSeq := txSeq + 1;
      if !FitsNumeric(amount) {
        // raised outside the try: escapes, and the update is rolled back
        accounts := saved;
        r := Err(NumericValueOutOfRange);
        return;
      }
      txs := txs + [Tx(txId, None, id, amount)];
      r := Ok(row);
    }

    method CreateTransaction(source: int, target: int, amount: int) returns (r: Result<Tx, EngineError>)
      requires Valid()
      modifies this
      ensures Valid()
      ensures (r, State()) == LedgerSpec.CreateTransaction(old(State()), source, target, amount)
    {
      // SELECT * FROM accounts WHERE id = ANY($1) ORDER BY (source first) FOR UPDATE
      var rows := LedgerSpec.LockedRows(accounts, source, target);
      if |rows| < 2 {
        var missing := LedgerSpec.Unmatched(
          [(LedgerSpec.SourceField, source), (LedgerSpec.TargetField, target)], LedgerSpec.RowIds(rows));
        LedgerSpec.MissingFieldsAreAbsentRoles(accounts, source, target);
        r := Err(AccountNotFound(Some(missing)));
        return;
      }
      var sourceRow, targetRow := rows[0], rows[1];
      if sourceRow.balance < amount {
        r := Err(AccountNotEnoughtMoney);
        return;
      }
      var savedAccounts, savedTxs := accounts, txs;
      // INSERT INTO transactions(source_account_id, target_account_id, amount) ... RETURNING *
      var tx := Tx(txSeq, Some(source), target, amount);
      txSeq := txSeq + 1;
      if !FitsNumeric(amount) {
        r := Err(AccountBalanceExceededMaximum);
        return;
      }
      txs := txs + [tx];
      // UPDATE accounts SET balance = balance + $1 WHERE id = target
      var credited := accounts[target].balance + amount;
      if !FitsNumeric(credited) {
        txs := savedTxs;
        r := Err(AccountBalanceExceededMaximum);
        return;
      }
      accounts := accounts[target := accounts[target].(balance := credited)];
      // UPDATE accounts SET balance = balance - $1 WHERE id = source, outside the try
      var debited := accounts[source].balance - amount;
      if !FitsNumeric(debited) {
        accounts, txs := savedAccounts, savedTxs;
        r := Err(NumericValueOutOfRange);
        return;
      }
      accounts := accounts[source := accounts[source].(balance := debited)];
      r := Ok(tx);
    }

    method GetTransaction(id: int) returns (r: Result<Tx, EngineError>)
      ensures r == LedgerSpec.GetTransaction(State(), id)
    {
      // SELECT * FROM transactions WHERE id = $1
      var found := LedgerSpec.FindTx(txs, id);
      if found.Some? {
        r := Ok(found.value);
      } else {
        r := Err(TransactionNotFound);
      }
    }
  }
}
