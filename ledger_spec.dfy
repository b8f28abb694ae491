/** What each operation of the ledger engine (`DBHandler`) does to the
    database, stated as one atomic step on a `Store` value: the effect of a
    unit of work that either commits or is rolled back. */
module LedgerSpec {
  import opened Wrappers
  import opened Tables
  import opened Exceptions

  /** A row of `accounts` as `SELECT *` / `RETURNING *` gives it (without `ctime`). */
  datatype AccountRow = AccountRow(id: int, email: string, balance: int)

  function RowOf(accounts: map<int, Account>, id: int): (row: AccountRow)
    requires id in accounts
  {
    AccountRow(id, accounts[id].email, accounts[id].balance)
  }

  const SourceField: string := "source_account_id"
  const TargetField: string := "target_account_id"

  predicate EmailTaken(accounts: map<int, Account>, email: string) {
    exists id :: id in accounts && accounts[id].email == email
  }

  /** The balance a new account starts with: absent and zero both store 0. */
  function InitialBalance(initialBalance: Option<int>): (balance: int) {
    match initialBalance
    case None => 0
    case Some(b) => b
  }

  // ---------------------------------------------------------------------
  // create_account

  function CreateAccount(st: Store, email: string, initialBalance: Option<int>)
    : (out: (Result<AccountRow, EngineError>, Store))
    requires ValidStore(st)
    ensures ValidStore(out.1)
    ensures out.1.txs == st.txs && out.1.txSeq == st.txSeq
    ensures out.0 == Err(NumericValueOutOfRange) <==> !FitsNumeric(InitialBalance(initialBalance))
    ensures out.0.Ok? <==> FitsNumeric(InitialBalance(initialBalance)) && !EmailTaken(st.accounts, email)
    ensures out.0 == Err(DuplicateAccountEmail) <==>
              FitsNumeric(InitialBalance(initialBalance)) && EmailTaken(st.accounts, email)
    ensures out.0.Err? ==> out.1.accounts == st.accounts
    ensures out.0.Ok? ==>
              var row := out.0.value;
              && row.id !in st.accounts
              && row.email == email
              && row.balance == InitialBalance(initialBalance)
              && out.1.accounts.Keys == st.accounts.Keys + {row.id}
              && out.1.accounts[row.id] == Account(email, row.balance)
              && (forall id :: id in st.accounts ==> out.1.accounts[id] == st.accounts[id])
  {
    var balance := InitialBalance(initialBalance);
    var id := st.accountSeq;
    // the serial default draws its value even when the INSERT then fails
    var drawn := st.(accountSeq := id + 1);
    if !FitsNumeric(balance) then (Err(NumericValueOutOfRange), drawn)
    else if EmailTaken(st.accounts, email) then (Err(DuplicateAccountEmail), drawn)
    else (Ok(AccountRow(id, email, balance)), drawn.(accounts := st.accounts[id := Account(email, balance)]))
  }

  // ---------------------------------------------------------------------
  // get_account

  function GetAccount(st: Store, id: int): (r: Result<AccountRow, EngineError>)
    ensures r.Ok? <==> id in st.accounts
    ensures r.Ok? ==> r.value.id == id && Account(r.value.email, r.value.balance) == st.accounts[id]
    ensures r.Err? ==> r.error == AccountNotFound(None)
  {
    if id in st.accounts then Ok(RowOf(st.accounts, id)) else Err(AccountNotFound(None))
  }

  // ---------------------------------------------------------------------
  // create_account_payment

  function CreateAccountPayment(st: Store, id: int, amount: int)
    : (out: (Result<AccountRow, EngineError>, Store))
    requires ValidStore(st)
    ensures ValidStore(out.1)
    ensures out.1.accountSeq == st.accountSeq
    ensures out.0.Err? ==> out.1.accounts == st.accounts && out.1.txs == st.txs
    ensures out.0.Ok? <==>
              id in st.accounts && FitsNumeric(st.accounts[id].balance + amount) && FitsNumeric(amount)
    ensures out.0 == Err(AccountNotFound(None)) <==> id !in st.accounts
    ensures out.0 == Err(AccountBalanceExceededMaximum) <==>
              id in st.accounts && !FitsNumeric(st.accounts[id].balance + amount)
    ensures out.0 == Err(NumericValueOutOfRange) <==>
              id in st.accounts && FitsNumeric(st.accounts[id].balance + amount) && !FitsNumeric(amount)
    ensures out.0.Ok? ==>
              && id in st.accounts
              && out.0.value == AccountRow(id, st.accounts[id].email, st.accounts[id].balance + amount)
              && out.1.accounts.Keys == st.accounts.Keys
              && out.1.accounts[id] == Account(st.accounts[id].email, st.accounts[id].balance + amount)
              && (forall other :: other in st.accounts && other != id ==> out.1.accounts[other] == st.accounts[other])
              && out.1.txs == st.txs + [Tx(st.txSeq, None, id, amount)]
    ensures amount > 0 && id in st.accounts && st.accounts[id].balance >= 0 ==>
              out.0 != Err(NumericValueOutOfRange)
  {
    if id !in st.accounts then (Err(AccountNotFound(None)), st)
    else
      var acc := st.accounts[id];
      var balance := acc.balance + amount;
      if !FitsNumeric(balance) then (Err(AccountBalanceExceededMaximum), st)
      else
        var drawn := st.(txSeq := st.txSeq + 1);
        if !FitsNumeric(amount) then (Err(NumericValueOutOfRange), drawn)
        else
          (Ok(AccountRow(id, acc.email, balance)),
           drawn.(accounts := st.accounts[id := acc.(balance := balance)],
                  txs := st.txs + [Tx(st.txSeq, None, id, amount)]))
  }

  // ---------------------------------------------------------------------
  // create_transaction

  /** `SELECT * FROM accounts WHERE id = ANY(source, target) ORDER BY
      (source first) FOR UPDATE`: the existing rows among the two ids. */
  function LockedRows(accounts: map<int, Account>, source: int, target: int): (rows: seq<AccountRow>)
    ensures |rows| <= 2
    ensures |rows| == 2 <==> source in accounts && target in accounts && source != target
    ensures |rows| == 2 ==> rows[0] == RowOf(accounts, source) && rows[1] == RowOf(accounts, target)
    ensures source in accounts ==> |rows| >= 1 && rows[0].id == source
    ensures target in accounts ==> |rows| >= 1 && rows[|rows| - 1].id == target
  {
    (if source in accounts then [RowOf(accounts, source)] else [])
    + (if target in accounts && target != source then [RowOf(accounts, target)] else [])
  }

  function RowIds(rows: seq<AccountRow>): (ids: seq<int>)
    ensures |ids| == |rows| && forall i :: 0 <= i < |rows| ==> ids[i] == rows[i].id
  {
    if rows == [] then [] else [rows[0].id] + RowIds(rows[1..])
  }

  /** `[k for k, v in pairs if v not in present]` */
  function Unmatched(pairs: seq<(string, int)>, present: seq<int>): (names: seq<string>)
    ensures |names| <= |pairs|
    ensures forall p :: p in pairs && p.1 !in present ==> p.0 in names
    ensures forall k :: k in names ==> exists p :: p in pairs && p.1 !in present && p.0 == k
  {
    if pairs == [] then []
    else
      var rest := Unmatched(pairs[1..], present);
      if pairs[0].1 !in present then [pairs[0].0] + rest else rest
  }

  /** The role names whose account does not exist, source before target. */
  function MissingRoles(accounts: map<int, Account>, source: int, target: int): (roles: seq<string>) {
    (if source !in accounts then [SourceField] else [])
    + (if target !in accounts then [TargetField] else [])
  }

  /** The engine's own computation of `extra_info` from the locked rows names
      exactly the roles whose id does not exist, in the order source, target;
      when source == target exists only one row comes back and the list is
      empty. */
  lemma MissingFieldsAreAbsentRoles(accounts: map<int, Account>, source: int, target: int)
    ensures Unmatched([(SourceField, source), (TargetField, target)], RowIds(LockedRows(accounts, source, target)))
            == MissingRoles(accounts, source, target)
    ensures source == target && source in accounts ==> MissingRoles(accounts, source, target) == []
  {
  }

  function CreateTransaction(st: Store, source: int, target: int, amount: int)
    : (out: (Result<Tx, EngineError>, Store))
    requires ValidStore(st)
    ensures ValidStore(out.1)
    ensures out.1.accountSeq == st.accountSeq
    ensures out.0.Err? ==> out.1.accounts == st.accounts && out.1.txs == st.txs
  {
    if source !in st.accounts || target !in st.accounts || source == target then
      (Err(AccountNotFound(Some(MissingRoles(st.accounts, source, target)))), st)
    else
      var src, tgt := st.accounts[source], st.accounts[target];
      if src.balance < amount then (Err(AccountNotEnoughtMoney), st)
      else
        // the INSERT draws a transaction id whatever happens afterwards
        var drawn := st.(txSeq := st.txSeq + 1);
        var tx := Tx(st.txSeq, Some(source), target, amount);
        if !FitsNumeric(amount) || !FitsNumeric(tgt.balance + amount) then
          (Err(AccountBalanceExceededMaximum), drawn)
        else if !FitsNumeric(src.balance - amount) then (Err(NumericValueOutOfRange), drawn)
        else
          (Ok(tx),
           drawn.(accounts := st.accounts[target := tgt.(balance := tgt.balance + amount)]
                                         [source := src.(balance := src.balance - amount)],
                  txs := st.txs + [tx]))
  }

  /** The failure a transfer ends in, given the state it starts from. */
  lemma TransactionErrors(st: Store, source: int, target: int, amount: int)
    requires ValidStore(st)
    ensures var out := CreateTransaction(st, source, target, amount);
            (out.0.Err? && out.0.error.AccountNotFound?) <==>
            source !in st.accounts || target !in st.accounts || source == target
    ensures var out := CreateTransaction(st, source, target, amount);
            out.0.Err? && out.0.error.AccountNotFound? ==>
            out.0.error.extraInfo == Some(MissingRoles(st.accounts, source, target)) && out.1 == st
    ensures var out := CreateTransaction(st, source, target, amount);
            out.0 == Err(AccountNotEnoughtMoney) <==>
            source in st.accounts && target in st.accounts && source != target
            && st.accounts[source].balance < amount
    ensures var out := CreateTransaction(st, source, target, amount);
            out.0 == Err(AccountBalanceExceededMaximum) <==>
            source in st.accounts && target in st.accounts && source != target
            && st.accounts[source].balance >= amount
            && (!FitsNumeric(amount) || !FitsNumeric(st.accounts[target].balance + amount))
    ensures var out := CreateTransaction(st, source, target, amount);
            amount > 0 ==> out.0 != Err(NumericValueOutOfRange)
  {
  }

  /** When a transfer succeeds, and what it does then: the source pays the
      amount to the target, no other account moves, and exactly one row is
      appended. */
  lemma TransactionEffect(st: Store, source: int, target: int, amount: int)
    requires ValidStore(st)
    ensures var out := CreateTransaction(st, source, target, amount);
            out.0.Ok? <==>
            && source in st.accounts && target in st.accounts && source != target
            && st.accounts[source].balance >= amount
            && FitsNumeric(amount)
            && FitsNumeric(st.accounts[target].balance + amount)
            && FitsNumeric(st.accounts[source].balance - amount)
    ensures var out := CreateTransaction(st, source, target, amount);
            out.0.Ok? ==>
            && source in st.accounts && target in st.accounts && source != target
            && st.accounts[source].balance >= amount
            && out.0.value == Tx(st.txSeq, Some(source), target, amount)
            && out.1.txs == st.txs + [out.0.value]
            && out.1.accounts.Keys == st.accounts.Keys
            && out.1.accounts[source] == st.accounts[source].(balance := st.accounts[source].balance - amount)
            && out.1.accounts[target] == st.accounts[target].(balance := st.accounts[target].balance + amount)
            && out.1.accounts[source].balance >= 0
            && out.1.accounts[source].balance + out.1.accounts[target].balance
               == st.accounts[source].balance + st.accounts[target].balance
            && (forall id :: id in st.accounts && id != source && id != target ==>
                  out.1.accounts[id] == st.accounts[id])
  {
  }

  /** Transfers are not idempotent: two identical successful calls leave two
      distinct rows and move the amount twice. */
  lemma TransferTwiceRecordsTwice(st: Store, source: int, target: int, amount: int)
    requires ValidStore(st)
    requires CreateTransaction(st, source, target, amount).0.Ok?
    requires CreateTransaction(CreateTransaction(st, source, target, amount).1, source, target, amount).0.Ok?
    ensures var st1 := CreateTransaction(st, source, target, amount).1;
            var st2 := CreateTransaction(st1, source, target, amount).1;
            && |st2.txs| == |st.txs| + 2
            && st2.txs[|st.txs|].id != st2.txs[|st.txs| + 1].id
            && st2.txs[|st.txs|].source == st2.txs[|st.txs| + 1].source == Some(source)
            && st2.accounts[source].balance == st.accounts[source].balance - 2 * amount
            && st2.accounts[target].balance == st.accounts[target].balance + 2 * amount
  {
    TransactionEffect(st, source, target, amount);
    TransactionEffect(CreateTransaction(st, source, target, amount).1, source, target, amount);
  }

  // ---------------------------------------------------------------------
  // get_transaction

  /** `SELECT * FROM transactions WHERE id = $1` */
  function FindTx(txs: seq<Tx>, id: int): (r: Option<Tx>)
    ensures r.Some? ==> r.value in txs && r.value.id == id
    ensures r.None? ==> forall i :: 0 <= i < |txs| ==> txs[i].id != id
  {
    if txs == [] then None
    else if txs[0].id == id then Some(txs[0])
    else FindTx(txs[1..], id)
  }

  lemma {:induction false} FindAppendedTx(txs: seq<Tx>, tx: Tx)
    requires forall i :: 0 <= i < |txs| ==> txs[i].id != tx.id
    ensures FindTx(txs + [tx], tx.id) == Some(tx)
  {
    if txs != [] {
      assert (txs + [tx])[1..] == txs[1..] + [tx];
      FindAppendedTx(txs[1..], tx);
    }
  }

  function GetTransaction(st: Store, id: int): (r: Result<Tx, EngineError>)
    ensures r.Ok? <==> exists i :: 0 <= i < |st.txs| && st.txs[i].id == id
    ensures r.Ok? ==> r.value in st.txs && r.value.id == id
    ensures r.Err? ==> r.error == TransactionNotFound
  {
    match FindTx(st.txs, id)
    case Some(tx) => Ok(tx)
    case None => Err(TransactionNotFound)
  }

  // ---------------------------------------------------------------------
  // drop_account (test teardown)

  /** `DELETE FROM transactions WHERE source_account_id = $1 OR target_account_id = $1` */
  function Unreferencing(txs: seq<Tx>, id: int): (kept: seq<Tx>)
    ensures forall tx :: tx in kept <==> tx in txs && !References(tx, id)
    ensures forall i :: 0 <= i < |kept| ==> kept[i] in txs
    ensures IncreasingIds(txs) ==> IncreasingIds(kept)
  {
    if txs == [] then []
    else
      var rest := Unreferencing(txs[1..], id);
      if References(txs[0], id) then rest
      else
        assert IncreasingIds(txs) ==> forall i :: 0 <= i < |rest| ==> txs[0].id < rest[i].id by {
          if IncreasingIds(txs) {
            forall i | 0 <= i < |rest| ensures txs[0].id < rest[i].id {
              assert rest[i] in txs[1..];
            }
          }
        }
        [txs[0]] + rest
  }

  function DropAccount(st: Store, id: int): (out: Store)
    requires ValidStore(st)
    ensures ValidStore(out)
    ensures out.accounts == st.accounts - {id}
    ensures forall tx :: tx in out.txs <==> tx in st.txs && !References(tx, id)
    ensures out.accountSeq == st.accountSeq && out.txSeq == st.txSeq
  {
    st.(accounts := st.accounts - {id}, txs := Unreferencing(st.txs, id))
  }

  // ---------------------------------------------------------------------
  // The ledger sum: each balance is its opening balance plus the net of the
  // transaction log for that account.

  /** What transaction `tx` moved into account `id`. */
  function Delta(tx: Tx, id: int): (delta: int) {
    (if tx.target == id then tx.amount else 0) - (if tx.source == Some(id) then tx.amount else 0)
  }

  function Net(txs: seq<Tx>, id: int): (net: int) {
    if txs == [] then 0 else Delta(txs[0], id) + Net(txs[1..], id)
  }

  lemma {:induction false} NetAppend(txs: seq<Tx>, tx: Tx, id: int)
    ensures Net(txs + [tx], id) == Net(txs, id) + Delta(tx, id)
  {
    if txs != [] {
      assert (txs + [tx])[1..] == txs[1..] + [tx];
      NetAppend(txs[1..], tx, id);
    }
  }

  lemma {:induction false} NetUnreferenced(txs: seq<Tx>, id: int)
    requires forall i :: 0 <= i < |txs| ==> !References(txs[i], id)
    ensures Net(txs, id) == 0
  {
    if txs != [] {
      assert !References(txs[0], id);
      NetUnreferenced(txs[1..], id);
    }
  }

  /** The balance an account would have had with no transaction at all. */
  function Opening(st: Store, id: int): (opening: int)
    requires id in st.accounts
  {
    st.accounts[id].balance - Net(st.txs, id)
  }

  /** A new account's balance is its initial balance with an empty history;
      no other account's ledger sum moves. */
  lemma CreateAccountKeepsLedgerSums(st: Store, email: string, initialBalance: Option<int>)
    requires ValidStore(st)
    ensures var out := CreateAccount(st, email, initialBalance);
            && (forall id :: id in st.accounts ==> id in out.1.accounts && Opening(out.1, id) == Opening(st, id))
            && (out.0.Ok? ==> Net(out.1.txs, out.0.value.id) == 0
                              && Opening(out.1, out.0.value.id) == InitialBalance(initialBalance))
  {
    var out := CreateAccount(st, email, initialBalance);
    if out.0.Ok? {
      var id := out.0.value.id;
      forall i | 0 <= i < |st.txs| ensures !References(st.txs[i], id) {
        assert st.txs[i].target in st.accounts;
      }
      NetUnreferenced(st.txs, id);
    }
  }

  /** A deposit's row accounts for exactly the credit it makes. */
  lemma PaymentKeepsLedgerSums(st: Store, id: int, amount: int)
    requires ValidStore(st)
    ensures var out := CreateAccountPayment(st, id, amount);
            forall a :: a in st.accounts ==> a in out.1.accounts && Opening(out.1, a) == Opening(st, a)
  {
    var out := CreateAccountPayment(st, id, amount);
    if out.0.Ok? {
      forall a | a in st.accounts ensures Opening(out.1, a) == Opening(st, a) {
        NetAppend(st.txs, Tx(st.txSeq, None, id, amount), a);
      }
    }
  }

  /** A transfer's row accounts for exactly the debit and the credit it makes. */
  lemma TransactionKeepsLedgerSums(st: Store, source: int, target: int, amount: int)
    requires ValidStore(st)
    ensures var out := CreateTransaction(st, source, target, amount);
            forall a :: a in st.accounts ==> a in out.1.accounts && Opening(out.1, a) == Opening(st, a)
  {
    var out := CreateTransaction(st, source, target, amount);
    if out.0.Ok? {
      forall a | a in st.accounts ensures Opening(out.1, a) == Opening(st, a) {
        NetAppend(st.txs, out.0.value, a);
      }
    }
  }

  /** create_account then get_account: a new account without an initial
      balance reads back with balance 0. */
  lemma CreateThenGet(st: Store, email: string)
    requires ValidStore(st)
    requires CreateAccount(st, email, None).0.Ok?
    ensures var out := CreateAccount(st, email, None);
            GetAccount(out.1, out.0.value.id) == Ok(AccountRow(out.0.value.id, email, 0))
  {
  }

  /** A deposit reads back: the account shows the new balance and the
      appended row is found by its id, with no source, the account as target
      and the amount deposited. */
  lemma PaymentThenGet(st: Store, id: int, amount: int)
    requires ValidStore(st)
    requires CreateAccountPayment(st, id, amount).0.Ok?
    ensures var out := CreateAccountPayment(st, id, amount);
            && GetAccount(out.1, id) == out.0
            && GetTransaction(out.1, st.txSeq) == Ok(Tx(st.txSeq, None, id, amount))
  {
    var out := CreateAccountPayment(st, id, amount);
    FindAppendedTx(st.txs, Tx(st.txSeq, None, id, amount));
  }
}
