/** The two tables of the initial migration and the constraints PostgreSQL
    enforces on them. Money is held as whole cents. */
module Tables {
  import opened Wrappers

  /** NUMERIC(8, 2) keeps eight significant digits, two of them after the
      point, so the largest magnitude it stores is 999999.99. */
  const MaxCents: int := 99999999

  /** Whether a value in cents can be stored in a NUMERIC(8, 2) column;
      PostgreSQL raises NumericValueOutOfRangeError otherwise. */
  predicate FitsNumeric(cents: int) {
    -MaxCents <= cents <= MaxCents
  }

  /** A row of `accounts` without its id (the id is the key of the map) and
      without `ctime`. */
  datatype Account = Account(email: string, balance: int)

  /** A row of `transactions` without `ctime`; `source` is None for a deposit. */
  datatype Tx = Tx(id: int, source: Option<int>, target: int, amount: int)

  /** The database: both tables and the next value of each BIGSERIAL sequence. */
  datatype Store = Store(accounts: map<int, Account>, txs: seq<Tx>, accountSeq: int, txSeq: int)

  /** The database right after the migration: empty tables, sequences at 1. */
  const Empty: Store := Store(map[], [], 1, 1)

  /** Whether a transaction row has a foreign key pointing at account `id`. */
  predicate References(tx: Tx, id: int) {
    tx.target == id || tx.source == Some(id)
  }

  /** `balance NUMERIC(8, 2) NOT NULL` */
  ghost predicate BalancesFit(accounts: map<int, Account>) {
    forall id :: id in accounts ==> FitsNumeric(accounts[id].balance)
  }

  /** `email TEXT NOT NULL UNIQUE` */
  ghost predicate EmailsUnique(accounts: map<int, Account>) {
    forall i, j :: i in accounts && j in accounts && i != j ==> accounts[i].email != accounts[j].email
  }

  /** `id BIGSERIAL PRIMARY KEY` on accounts: every id was drawn from the sequence. */
  ghost predicate AccountIdsIssued(accounts: map<int, Account>, next: int) {
    forall id :: id in accounts ==> 1 <= id < next
  }

  /** Transaction ids in the order the rows were appended. */
  ghost predicate IncreasingIds(txs: seq<Tx>) {
    forall i, j :: 0 <= i < j < |txs| ==> txs[i].id < txs[j].id
  }

  /** `id BIGSERIAL PRIMARY KEY` on transactions, rows in insertion order. */
  ghost predicate TxIdsIssued(txs: seq<Tx>, next: int) {
    (forall i :: 0 <= i < |txs| ==> 1 <= txs[i].id < next) && IncreasingIds(txs)
  }

  /** `amount NUMERIC(8, 2)` */
  ghost predicate AmountsFit(txs: seq<Tx>) {
    forall i :: 0 <= i < |txs| ==> FitsNumeric(txs[i].amount)
  }

  /** `target_account_id BIGINT NOT NULL REFERENCES accounts(id)` and
      `source_account_id BIGINT NULL REFERENCES accounts(id)`. */
  ghost predicate ReferencesExist(accounts: map<int, Account>, txs: seq<Tx>) {
    forall i :: 0 <= i < |txs| ==>
      txs[i].target in accounts && (txs[i].source.Some? ==> txs[i].source.value in accounts)
  }

  /** Every constraint of the schema at once. */
  ghost predicate ValidStore(st: Store) {
    && 1 <= st.accountSeq
    && 1 <= st.txSeq
    && BalancesFit(st.accounts)
    && EmailsUnique(st.accounts)
    && AccountIdsIssued(st.accounts, st.accountSeq)
    && TxIdsIssued(st.txs, st.txSeq)
    && AmountsFit(st.txs)
    && ReferencesExist(st.accounts, st.txs)
  }

  /** The freshly migrated database satisfies its own constraints. */
  lemma EmptyIsValid()
    ensures ValidStore(Empty)
  {
  }

  /** Primary keys: no two transaction rows share an id, and no account id or
      transaction id is zero or negative. */
  lemma KeysAreUnique(st: Store)
    requires ValidStore(st)
    ensures forall i, j :: 0 <= i < |st.txs| && 0 <= j < |st.txs| && i != j ==> st.txs[i].id != st.txs[j].id
    ensures 0 !in st.accounts && forall i :: 0 <= i < |st.txs| ==> st.txs[i].id != 0
  {
  }

  /** ON DELETE RESTRICT: removing an account that some transaction row
      refers to would leave a dangling reference, so the database refuses it. */
  lemma ReferencedAccountIsRestricted(st: Store, i: int, id: int)
    requires ValidStore(st)
    requires 0 <= i < |st.txs| && References(st.txs[i], id)
    ensures id in st.accounts
    ensures !ReferencesExist(st.accounts - {id}, st.txs)
  {
  }
}
