/** The HTTP handlers of `AppHandlers` once validation has passed: how each
    turns the engine's outcome into a response, with errors keyed by the
    request field they concern. */
module AppHandlers {
  import opened Wrappers
  import opened Tables
  import opened Exceptions
  import opened Constants
  import LedgerSpec

  datatype Payload = AccountData(account: LedgerSpec.AccountRow) | TransactionData(transaction: Tx)

  /** `success_response` (status 200); `error_response` with a field map and
      a status; or what the error middleware sends for an exception no
      handler caught ('server error', status 500). */
  datatype Response =
    | Success(data: Payload)
    | Failure(errors: map<string, ValidationError>, status: int)
    | ServerError

  /** `{field_name: NOT_FOUND for field_name in extra_info}` */
  function NotFoundErrors(fields: seq<string>): (errors: map<string, ValidationError>)
    ensures errors.Keys == set f | f in fields
    ensures forall f :: f in errors ==> errors[f] == NotFound
  {
    map f | f in fields :: NotFound
  }

  function CreateAccount(st: Store, email: string, initialBalance: Option<int>): (out: (Response, Store))
    requires ValidStore(st)
    ensures out.1 == LedgerSpec.CreateAccount(st, email, initialBalance).1
    ensures out.0.Success? <==>
              FitsNumeric(LedgerSpec.InitialBalance(initialBalance)) && !LedgerSpec.EmailTaken(st.accounts, email)
    ensures out.0.Success? ==>
              out.0.data.AccountData? && out.0.data.account.email == email && out.0.data.account.id !in st.accounts
    ensures out.0.Success? ==>
              && out.0.data == AccountData(LedgerSpec.AccountRow(out.0.data.account.id, email, LedgerSpec.InitialBalance(initialBalance)))
              && out.0.data.account.id in out.1.accounts
              && out.1.accounts[out.0.data.account.id] == Account(email, LedgerSpec.InitialBalance(initialBalance))
    ensures out.0 == Failure(map["email" := NotUnique], 422) <==>
              FitsNumeric(LedgerSpec.InitialBalance(initialBalance)) && LedgerSpec.EmailTaken(st.accounts, email)
    ensures out.0 == ServerError <==> !FitsNumeric(LedgerSpec.InitialBalance(initialBalance))
  {
    var (r, st1) := LedgerSpec.CreateAccount(st, email, initialBalance);
    match r
    case Ok(row) => (Success(AccountData(row)), st1)
    case Err(DuplicateAccountEmail) => (Failure(map["email" := NotUnique], 422), st1)
    case Err(_) => (ServerError, st1)
  }

  function GetAccount(st: Store, id: int): (r: Response)
    ensures r.Success? <==> id in st.accounts
    ensures r.Success? ==> r.data == AccountData(LedgerSpec.AccountRow(id, st.accounts[id].email, st.accounts[id].balance))
    ensures !r.Success? ==> r == Failure(map["id" := NotFound], 404)
  {
    match LedgerSpec.GetAccount(st, id)
    case Ok(row) => Success(AccountData(row))
    case Err(_) => Failure(map["id" := NotFound], 404)
  }

  /** `str.isdigit()` over ASCII digits: it refuses the empty string and any
      sign, so a negative id never reaches `int`. */
  predicate IsDigits(s: string)
    ensures IsDigits(s) ==> s != [] && s[0] != '-' && s[0] != '+'
  {
    |s| > 0 && forall i :: 0 <= i < |s| ==> '0' <= s[i] <= '9'
  }

  /** `int(s)` for a string of ASCII digits: the decimal value, in which
      leading zeros count for nothing and the last digit is the remainder
      by ten. */
  function DigitsValue(s: string): (n: nat)
    requires forall i :: 0 <= i < |s| ==> '0' <= s[i] <= '9'
    ensures |s| > 0 ==> n % 10 == s[|s| - 1] as int - '0' as int
    ensures |s| > 0 && s[0] == '0' ==> n == DigitsValue(s[1..])
  {
    if s == [] then 0
    else
      assert |s| > 1 ==> s[..|s| - 1][1..] == s[1..][..|s| - 2];
      10 * DigitsValue(s[..|s| - 1]) + (s[|s| - 1] as int - '0' as int)
  }

  /** `str(n)`: how an account id is written into the request path. */
  function DecimalString(n: nat): (s: string)
    ensures |s| > 0 && forall i :: 0 <= i < |s| ==> '0' <= s[i] <= '9'
  {
    var digit := ('0' as int + n % 10) as char;
    if n < 10 then [digit] else DecimalString(n / 10) + [digit]
  }

  /** `int(str(n)) == n`: every id written in decimal passes the digit test
      and parses back to itself. */
  lemma {:induction false} DecimalStringRoundTrip(n: nat)
    ensures IsDigits(DecimalString(n))
    ensures DigitsValue(DecimalString(n)) == n
  {
    var s := DecimalString(n);
    if n >= 10 {
      DecimalStringRoundTrip(n / 10);
      assert s[..|s| - 1] == DecimalString(n / 10);
    }
  }

  function AccountPayment(st: Store, rawId: string, amount: int): (out: (Response, Store))
    requires ValidStore(st)
    ensures !IsDigits(rawId) ==> out == (Failure(map["account_id" := MustBeInt], 422), st)
    ensures IsDigits(rawId) ==> out.1 == LedgerSpec.CreateAccountPayment(st, DigitsValue(rawId), amount).1
    ensures IsDigits(rawId) && DigitsValue(rawId) !in st.accounts ==>
              out == (Failure(map["account_id" := NotFound], 404), st)
    ensures IsDigits(rawId) && DigitsValue(rawId) in st.accounts
            && !FitsNumeric(st.accounts[DigitsValue(rawId)].balance + amount) ==>
              out == (Failure(map["amount" := TooBig], 422), st)
    ensures out.0.Success? <==>
              && IsDigits(rawId) && DigitsValue(rawId) in st.accounts
              && FitsNumeric(st.accounts[DigitsValue(rawId)].balance + amount) && FitsNumeric(amount)
    ensures out.0.Success? ==>
              && IsDigits(rawId) && DigitsValue(rawId) in st.accounts
              && var acc := st.accounts[DigitsValue(rawId)];
                 out.0.data == AccountData(LedgerSpec.AccountRow(DigitsValue(rawId), acc.email, acc.balance + amount))
  {
    if !IsDigits(rawId) then (Failure(map["account_id" := MustBeInt], 422), st)
    else
      var (r, st1) := LedgerSpec.CreateAccountPayment(st, DigitsValue(rawId), amount);
      match r
      case Ok(row) => (Success(AccountData(row)), st1)
      case Err(AccountNotFound(_)) => (Failure(map["account_id" := NotFound], 404), st1)
      case Err(AccountBalanceExceededMaximum) => (Failure(map["amount" := TooBig], 422), st1)
      case Err(_) => (ServerError, st1)
  }

  /** The path ids the test suite posts to: "-1" and "test" are not
      integers; "0" is an integer that no account has. */
  lemma PaymentPathIds(st: Store, amount: int)
    requires ValidStore(st)
    ensures AccountPayment(st, "-1", amount) == (Failure(map["account_id" := MustBeInt], 422), st)
    ensures AccountPayment(st, "test", amount) == (Failure(map["account_id" := MustBeInt], 422), st)
    ensures AccountPayment(st, "0", amount) == (Failure(map["account_id" := NotFound], 404), st)
  {
  }

  /** A deposit posted to the path of account `id` credits account `id`. */
  lemma PaymentReachesNamedAccount(st: Store, id: nat, amount: int)
    requires ValidStore(st)
    ensures AccountPayment(st, DecimalString(id), amount).1 == LedgerSpec.CreateAccountPayment(st, id, amount).1
    ensures id in st.accounts && FitsNumeric(st.accounts[id].balance + amount) && FitsNumeric(amount) ==>
              AccountPayment(st, DecimalString(id), amount).0
              == Success(AccountData(LedgerSpec.AccountRow(id, st.accounts[id].email, st.accounts[id].balance + amount)))
  {
    DecimalStringRoundTrip(id);
  }

  function CreateTransaction(st: Store, source: int, target: int, amount: int): (out: (Response, Store))
    requires ValidStore(st)
    ensures source == target ==> out == (Failure(map["target_account" := SameAsSourceAccount], 422), st)
    ensures source != target ==> out.1 == LedgerSpec.CreateTransaction(st, source, target, amount).1
    ensures source != target && (source !in st.accounts || target !in st.accounts) ==>
              && out.1 == st
              && out.0.Failure? && out.0.status == 422
              && out.0.errors.Keys != {}
              && out.0.errors.Keys <= {LedgerSpec.SourceField, LedgerSpec.TargetField}
              && (LedgerSpec.SourceField in out.0.errors <==> source !in st.accounts)
              && (LedgerSpec.TargetField in out.0.errors <==> target !in st.accounts)
              && (forall f :: f in out.0.errors ==> out.0.errors[f] == NotFound)
    ensures source != target && source in st.accounts && target in st.accounts
            && st.accounts[source].balance < amount ==>
              out == (Failure(map[LedgerSpec.SourceField := NotEnoughtMoney], 422), st)
    ensures source != target && source in st.accounts && target in st.accounts
            && st.accounts[source].balance >= amount && !FitsNumeric(st.accounts[target].balance + amount) ==>
              out.0 == Failure(map["amount" := TooBig], 422)
    ensures out.0.Success? <==>
              && source != target && source in st.accounts && target in st.accounts
              && st.accounts[source].balance >= amount
              && FitsNumeric(amount)
              && FitsNumeric(st.accounts[target].balance + amount)
              && FitsNumeric(st.accounts[source].balance - amount)
    ensures out.0.Success? ==>
              source != target && out.0.data == TransactionData(Tx(st.txSeq, Some(source), target, amount))
    ensures amount > 0 ==> out.0 != ServerError
  {
    if source == target then (Failure(map["target_account" := SameAsSourceAccount], 422), st)
    else
      LedgerSpec.TransactionErrors(st, source, target, amount);
      LedgerSpec.TransactionEffect(st, source, target, amount);
      var (r, st1) := LedgerSpec.CreateTransaction(st, source, target, amount);
      match r
      case Ok(tx) => (Success(TransactionData(tx)), st1)
      case Err(AccountNotFound(Some(fields))) =>
        assert fields[0] in NotFoundErrors(fields);
        (Failure(NotFoundErrors(fields), 422), st1)
      // iterating a None `extra_info` raises TypeError
      case Err(AccountNotFound(None)) => (ServerError, st1)
      case Err(AccountNotEnoughtMoney) => (Failure(map[LedgerSpec.SourceField := NotEnoughtMoney], 422), st1)
      case Err(AccountBalanceExceededMaximum) => (Failure(map["amount" := TooBig], 422), st1)
      case Err(_) => (ServerError, st1)
  }

  /** Why the same-account guard matters: for a single existing account the
      engine reports AccountNotFound with no field at all, which would map to
      an error response naming nothing. */
  lemma SameAccountGuardAvoidsEmptyErrors(st: Store, id: int, amount: int)
    requires ValidStore(st) && id in st.accounts
    ensures LedgerSpec.CreateTransaction(st, id, id, amount).0 == Err(AccountNotFound(Some([])))
    ensures NotFoundErrors([]) == map[]
    ensures CreateTransaction(st, id, id, amount).0 == Failure(map["target_account" := SameAsSourceAccount], 422)
  {
    LedgerSpec.MissingFieldsAreAbsentRoles(st.accounts, id, id);
    LedgerSpec.TransactionErrors(st, id, id, amount);
  }

  function GetTransaction(st: Store, id: int): (r: Response)
    ensures r.Success? <==> exists i :: 0 <= i < |st.txs| && st.txs[i].id == id
    ensures r.Success? ==> r.data.TransactionData? && r.data.transaction in st.txs && r.data.transaction.id == id
    ensures !r.Success? ==> r == Failure(map["id" := NotFound], 404)
  {
    match LedgerSpec.GetTransaction(st, id)
    case Ok(tx) => Success(TransactionData(tx))
    case Err(_) => Failure(map["id" := NotFound], 404)
  }
}
