/** The exceptions the ledger engine raises (server/exceptions.py), plus the
    one database error that escapes it uncaught. */
module Exceptions {
  import opened Wrappers

  datatype EngineError =
    | DuplicateAccountEmail
      /** `extra_info` is None unless the transfer engine lists the missing fields. */
    | AccountNotFound(extraInfo: Option<seq<string>>)
    | AccountBalanceExceededMaximum
    | AccountNotEnoughtMoney
    | TransactionNotFound
      /** asyncpg's NumericValueOutOfRangeError raised by a statement that no
          `except` clause covers; it rolls the unit of work back and reaches
          the HTTP layer as an unhandled exception. */
    | NumericValueOutOfRange
}
