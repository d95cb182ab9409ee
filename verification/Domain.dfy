/** The entities that the store, the service and the adapters share. */
module Domain {

  datatype Option<+T> = None | Some(value: T) {
    function GetOr(default: T): T {
      if Some? then value else default
    }
  }

  datatype Currency = USD | EUR | MXN

  /** A directed currency pair; only pairs of distinct currencies are supported. */
  datatype Pair = Pair(base: Currency, quote: Currency) {
    predicate Valid() {
      base != quote
    }
  }

  datatype Status = Pending | Processing | Completed | Failed

  /** `OtherCode` stands for every text that the table's check constraint refuses. */
  datatype FailureCode = ProviderPermanent | AttemptsExhausted | OtherCode(text: string)

  type Id = string

  newtype Byte = x: int | 0 <= x < 256

  type Key = seq<Byte>

  const MAX_IDEMPOTENCY_KEY_BYTES: nat := 128

  /** `rate` is the canonical decimal text; times are microseconds, dates are day numbers. */
  datatype Quote = Quote(pair: Pair, rate: string, provider: string, sourceDate: int, updatedAt: int)

  datatype QuoteUpdate = QuoteUpdate(
    id: Id, pair: Pair, status: Status, attempt: nat,
    quote: Option<Quote>, failureCode: Option<FailureCode>, createdAt: int)

  datatype Error =
    | NotFound
    | CapacityExceeded
    | NoWork
    | IdempotencyConflict
    | InvalidIdempotencyKey
    | InvalidPair
    | LostOwnership
    | Rejected     // a constraint of the database refused the statement
    | Unavailable  // no reply: the statement was not run, or its reply was lost
    | Corrupt         // a stored value could not be decoded
    | NilDereference  // a pointer of the scanned row was nil

  datatype Result<+T> = Ok(value: T) | Err(error: Error)
}
