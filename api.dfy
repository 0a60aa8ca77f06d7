/** The values exchanged with the CKAN `datastore_search` endpoint, the job's
    constants, and the network seen as an oracle. */
module Api {

  /** Records are requested `PAGE_SIZE` at a time. */
  const PAGE_SIZE: nat := 1000

  /** A failed request is retried at most this many times. */
  const MAX_RETRIES: nat := 3

  /** The datastore resource the job downloads. */
  const RESOURCE_ID: string := "254adca6-64ab-4c5c-9fc0-a6da622be185"

  /** A flat JSON value as it appears in one field of a datastore record. */
  datatype Value =
    | Null
    | Bool(b: bool)
    | Int(i: int)
    | Float(x: real)
    | Str(s: string)

  /** Python truthiness: `None`, `False`, `0`, `0.0` and `""` are falsy. */
  predicate IsTruthy(v: Value)
  {
    match v
    case Null => false
    case Bool(b) => b
    case Int(i) => i != 0
    case Float(x) => x != 0.0
    case Str(s) => s != ""
  }

  /** One datastore record: field name to value. */
  type Record = map<string, Value>

  /** The `result` object of a successful response. */
  datatype Page = Page(total: int, records: seq<Record>)

  /** What one HTTP attempt yields: either the transport raised (connection
      error, HTTP error status, timeout, undecodable JSON), or a decoded JSON
      object came back with its `success` flag and its `result`, if any. */
  datatype Response =
    | Raised(reason: string)
    | Replied(success: bool, result: Option<Page>)

  datatype Option<T> = None | Some(value: T)

  /** Why a request for one page failed. */
  datatype FetchError =
    | Transport(reason: string)   // the exception raised by the transport
    | ApiFailure(offset: nat)     // `success` was false at this offset
    | MissingResult               // `success` was true but `result` was absent

  datatype Result<T> = Ok(value: T) | Err(error: FetchError)

  /** The network: the response to the `attempt`-th try (0 for the first)
      of the request for the page at `offset`. */
  type Network = (nat, nat) -> Response
}
