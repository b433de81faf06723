/** The values the explorer client handles: JSON-like values as decoded from
    an explorer reply, records (one transaction or one log entry), and the
    exceptions the client raises, one constructor per raise site. */
module Values {

  datatype Option<+T> = None | Some(value: T)

  datatype Result<+T, +E> = Ok(value: T) | Err(error: E)

  /** A JSON value as produced by the reply decoder. JSON booleans and
      floating-point numbers are not represented. */
  datatype Value =
    | Null
    | Num(n: int)
    | Text(s: string)
    | Items(items: seq<Value>)
    | Obj(fields: map<string, Value>)

  /** One transaction or one log entry: a dictionary from field names to values. */
  type Record = map<string, Value>

  /** The exceptions raised by the client, by cause. */
  datatype Error =
    | UnsupportedChain(chain: string)   // ValueError at construction
    | MissingApiKey(chain: string)      // ValueError at construction
    | MissingAddressOrAction            // ValueError before a transactions request
    | NoResponse                        // the transport raised before any response arrived
    | HttpError(status: int)            // response status other than 200
    | NoTransactionsFound               // status "0" with message "No transactions found"
    | ApiError(message: Value)          // any other status than "1"
    | NotAnObject                       // `data.get` / `data[...]` on a body that is not a dictionary
    | MissingKey(key: string)           // KeyError
    | NoLength(value: Value)            // TypeError of len(value) on a number or null
    | InvalidLiteral(text: string)      // ValueError of int(text, 16)
    | NotAString(value: Value)          // TypeError of int(value, 16) on a non-string
    | NotComparable(value: Value)       // TypeError of `last_block < endblock` on a non-number
    | IndexOutOfRange                   // IndexError
    | DecodeFailed                      // failure inside the ABI decode primitive
    | JsonError                         // failure inside the JSON text parser

  /** Whether Python's `len` is defined on the value: strings, lists and dictionaries. */
  predicate HasLength(v: Value)
  {
    v.Text? || v.Items? || v.Obj?
  }

  /** `d.get(key)` on a dictionary. */
  function Get(d: map<string, Value>, key: string): Option<Value>
  {
    if key in d then Some(d[key]) else None
  }

  /** `d.get(key, default)` on a dictionary. */
  function GetOr(d: map<string, Value>, key: string, default: Value): Value
  {
    if key in d then d[key] else default
  }
}
