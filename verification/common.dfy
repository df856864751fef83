/** Values shared by every part of the model: optional and fallible results,
    bytes, parsed JSON documents and Python's truthiness of optional strings. */
module Common {

  /** Python's `None` or a present value. */
  datatype Option<+T> = None | Some(value: T)

  /** A value, or the message of the exception (`str(e)`) that was raised instead. */
  datatype Result<+T> = Ok(value: T) | Err(error: string)

  newtype byte = b: int | 0 <= b < 256

  type Bytes = seq<byte>

  /** A parsed JSON document, as `json.loads` / `resp.json()` hand it over.
      Numbers are kept integral; see README for what that leaves out. */
  datatype Json =
    | JNull
    | JBool(b: bool)
    | JNum(n: int)
    | JStr(s: string)
    | JArr(items: seq<Json>)
    | JObj(fields: map<string, Json>)

  /** Python truthiness of an optional string or byte string:
      `None`, `""` and `b""` are falsy, everything else is truthy. */
  predicate Truthy<T>(o: Option<seq<T>>)
  {
    o.Some? && |o.value| > 0
  }
}
