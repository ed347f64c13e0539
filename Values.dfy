/**
 * Decoded JSON values and the dictionaries the record operations work on.
 * A Python dict with string keys is a `Fields` map; a dict that the
 * operations change in place is held by a `Record` object.
 */
module Values {

  /** A decoded JSON value (numbers are modelled as integers). */
  datatype Value =
    | Null
    | Bool(b: bool)
    | Num(n: int)
    | Str(s: string)
    | Lst(items: seq<Value>)
    | Obj(fields: map<string, Value>)

  type Fields = map<string, Value>

  /** The Python exceptions the operations can raise. */
  datatype Error =
    | TypeError       // `in` or `[...]` on a value that does not support it, `+=` of mismatched types
    | KeyError        // `d[k]` with `k` absent
    | AttributeError  // `.append` or `.get` on a value that has no such method
    | RequestFailed   // whatever the HTTP fetch raises

  datatype Result<T> = Ok(value: T) | Err(error: Error)

  /**
   * The outcome of an operation that changes a dict in place: either it
   * returns, or it raises after the changes made so far.
   */
  datatype Exec = Finished(state: Fields) | Raised(state: Fields, error: Error)

  /** A dict whose entries an operation updates in place. */
  class Record {
    var fields: Fields

    constructor (init: Fields)
      ensures fields == init
    {
      fields := init;
    }
  }

  /** `d.get(k, default)` */
  function Get(d: Fields, k: string, default: Value): Value
  {
    if k in d then d[k] else default
  }

  /** The elements of the list stored under `k`; empty when there is none. */
  function Bucket(d: Fields, k: string): seq<Value>
  {
    if k in d && d[k].Lst? then d[k].items else []
  }

  /** `k` is absent, or holds a list that can be appended to. */
  predicate Appendable(d: Fields, k: string)
  {
    k !in d || d[k].Lst?
  }
}
