/** Option and Result, the two small failure-compatible datatypes the model uses
    for Python's `None` and for the exceptions the source raises. */
module Wrappers {

  datatype Option<+T> = None | Some(value: T) {
    function GetOr(default: T): T {
      match this
      case Some(v) => v
      case None => default
    }
  }

  /** The exceptions of the source that the model reports as values. */
  datatype Error =
    | KeyError(key: string)        // a dictionary lookup with `d[k]` on a missing key
    | IndexError                   // a list index out of range
    | ValueError(reason: string)   // `int(s)` on a malformed string, a bad config version
    | AttributeError(what: string) // an attribute lookup on `None`
    | TypeError(what: string)      // `len` of a value that has no length

  datatype Result<+T> = Ok(value: T) | Err(error: Error) {
    predicate IsFailure() { Err? }
    function PropagateFailure<U>(): Result<U>
      requires Err?
    {
      Err(error)
    }
    function Extract(): T
      requires Ok?
    {
      value
    }
  }

  /** No element occurs twice. */
  predicate Unique<T(==)>(s: seq<T>) {
    forall i, j :: 0 <= i < j < |s| ==> s[i] != s[j]
  }

  /** `order` lists the keys of a dictionary once each: the order in which a
      Python `for` loop visits them. */
  ghost predicate Enumerates<K(!new)>(order: seq<K>, keys: set<K>) {
    Unique(order) && (forall k :: k in keys <==> k in order)
  }
}
