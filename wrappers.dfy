/** Optional values and the exceptions the validator can raise. */
module Wrappers {

  datatype Option<+T> = None | Some(value: T)

  /** The Python exceptions that leave a validation step. */
  datatype Exception =
    | ValueError(message: string)  // caught by the per-app driver
    | KeyError(key: string)        // a required dictionary key is absent
    | IndexError                   // indexing an empty list
    | RequestError(url: string)    // an HTTP GET that failed at transport level

  /** A step either finishes with a value or raises an exception. */
  datatype Outcome<+T> = Done(value: T) | Raised(exception: Exception)

  lemma AppendAssoc<T>(a: seq<T>, b: seq<T>, c: seq<T>)
    ensures a + (b + c) == (a + b) + c
  {
  }

  /** A prefix one element longer. */
  lemma TakeSnoc<T>(s: seq<T>, i: int)
    requires 0 <= i < |s|
    ensures s[..i + 1] == s[..i] + [s[i]]
  {
  }
}
