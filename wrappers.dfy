/**
 * Optional values (Python's `None` versus a present value), and the one
 * fact about list prefixes that the handlers' loops rely on.
 */
module Wrappers {

  datatype Option<+T> = None | Some(value: T)

  /** A list that extends another agrees with it on the other's positions. */
  lemma PrefixAgrees<T>(a: seq<T>, b: seq<T>, n: nat)
    requires a <= b && n < |a|
    ensures n < |b| && b[n] == a[n]
  {
  }

}
