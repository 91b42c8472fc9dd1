/** Option and Result values shared by the modules of this project. */
module Wrappers {

  datatype Option<+T> = None | Some(value: T)

  /** The outcome of an operation that may raise: its value, or the error it raised. */
  datatype Result<+R, +E> = Success(value: R) | Failure(error: E)
}

/** Facts about sequences, stated once for any element type. */
module Seqs {
  /** The set of names listed in `ns`. */
  function Names(ns: seq<string>): (r: set<string>)
    ensures forall n :: n in r <==> n in ns
  {
    set i | 0 <= i < |ns| :: ns[i]
  }

  lemma SplitLast<T>(s: seq<T>)
    requires |s| > 0
    ensures s == s[..|s| - 1] + [s[|s| - 1]]
  {
  }

  lemma AppendAssoc<T>(a: seq<T>, b: seq<T>, c: seq<T>)
    ensures (a + b) + c == a + (b + c)
  {
  }

  lemma AppendChain<T>(t: seq<T>, a: seq<T>, b: seq<T>, c: seq<T>)
    ensures ((t + a) + b) + c == t + ((a + b) + c)
  {
  }

  lemma TakeAppend<T>(a: seq<T>, b: seq<T>)
    ensures (a + b)[..|a|] == a
  {
  }

  lemma TakeTake<T>(s: seq<T>, n: nat, k: nat)
    requires k <= n <= |s|
    ensures s[..n][..k] == s[..k]
  {
  }
}
