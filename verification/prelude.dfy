/** Failure and absence, shared by the other modules. */
module Prelude {
  datatype Option<+T> = None | Some(value: T)

  datatype Result<+T, +E> = Ok(value: T) | Err(error: E)

  /** The values of `f` at the first `n` indices. */
  function Tabulated<T>(n: nat, f: nat -> T): (s: seq<T>)
    ensures |s| == n && forall k: nat | k < n :: s[k] == f(k)
  {
    seq(n, k requires 0 <= k < n => f(k))
  }

  function Reversed<T>(s: seq<T>): (r: seq<T>)
    ensures |r| == |s|
    ensures forall k | 0 <= k < |s| :: r[k] == s[|s| - 1 - k]
  {
    if s == [] then [] else [s[|s| - 1]] + Reversed(s[..|s| - 1])
  }

  lemma {:induction false} ReversedPermutes<T>(s: seq<T>)
    ensures multiset(Reversed(s)) == multiset(s)
  {
    if s == [] {
    } else {
      ReversedPermutes(s[..|s| - 1]);
      assert s == s[..|s| - 1] + [s[|s| - 1]];
    }
  }
}
