/** The failure-compatible datatypes shared by the modules of this project. */
module Wrappers {
  datatype Option<+T> = None | Some(value: T)

  /** A C++ call that either returns a value or throws. */
  datatype Result<+T> = Ok(value: T) | Err(error: string)

  function Min(a: nat, b: nat): nat {
    if a <= b then a else b
  }

  lemma SliceOfSlice<T>(s: seq<T>, a: nat, b: nat, i: nat, j: nat)
    requires a <= b <= |s| && i <= j <= b - a
    ensures s[a..b][i..j] == s[a + i..a + j]
  {
    var (x, y) := (s[a..b][i..j], s[a + i..a + j]);
    forall k | 0 <= k < j - i ensures x[k] == y[k] {
    }
  }
}
