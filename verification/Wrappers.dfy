/** Small things every part uses. */
module Wrappers {

  /** A value that may be absent. */
  datatype Option<+T> = None | Some(value: T)

  lemma SliceNext<T>(s: seq<T>, a: nat, i: nat)
    requires a <= i < |s|
    ensures s[a..i] + [s[i]] == s[a..i + 1]
    ensures s[..i] + [s[i]] == s[..i + 1]
  {
  }
}
