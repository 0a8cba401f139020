/** Small shared vocabulary: optional values, results with an error message,
    and duplicate-freedom of sequences. */
module Basics {

  datatype Option<T> = None | Some(value: T)

  /** A value or the message of the exception that was thrown instead. */
  datatype Result<T> = Ok(value: T) | Err(message: string)

  /** No element occurs twice. */
  ghost predicate NoDup<T>(s: seq<T>)
  {
    forall i, j :: 0 <= i < j < |s| ==> s[i] != s[j]
  }

  /** Appending an element leaves every prefix of the old sequence alone. */
  lemma TakeSnoc<T>(s: seq<T>, x: T, n: nat)
    requires n <= |s|
    ensures (s + [x])[..n] == s[..n]
  {
    var l := (s + [x])[..n];
    assert forall k :: 0 <= k < n ==> l[k] == s[k];
  }

  /** The prefix one longer is the prefix and the next element. */
  lemma TakeNext<T>(s: seq<T>, n: nat)
    requires n < |s|
    ensures s[..n + 1] == s[..n] + [s[n]]
  {
    var l, r := s[..n + 1], s[..n] + [s[n]];
    assert forall k :: 0 <= k <= n ==> l[k] == r[k];
  }
}
