/**
 Facts about sequences that hold whatever the element type, stated once so
 that the proofs about records and strings can cite them instead of
 re-deriving them for each element type.
 */
module Seqs {

  lemma AppendAssoc<T>(a: seq<T>, b: seq<T>, c: seq<T>)
    ensures a + (b + c) == (a + b) + c
  {
  }

  /** A prefix one element longer. */
  lemma TakeSnoc<T>(s: seq<T>, i: nat)
    requires i < |s|
    ensures s[..i + 1] == s[..i] + [s[i]]
  {
  }

  /** A non-empty prefix is its first element followed by a prefix of the tail. */
  lemma TakeCons<T>(s: seq<T>, m: nat)
    requires 0 < m <= |s|
    ensures s[..m] == [s[0]] + s[1..][..m - 1]
  {
  }

  /** A suffix of a non-empty sequence is a suffix of all but its last element, then that element. */
  lemma DropSnoc<T>(s: seq<T>, j: nat)
    requires j < |s|
    ensures s[j..] == s[..|s| - 1][j..] + [s[|s| - 1]]
  {
  }

  /** A prefix and a suffix of a suffix are slices of the whole. */
  lemma DropThenTake<T>(s: seq<T>, i: nat, k: nat)
    requires i + k <= |s|
    ensures s[i..][..k] == s[i..i + k] && s[i..][k..] == s[i + k..]
  {
  }

  /** A suffix of a prefix is a slice of the whole. */
  lemma TakeThenDrop<T>(s: seq<T>, i: nat, j: nat)
    requires i <= j <= |s|
    ensures s[..j][i..] == s[i..j] && s[..j][0..i] == s[..i]
  {
  }
}
