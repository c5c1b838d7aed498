/** What the other modules share: an optional value and two facts about
    sequences. */
module Basics {
  datatype Option<+T> = None | Some(value: T)

  type Byte = bv8

  lemma Regroup<T>(a: seq<T>, b: seq<T>, c: seq<T>)
    ensures a + (b + c) == a + b + c
  {
  }

  lemma LastApart<T>(s: seq<T>)
    requires s != []
    ensures s == s[..|s| - 1] + [s[|s| - 1]]
  {
  }

  lemma SplitLast<T>(s: seq<T>, i: nat)
    requires i < |s| - 1
    ensures s[..|s| - 1][..i] == s[..i] && s[..|s| - 1][i + 1..] + [s[|s| - 1]] == s[i + 1..]
  {
  }
}
