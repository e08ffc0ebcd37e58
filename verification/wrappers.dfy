/**
 * Option and Result: the model's stand-ins for Python's None and raised
 * exceptions; and the regrouping of concatenations that every accumulating
 * loop of the model uses.
 */
module Wrappers {

  datatype Option<+T> = None | Some(value: T)

  datatype Result<+T, +E> = Success(value: T) | Failure(error: E)

  lemma AppendAssoc<T>(a: seq<T>, b: seq<T>, c: seq<T>)
    ensures (a + b) + c == a + (b + c)
  {
  }

  lemma LastSplit<T>(s: seq<T>)
    requires s != []
    ensures s[..|s| - 1] + [s[|s| - 1]] == s
  {
  }

  lemma MultisetHead<T>(s: seq<T>)
    requires s != []
    ensures multiset(s) == multiset{s[0]} + multiset(s[1..])
  {
    assert s == [s[0]] + s[1..];
  }

  lemma MultisetMiddle<T>(l: seq<T>, m: seq<T>, r: seq<T>)
    ensures multiset(l + m + r) == multiset(l + r) + multiset(m)
  {
  }

  /** A suffix `r` of the tail of `s` is a suffix of `s`, and the tail is `s` shifted by one. */
  lemma SuffixOfTail<T>(s: seq<T>, r: seq<T>)
    requires |s| > 0 && |r| <= |s| - 1 && r == s[1..][|s| - 1 - |r|..]
    ensures r == s[|s| - |r|..]
    ensures forall j :: 0 <= j < |s| - 1 ==> s[1..][j] == s[j + 1]
  {
  }

  /** A prefix `r` of a suffix `l` of `s` is the slice of `s` where `l` starts. */
  lemma PrefixOfSuffix<T>(s: seq<T>, l: seq<T>, r: seq<T>)
    requires |l| <= |s| && l == s[|s| - |l|..]
    requires |r| <= |l| && r == l[..|r|]
    ensures r == s[|s| - |l|..|s| - |l| + |r|]
    ensures forall j :: 0 <= j < |l| ==> l[j] == s[|s| - |l| + j]
  {
  }
}
