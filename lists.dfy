/** Order and uniqueness of list elements, as list comprehensions over a fixed list keep them. */
module Lists {

  /** `a` is obtained from `b` by deleting elements, keeping the order of the rest. */
  predicate IsSubsequence<T(==)>(a: seq<T>, b: seq<T>)
    decreases |b|
  {
    if a == [] then true
    else if b == [] then false
    else (a[0] == b[0] && IsSubsequence(a[1..], b[1..])) || IsSubsequence(a, b[1..])
  }

  predicate NoDuplicates<T(==)>(s: seq<T>) {
    forall i, j :: 0 <= i < j < |s| ==> s[i] != s[j]
  }

  /** Every element of a subsequence is an element of the whole sequence. */
  lemma {:induction false} SubsequenceMembers<T>(a: seq<T>, b: seq<T>, x: T)
    requires IsSubsequence(a, b)
    requires x in a
    ensures x in b
    decreases |b|
  {
    if a[0] == b[0] && IsSubsequence(a[1..], b[1..]) {
      if x != a[0] {
        assert x in a[1..];
        SubsequenceMembers(a[1..], b[1..], x);
      }
    } else {
      SubsequenceMembers(a, b[1..], x);
    }
  }

  /** A subsequence of a list without duplicates has no duplicates either. */
  lemma {:induction false} SubsequenceOfDistinct<T>(a: seq<T>, b: seq<T>)
    requires IsSubsequence(a, b)
    requires NoDuplicates(b)
    ensures NoDuplicates(a)
    decreases |b|
  {
    if a == [] {
    } else if a[0] == b[0] && IsSubsequence(a[1..], b[1..]) {
      SubsequenceOfDistinct(a[1..], b[1..]);
      forall j | 0 < j < |a| ensures a[0] != a[j] {
        assert a[j] == a[1..][j - 1];
        SubsequenceMembers(a[1..], b[1..], a[j]);
        var k :| 0 <= k < |b[1..]| && b[1..][k] == a[j];
        assert b[0] != b[k + 1];
      }
    } else {
      SubsequenceOfDistinct(a, b[1..]);
    }
  }
}
