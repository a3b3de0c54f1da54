/** Ordering by a numeric key, largest first: the `sort({ key: -1 })` of a query. */
module Sorting {

  ghost predicate SortedDesc<T>(s: seq<T>, key: T -> int)
  {
    forall i, j :: 0 <= i < j < |s| ==> key(s[i]) >= key(s[j])
  }

  /** Puts `x` in front of the first element with a smaller-or-equal key. */
  function Insert<T(==)>(x: T, s: seq<T>, key: T -> int): (r: seq<T>)
    requires SortedDesc(s, key)
    ensures SortedDesc(r, key)
    ensures multiset(r) == multiset(s) + multiset{x}
    ensures |r| == |s| + 1
  {
    if |s| == 0 then [x]
    else if key(x) >= key(s[0]) then [x] + s
    else
      var rest := Insert(x, s[1..], key);
      BoundedByPermutation(rest, s[1..], x, key, key(s[0]));
      assert s == [s[0]] + s[1..];
      [s[0]] + rest
  }

  /** A permutation of `s` plus `x` keeps any upper bound on the keys of `s` and `x`. */
  lemma BoundedByPermutation<T>(r: seq<T>, s: seq<T>, x: T, key: T -> int, b: int)
    requires multiset(r) == multiset(s) + multiset{x}
    requires key(x) <= b
    requires forall m :: 0 <= m < |s| ==> key(s[m]) <= b
    ensures forall k :: 0 <= k < |r| ==> key(r[k]) <= b
  {
    forall k | 0 <= k < |r|
      ensures key(r[k]) <= b
    {
      assert r[k] in multiset(r);
      if r[k] != x {
        assert r[k] in multiset(s);
        var m :| 0 <= m < |s| && s[m] == r[k];
      }
    }
  }

  ghost predicate NoRepeats<T>(s: seq<T>)
  {
    forall i, j :: 0 <= i < j < |s| ==> s[i] != s[j]
  }

  /** Without repeats every element occurs at most once. */
  lemma {:induction false} NoRepeatsCountsOnce<T>(a: seq<T>, x: T)
    ensures NoRepeats(a) ==> multiset(a)[x] <= 1
  {
    if |a| > 0 && NoRepeats(a) {
      assert a == [a[0]] + a[1..];
      assert NoRepeats(a[1..]);
      NoRepeatsCountsOnce(a[1..], x);
      if x == a[0] {
        assert x !in a[1..];
      }
    }
  }

  /** An element found at two positions occurs at least twice. */
  lemma RepeatCountsTwice<T>(b: seq<T>, i: nat, j: nat)
    requires i < j < |b|
    ensures b[i] == b[j] ==> multiset(b)[b[i]] >= 2
  {
    assert b == b[..j] + b[j..];
    assert b[..j][i] == b[i] && b[j..][0] == b[j];
    assert multiset(b) == multiset(b[..j]) + multiset(b[j..]);
  }

  /** Reordering a sequence without repeated elements repeats none. */
  lemma PermutationKeepsNoRepeats<T>(a: seq<T>, b: seq<T>)
    requires multiset(a) == multiset(b)
    requires NoRepeats(a)
    ensures NoRepeats(b)
  {
    forall i, j | 0 <= i < j < |b|
      ensures b[i] != b[j]
    {
      RepeatCountsTwice(b, i, j);
      NoRepeatsCountsOnce(a, b[i]);
    }
  }

  /** Insertion sort, largest key first. Among equal keys the later input element
      comes first; the database leaves that order open and this is one admissible choice. */
  function SortDesc<T(==)>(s: seq<T>, key: T -> int): (r: seq<T>)
    ensures SortedDesc(r, key)
    ensures multiset(r) == multiset(s)
    ensures |r| == |s|
  {
    if |s| == 0 then []
    else
      var r := Insert(s[|s| - 1], SortDesc(s[..|s| - 1], key), key);
      assert s == s[..|s| - 1] + [s[|s| - 1]];
      r
  }
}
