/**
 Counting arguments on sequences of distinct indices.
 */
module Counting {

  ghost predicate IsPermutation(perm: seq<nat>, n: nat)
  {
    && |perm| == n
    && (forall j :: 0 <= j < n ==> perm[j] < n)
    && (forall i, j :: 0 <= i < j < n ==> perm[i] != perm[j])
  }

  /** Every value below `n` occurs in a permutation of size `n`. */
  lemma {:induction false} Onto(perm: seq<nat>, n: nat, i: nat) returns (j: nat)
    requires IsPermutation(perm, n) && i < n
    ensures j < n && perm[j] == i
  {
    if i !in perm {
      DistinctCount(perm);
      SubsetCount(Items(perm), Below(n) - {i});
      assert false;
    }
    j :| 0 <= j < n && perm[j] == i;
  }

  ghost function Items(s: seq<nat>): (r: set<nat>)
  {
    set x | x in s
  }

  ghost function Below(n: nat): (r: set<nat>)
    ensures |r| == n
    ensures forall x: nat :: x in r <==> x < n
  {
    if n == 0 then {} else Below(n - 1) + {n - 1}
  }

  lemma {:induction false} DistinctCount(s: seq<nat>)
    requires forall i, j :: 0 <= i < j < |s| ==> s[i] != s[j]
    ensures |Items(s)| == |s|
  {
    if s != [] {
      var n := |s| - 1;
      DistinctCount(s[..n]);
      assert Items(s) == Items(s[..n]) + {s[n]};
    }
  }

  lemma SubsetCount<T>(a: set<T>, b: set<T>)
    requires a <= b
    ensures |a| <= |b|
  {
    assert b == a + (b - a);
  }

  lemma DistinctBound(s: seq<nat>, n: nat)
    requires forall i, j :: 0 <= i < j < |s| ==> s[i] != s[j]
    requires forall i :: 0 <= i < |s| ==> s[i] < n
    ensures |s| <= n
  {
    DistinctCount(s);
    SubsetCount(Items(s), Below(n));
  }
}
