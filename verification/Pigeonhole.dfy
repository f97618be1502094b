/** Sequences without repetitions. */
module Pigeonhole {
  predicate Distinct<T(==)>(s: seq<T>) {
    forall i, j :: 0 <= i < j < |s| ==> s[i] != s[j]
  }

  predicate InRange(s: seq<nat>, n: nat) {
    forall k :: 0 <= k < |s| ==> s[k] < n
  }

  lemma DistinctPlus<T>(s: seq<T>, x: T)
    requires Distinct(s) && x !in s
    ensures Distinct(s + [x])
  {
  }

  /** There are at most n different numbers below n. */
  lemma {:induction false} FewBelow(s: seq<nat>, n: nat)
    requires Distinct(s) && InRange(s, n)
    ensures |s| <= n
  {
    if s == [] {
    } else if n - 1 in s {
      var i :| 0 <= i < |s| && s[i] == n - 1;
      FewBelow(s[..i] + s[i + 1..], n - 1);
    } else {
      assert s[0] < n;
      FewBelow(s, n - 1);
    }
  }

  /** n different numbers below n are all of them. */
  lemma Everywhere(s: seq<nat>, n: nat, x: nat)
    requires Distinct(s) && InRange(s, n) && |s| == n && x < n
    ensures x in s
  {
    if x !in s {
      if n - 1 in s {
        var i :| 0 <= i < n && s[i] == n - 1;
        FewBelow(s[i := x], n - 1);
      } else {
        FewBelow(s, n - 1);
      }
    }
  }
}
