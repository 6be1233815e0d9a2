/** Counting the values of a sequence. */
module Counting {

  ghost predicate Distinct(s: seq<nat>) {
    forall i, j :: 0 <= i < j < |s| ==> s[i] != s[j]
  }

  function Elements(s: seq<nat>): set<nat> {
    set x | x in s
  }

  lemma {:induction false} DistinctCount(s: seq<nat>)
    requires Distinct(s)
    ensures |Elements(s)| == |s|
  {
    if s != [] {
      var init, last := s[..|s| - 1], s[|s| - 1];
      DistinctCount(init);
      assert Elements(s) == Elements(init) + {last};
    }
  }

  lemma SubsetCount(a: set<nat>, b: set<nat>)
    requires a <= b
    ensures |a| <= |b|
  {
    assert b == a + (b - a);
  }

  /** The numbers from 0 to k. */
  function Numbers(k: nat): set<nat> {
    if k == 0 then {0} else Numbers(k - 1) + {k}
  }

  lemma {:induction false} NumbersCount(k: nat)
    ensures |Numbers(k)| == k + 1 && forall i :: i in Numbers(k) <==> 0 <= i <= k
  {
    if k > 0 {
      NumbersCount(k - 1);
    }
  }

  /** More values than numbers to take them from: two of them are equal. */
  lemma Pigeonhole(s: seq<nat>, k: nat) returns (i: nat, j: nat)
    requires |s| > k + 1 && forall x :: x in s ==> x <= k
    ensures i < j < |s| && s[i] == s[j]
  {
    if Distinct(s) {
      DistinctCount(s);
      NumbersCount(k);
      SubsetCount(Elements(s), Numbers(k));
      assert false;
    }
    i, j :| 0 <= i < j < |s| && s[i] == s[j];
  }
}
