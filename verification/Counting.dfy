/** Distinct numbers from a bounded range are no more than the range is long. */
module Counting {
  predicate Apart(s: seq<nat>, j: nat, k: nat) { j < k < |s| && s[j] != s[k] }

  ghost predicate Distinct(s: seq<nat>) {
    forall j: nat, k: nat {:trigger Apart(s, j, k)} | j < k < |s| :: Apart(s, j, k)
  }

  function Elements(s: seq<nat>): set<nat> {
    if s == [] then {} else Elements(s[..|s| - 1]) + {s[|s| - 1]}
  }

  lemma {:induction false} ElementsAre(s: seq<nat>)
    ensures forall x :: x in Elements(s) <==> x in s
  {
    if s != [] {
      ElementsAre(s[..|s| - 1]);
      assert s == s[..|s| - 1] + [s[|s| - 1]];
    }
  }

  lemma {:induction false} DistinctCount(s: seq<nat>)
    requires Distinct(s)
    ensures |Elements(s)| == |s|
  {
    if s != [] {
      var last := |s| - 1;
      var rest := s[..last];
      forall j: nat, k: nat | j < k < |rest| ensures Apart(rest, j, k) { assert Apart(s, j, k); }
      DistinctCount(rest);
      ElementsAre(rest);
      forall j: nat | j < |rest| ensures rest[j] != s[last] { assert Apart(s, j, last); }
    }
  }

  lemma {:induction false} BoundedCount(s: set<nat>, lo: nat, hi: nat)
    requires lo <= hi && forall x | x in s :: lo <= x < hi
    ensures |s| <= hi - lo
    decreases hi - lo
  {
    if lo < hi {
      BoundedCount(s - {hi - 1}, lo, hi - 1);
    } else {
      assert forall x: nat :: x !in s;
      assert s == {};
    }
  }

  lemma DistinctBounded(s: seq<nat>, lo: nat, hi: nat)
    requires Distinct(s) && lo <= hi && forall k | 0 <= k < |s| :: lo <= s[k] < hi
    ensures |s| <= hi - lo
  {
    DistinctCount(s);
    ElementsAre(s);
    BoundedCount(Elements(s), lo, hi);
  }
}
