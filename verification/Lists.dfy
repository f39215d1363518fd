/** Lists of positions: permutations, selections and the sets behind them. */
module Lists {

  ghost predicate InRange(order: seq<nat>, n: nat) {
    forall k :: 0 <= k < |order| ==> order[k] < n
  }

  ghost predicate IsPermutation(order: seq<nat>, n: nat) {
    && |order| == n
    && (forall k :: 0 <= k < n ==> order[k] < n)
    && (forall j, k :: 0 <= j < k < n ==> order[j] != order[k])
    && (forall i: nat :: i < n ==> i in order)
  }

  ghost predicate Distinct<T>(s: seq<T>) {
    forall j, k :: 0 <= j < k < |s| ==> s[j] != s[k]
  }

  ghost predicate Ascending(s: seq<nat>) {
    forall j, k :: 0 <= j < k < |s| ==> s[j] < s[k]
  }

  function Pick<T>(s: seq<T>, at: seq<nat>): (r: seq<T>)
    requires InRange(at, |s|)
  {
    seq(|at|, k requires 0 <= k < |at| => s[at[k]])
  }

  ghost function Members(s: seq<nat>): set<nat> {
    set i | i in s
  }

  lemma {:induction false} DistinctCardinality(s: seq<nat>)
    requires Distinct(s)
    ensures |Members(s)| == |s|
  {
    if s == [] {
      assert Members(s) == {};
    } else {
      var s', last := s[..|s| - 1], s[|s| - 1];
      DistinctCardinality(s');
      assert s == s' + [last];
      assert last !in Members(s');
      assert Members(s) == Members(s') + {last};
    }
  }

  lemma {:induction false} CardinalityMonotone(a: set<nat>, b: set<nat>)
    requires a <= b
    ensures |a| <= |b|
    decreases a
  {
    if x :| x in a {
      CardinalityMonotone(a - {x}, b - {x});
    }
  }

  /** `part` stands in `all` from `at` on. */
  ghost predicate Shows<T>(all: seq<T>, at: nat, part: seq<T>) {
    at + |part| <= |all| && all[at..at + |part|] == part
  }

  lemma ShownAppended<T>(before: seq<T>, last: seq<T>, at: nat, part: seq<T>)
    requires Shows(before, at, part) || (at == |before| && part == last)
    ensures Shows(before + last, at, part)
  {
  }
}
