/** Stand-ins for std::sort. Callers see only the contracts: some permutation, in
    order; how equal keys are placed is left open, as the C++ standard leaves it. */
module Sorting {
  import opened Lists

  /** `order` lists the positions of `scores` from the largest score to the smallest. */
  ghost predicate IsArgsort(order: seq<nat>, scores: seq<real>) {
    && IsPermutation(order, |scores|)
    && forall j, k :: 0 <= j < k < |order| ==> scores[order[j]] >= scores[order[k]]
  }

  /** Equal keys keep their places as well. */
  ghost predicate StableOrder(order: seq<nat>, scores: seq<real>) {
    && IsArgsort(order, scores)
    && forall p, q :: 0 <= p < q < |order| && scores[order[p]] == scores[order[q]] ==> order[p] < order[q]
  }

  function Insert<T>(s: seq<T>, at: nat, x: T): (r: seq<T>)
    requires at <= |s|
    ensures |r| == |s| + 1
    ensures forall k :: 0 <= k < |r| ==> r[k] == if k < at then s[k] else if k == at then x else s[k - 1]
  {
    s[..at] + [x] + s[at..]
  }

  lemma InsertMembers<T>(s: seq<T>, at: nat, x: T)
    requires at <= |s|
    ensures forall y :: y in Insert(s, at, x) <==> y in s || y == x
  {
    var r := Insert(s, at, x);
    forall y ensures y in r <==> y in s || y == x {
      assert r[at] == x;
      if y in s {
        var k :| 0 <= k < |s| && s[k] == y;
        assert r[if k < at then k else k + 1] == y;
      }
    }
  }

  lemma InsertPermutes(order: seq<nat>, n: nat, at: nat)
    requires IsPermutation(order, n) && at <= n
    ensures IsPermutation(Insert(order, at, n), n + 1)
  {
    InsertMembers(order, at, n);
  }

  ghost predicate Precedes(scores: seq<real>, i: nat, j: nat)
    requires i < |scores| && j < |scores|
  {
    scores[i] > scores[j] || (scores[i] == scores[j] && i < j)
  }

  ghost predicate InTurn(order: seq<nat>, scores: seq<real>) {
    && InRange(order, |scores|)
    && forall p, q :: 0 <= p < q < |order| ==> Precedes(scores, order[p], order[q])
  }

  /** Where `v` can be put in, behind everything that is no smaller. */
  lemma {:induction false} FirstBelow(scores: seq<real>, order: seq<nat>, v: real) returns (at: nat)
    requires InTurn(order, scores)
    ensures at <= |order|
    ensures forall k :: 0 <= k < at ==> scores[order[k]] >= v
    ensures forall k :: at <= k < |order| ==> scores[order[k]] < v
  {
    at := 0;
    while at < |order| && scores[order[at]] >= v
      invariant at <= |order| && forall k :: 0 <= k < at ==> scores[order[k]] >= v
    {
      at := at + 1;
    }
    if at < |order| {
      forall k | at <= k < |order| ensures scores[order[k]] < v {
        if at < k { assert Precedes(scores, order[at], order[k]); }
      }
    }
  }

  lemma InsertInTurn(order: seq<nat>, scores: seq<real>, n: nat, at: nat)
    requires n < |scores| && InRange(order, n) && InTurn(order, scores) && at <= |order|
    requires forall k :: 0 <= k < at ==> scores[order[k]] >= scores[n]
    requires forall k :: at <= k < |order| ==> scores[order[k]] < scores[n]
    ensures InTurn(Insert(order, at, n), scores)
  {
    var longer := Insert(order, at, n);
    forall p, q | 0 <= p < q < |longer| ensures Precedes(scores, longer[p], longer[q]) {
      if p != at && q != at {
        assert Precedes(scores, order[if p < at then p else p - 1], order[if q < at then q else q - 1]);
      }
    }
  }

  /** Every list of scores can be sorted, and equal ones can be left in place. */
  lemma {:induction false} SomeArgsort(scores: seq<real>, n: nat) returns (order: seq<nat>)
    requires n <= |scores|
    ensures IsPermutation(order, n) && InTurn(order, scores)
  {
    order := [];
    if n > 0 {
      var before := SomeArgsort(scores, n - 1);
      var at := FirstBelow(scores, before, scores[n - 1]);
      InsertPermutes(before, n - 1, at);
      InsertInTurn(before, scores, n - 1, at);
      order := Insert(before, at, n - 1);
    }
  }

  lemma InTurnIsStable(order: seq<nat>, scores: seq<real>)
    requires IsPermutation(order, |scores|) && InTurn(order, scores)
    ensures StableOrder(order, scores)
  {
    forall p, q | 0 <= p < q < |order|
      ensures scores[order[p]] >= scores[order[q]] && (scores[order[p]] == scores[order[q]] ==> order[p] < order[q])
    {
      assert Precedes(scores, order[p], order[q]);
    }
  }

  /** A stable order always exists. */
  ghost function AnyArgsort(scores: seq<real>): (order: seq<nat>)
    ensures StableOrder(order, scores)
  {
    ArgsortExists(scores);
    var order :| StableOrder(order, scores);
    order
  }

  lemma ArgsortExists(scores: seq<real>)
    ensures exists order :: StableOrder(order, scores)
  {
    var order := SomeArgsort(scores, |scores|);
    InTurnIsStable(order, scores);
  }

  /** Two tied positions can change places. */
  lemma SwapTied(order: seq<nat>, scores: seq<real>, p: nat, q: nat) returns (swapped: seq<nat>)
    requires IsArgsort(order, scores) && p < q < |order| && scores[order[p]] == scores[order[q]]
    ensures IsArgsort(swapped, scores) && swapped[p] == order[q] && swapped[q] == order[p]
  {
    swapped := order[p := order[q]][q := order[p]];
    forall i: nat | i < |scores| ensures i in swapped {
      assert i in order;
      var k :| 0 <= k < |order| && order[k] == i;
      assert swapped[if k == p then q else if k == q then p else k] == i;
    }
  }

  /** Of two tied keys the later one can come first. */
  lemma LaterFirst(scores: seq<real>, x: nat, y: nat) returns (order: seq<nat>, p: nat, q: nat)
    requires x < y < |scores| && scores[x] == scores[y]
    ensures IsArgsort(order, scores) && p < q < |order| && order[p] == y && order[q] == x
  {
    order := AnyArgsort(scores);
    assert x in order && y in order;
    p :| 0 <= p < |order| && order[p] == y;
    q :| 0 <= q < |order| && order[q] == x;
    if q < p {
      order := SwapTied(order, scores, q, p);
      p, q := q, p;
    }
  }

  method ArgsortDescending(scores: seq<real>) returns (order: seq<nat>)
    ensures IsArgsort(order, scores)
  {
    order := [];
    for n := 0 to |scores|
      invariant IsPermutation(order, n)
      invariant forall j, k :: 0 <= j < k < n ==> scores[order[j]] >= scores[order[k]]
    {
      var at := 0;
      while at < n && scores[order[at]] >= scores[n]
        invariant 0 <= at <= n
        invariant forall k :: 0 <= k < at ==> scores[order[k]] >= scores[n]
      {
        at := at + 1;
      }
      InsertPermutes(order, n, at);
      order := Insert(order, at, n);
    }
  }

  method SortAscending(indices: seq<nat>) returns (sorted: seq<nat>)
    requires Distinct(indices)
    ensures Ascending(sorted)
    ensures forall i: nat :: i in sorted <==> i in indices
  {
    sorted := [];
    for n := 0 to |indices|
      invariant |sorted| == n
      invariant Ascending(sorted)
      invariant forall i: nat :: i in sorted <==> i in indices[..n]
    {
      var at := 0;
      while at < n && sorted[at] < indices[n]
        invariant 0 <= at <= n
        invariant forall k :: 0 <= k < at ==> sorted[k] < indices[n]
      {
        at := at + 1;
      }
      assert indices[n] !in indices[..n];
      assert at < n ==> sorted[at] in sorted;
      InsertMembers(sorted, at, indices[n]);
      sorted := Insert(sorted, at, indices[n]);
      assert indices[..n + 1] == indices[..n] + [indices[n]];
    }
    assert indices[..|indices|] == indices;
  }
}
