/** Class-aware greedy non-maximum suppression as a recursive specification. */
module Suppression {
  import opened Boxes
  import opened Lists
  import opened Sorting

  datatype Detection = Detection(box: Box, score: real, cls: int)

  predicate Suppresses(a: Detection, b: Detection, threshold: real) {
    a.cls == b.cls && Iou(a.box, b.box) > threshold
  }

  /** The part of `rest` that `best` leaves alive. */
  function Survivors(d: seq<Detection>, threshold: real, best: nat, rest: seq<nat>): (r: seq<nat>)
    requires best < |d| && InRange(rest, |d|)
    ensures InRange(r, |d|) && |r| <= |rest|
  {
    if rest == [] then []
    else (if Suppresses(d[best], d[rest[0]], threshold) then [] else [rest[0]])
         + Survivors(d, threshold, best, rest[1..])
  }

  /** Keep the first box, drop what it suppresses, go on with what is left. */
  function Greedy(d: seq<Detection>, threshold: real, order: seq<nat>): (r: seq<nat>)
    requires InRange(order, |d|)
    ensures InRange(r, |d|) && |r| <= |order|
    decreases |order|
  {
    if order == [] then []
    else [order[0]] + Greedy(d, threshold, Survivors(d, threshold, order[0], order[1..]))
  }

  function Capped(s: seq<nat>, cap: nat): seq<nat> {
    if |s| > cap then s[..cap] else s
  }

  /** The positions below `n` that belong to `keep`, ascending. */
  function Positions(n: nat, keep: set<nat>): (r: seq<nat>)
    ensures InRange(r, n)
  {
    if n == 0 then []
    else Positions(n - 1, keep) + if n - 1 in keep then [n - 1] else []
  }

  /** What the whole suppression step leaves behind, in the original relative order. */
  function Suppressed(d: seq<Detection>, threshold: real, cap: nat, order: seq<nat>): seq<Detection>
    requires InRange(order, |d|)
  {
    var kept := Capped(Greedy(d, threshold, order), cap);
    Pick(d, Positions(|d|, set i | i in kept))
  }

  // ---------------------------------------------------------------- Positions

  lemma {:induction false} PositionsExact(n: nat, keep: set<nat>)
    ensures Ascending(Positions(n, keep))
    ensures forall i: nat :: i in Positions(n, keep) <==> i < n && i in keep
  {
    if n > 0 { PositionsExact(n - 1, keep); }
  }

  lemma {:induction false} PositionsOfAll(n: nat, keep: set<nat>)
    requires forall i: nat :: i < n ==> i in keep
    ensures Positions(n, keep) == seq(n, i => i)
  {
    if n > 0 { PositionsOfAll(n - 1, keep); }
  }

  /** Only membership below `n` matters. */
  lemma {:induction false} PositionsAgree(n: nat, a: set<nat>, b: set<nat>)
    requires forall i: nat :: i < n ==> (i in a <==> i in b)
    ensures Positions(n, a) == Positions(n, b)
  {
    if n > 0 { PositionsAgree(n - 1, a, b); }
  }

  /** Erasing the list entry at index `p` when everything up to `p` is still listed. */
  lemma {:induction false} EraseOne(n: nat, keep: set<nat>, p: nat)
    requires p < n && forall i: nat :: i <= p ==> i in keep
    ensures |Positions(n, keep)| > p && Positions(n, keep)[p] == p
    ensures Positions(n, keep)[..p] + Positions(n, keep)[p + 1..] == Positions(n, keep - {p})
  {
    if p == n - 1 {
      PositionsOfAll(n, keep);
      PositionsOfAll(n - 1, keep - {p});
    } else {
      EraseOne(n - 1, keep, p);
      CutInFront(Positions(n - 1, keep), if n - 1 in keep then [n - 1] else [], p);
    }
  }

  lemma CutInFront(s: seq<nat>, tail: seq<nat>, p: nat)
    requires p < |s|
    ensures (s + tail)[..p] + (s + tail)[p + 1..] == (s[..p] + s[p + 1..]) + tail
  {
  }

  // --------------------------------------------------------------- Survivors

  lemma {:induction false} SurvivorsExact(d: seq<Detection>, threshold: real, best: nat, rest: seq<nat>)
    requires best < |d| && InRange(rest, |d|)
    ensures forall i: nat :: i in Survivors(d, threshold, best, rest)
              <==> i in rest && i < |d| && !Suppresses(d[best], d[i], threshold)
  {
    if rest != [] {
      SurvivorsExact(d, threshold, best, rest[1..]);
    }
  }

  /** `a` stands before `b` in `s`. */
  ghost predicate Before(s: seq<nat>, a: nat, b: nat) {
    exists j, k :: 0 <= j < k < |s| && s[j] == a && s[k] == b
  }

  ghost predicate Subsequence(r: seq<nat>, s: seq<nat>) {
    && (forall i: nat :: i in r ==> i in s)
    && (Distinct(s) ==> Distinct(r))
    && (forall a: nat, b: nat :: Before(r, a, b) ==> Before(s, a, b))
  }

  lemma SubsequenceCons(r: seq<nat>, s: seq<nat>, x: nat, keepHead: bool)
    requires Subsequence(r, s)
    ensures Subsequence((if keepHead then [x] else []) + r, [x] + s)
  {
    var r' := (if keepHead then [x] else []) + r;
    var s' := [x] + s;
    forall a: nat, b: nat | Before(s, a, b) ensures Before(s', a, b) {
      var j, k :| 0 <= j < k < |s| && s[j] == a && s[k] == b;
      assert s'[j + 1] == a && s'[k + 1] == b;
    }
    forall a: nat, b: nat | Before(r', a, b) ensures Before(s', a, b) {
      var j, k :| 0 <= j < k < |r'| && r'[j] == a && r'[k] == b;
      if !keepHead {
        assert r' == r;
      } else if j > 0 {
        assert r[j - 1] == a && r[k - 1] == b;
        assert Before(r, a, b);
      } else {
        assert r[k - 1] == b;
        assert b in r;
        var m :| 0 <= m < |s| && s[m] == b;
        assert s'[0] == a && s'[m + 1] == b;
      }
    }
    if Distinct(s') {
      assert s == s'[1..];
      forall j, k | 0 <= j < k < |s| ensures s[j] != s[k] {
        assert s'[j + 1] != s'[k + 1];
      }
      assert forall m :: 0 <= m < |s| ==> s'[m + 1] == s[m] != s'[0];
      assert x !in r;
    }
  }

  lemma {:induction false} SurvivorsSubsequence(d: seq<Detection>, threshold: real, best: nat, rest: seq<nat>)
    requires best < |d| && InRange(rest, |d|)
    ensures Subsequence(Survivors(d, threshold, best, rest), rest)
  {
    if rest != [] {
      SurvivorsSubsequence(d, threshold, best, rest[1..]);
      SubsequenceCons(Survivors(d, threshold, best, rest[1..]), rest[1..], rest[0],
                      !Suppresses(d[best], d[rest[0]], threshold));
      assert rest == [rest[0]] + rest[1..];
    }
  }

  lemma SubsequenceTransitive(a: seq<nat>, b: seq<nat>, c: seq<nat>)
    requires Subsequence(a, b) && Subsequence(b, c)
    ensures Subsequence(a, c)
  {
  }

  // ------------------------------------------------------------------ Greedy

  lemma {:induction false} GreedySubsequence(d: seq<Detection>, threshold: real, order: seq<nat>)
    requires InRange(order, |d|)
    ensures Subsequence(Greedy(d, threshold, order), order)
    decreases |order|
  {
    if order != [] {
      var rest := Survivors(d, threshold, order[0], order[1..]);
      GreedySubsequence(d, threshold, rest);
      SurvivorsSubsequence(d, threshold, order[0], order[1..]);
      SubsequenceTransitive(Greedy(d, threshold, rest), rest, order[1..]);
      SubsequenceCons(Greedy(d, threshold, rest), order[1..], order[0], true);
      assert order == [order[0]] + order[1..];
    }
  }

  /** No kept box suppresses a later kept box. */
  ghost predicate Independent(d: seq<Detection>, threshold: real, kept: seq<nat>)
    requires InRange(kept, |d|)
  {
    forall j, k :: 0 <= j < k < |kept| ==> !Suppresses(d[kept[j]], d[kept[k]], threshold)
  }

  /** Every listed box that is not kept has a kept suppressor earlier in the list. */
  ghost predicate Covering(d: seq<Detection>, threshold: real, order: seq<nat>, kept: seq<nat>)
    requires InRange(order, |d|) && InRange(kept, |d|)
  {
    forall i: nat :: i < |d| && i in order && i !in kept ==>
      exists k: nat :: k < |d| && k in kept && Before(order, k, i) && Suppresses(d[k], d[i], threshold)
  }

  lemma {:induction false} GreedyIndependent(d: seq<Detection>, threshold: real, order: seq<nat>)
    requires InRange(order, |d|)
    ensures Independent(d, threshold, Greedy(d, threshold, order))
    decreases |order|
  {
    if order != [] {
      var rest := Survivors(d, threshold, order[0], order[1..]);
      GreedyIndependent(d, threshold, rest);
      GreedySubsequence(d, threshold, rest);
      SurvivorsExact(d, threshold, order[0], order[1..]);
      IndependentCons(d, threshold, order[0], Greedy(d, threshold, rest));
    }
  }

  lemma IndependentCons(d: seq<Detection>, threshold: real, x: nat, tail: seq<nat>)
    requires x < |d| && InRange(tail, |d|) && Independent(d, threshold, tail)
    requires forall i :: i in tail ==> !Suppresses(d[x], d[i], threshold)
    ensures Independent(d, threshold, [x] + tail)
  {
    var kept := [x] + tail;
    forall j, k | 0 <= j < k < |kept| ensures !Suppresses(d[kept[j]], d[kept[k]], threshold) {
      assert kept[k] == tail[k - 1] && tail[k - 1] in tail;
      if j > 0 { assert kept[j] == tail[j - 1]; }
    }
  }

  lemma BeforeInTail(order: seq<nat>, rest: seq<nat>, a: nat, b: nat)
    requires order != [] && Subsequence(rest, order[1..]) && Before(rest, a, b)
    ensures Before(order, a, b)
  {
    var tail := order[1..];
    assert Before(tail, a, b);
    var j, k :| 0 <= j < k < |tail| && tail[j] == a && tail[k] == b;
    assert order[j + 1] == a && order[k + 1] == b;
  }

  /** Keeping the first box covers what it suppresses; the rest is covered already. */
  lemma CoveringStep(d: seq<Detection>, threshold: real, order: seq<nat>, rest: seq<nat>, kept: seq<nat>)
    requires InRange(order, |d|) && InRange(rest, |d|) && InRange(kept, |d|) && order != []
    requires Subsequence(rest, order[1..]) && Covering(d, threshold, rest, kept)
    requires forall i: nat :: i < |d| && i in order[1..] && i !in rest ==> Suppresses(d[order[0]], d[i], threshold)
    ensures Covering(d, threshold, order, [order[0]] + kept)
  {
    var all := [order[0]] + kept;
    forall i: nat | i < |d| && i in order && i !in all
      ensures exists k: nat :: k < |d| && k in all && Before(order, k, i) && Suppresses(d[k], d[i], threshold)
    {
      assert order[0] in all && i in order[1..];
      if i in rest {
        var k: nat :| k < |d| && k in kept && Before(rest, k, i) && Suppresses(d[k], d[i], threshold);
        BeforeInTail(order, rest, k, i);
        assert k in all;
      } else {
        var m :| 0 <= m < |order[1..]| && order[1..][m] == i;
        assert order[m + 1] == i && Before(order, order[0], i);
      }
    }
  }

  lemma {:induction false} GreedyCovering(d: seq<Detection>, threshold: real, order: seq<nat>)
    requires InRange(order, |d|)
    ensures Covering(d, threshold, order, Greedy(d, threshold, order))
    decreases |order|
  {
    if order != [] {
      var rest := Survivors(d, threshold, order[0], order[1..]);
      GreedyCovering(d, threshold, rest);
      SurvivorsExact(d, threshold, order[0], order[1..]);
      SurvivorsSubsequence(d, threshold, order[0], order[1..]);
      CoveringStep(d, threshold, order, rest, Greedy(d, threshold, rest));
    }
  }

  /** The two conditions leave no freedom: any kept set that meets them is the greedy one. */
  lemma {:induction false} GreedyUnique(d: seq<Detection>, threshold: real, order: seq<nat>, other: seq<nat>)
    requires InRange(order, |d|) && Distinct(order)
    requires InRange(other, |d|) && Subsequence(other, order)
    requires Independent(d, threshold, other) && Covering(d, threshold, order, other)
    ensures forall i: nat :: i in other <==> i in Greedy(d, threshold, order)
  {
    GreedySubsequence(d, threshold, order);
    GreedyIndependent(d, threshold, order);
    GreedyCovering(d, threshold, order);
    forall n: nat | n < |order|
      ensures order[n] in other <==> order[n] in Greedy(d, threshold, order)
    {
      AgreeUpTo(d, threshold, order, other, Greedy(d, threshold, order), n);
    }
  }

  lemma {:induction false} AgreeUpTo(d: seq<Detection>, threshold: real, order: seq<nat>, a: seq<nat>, b: seq<nat>, n: nat)
    requires InRange(order, |d|) && Distinct(order) && n < |order|
    requires InRange(a, |d|) && Subsequence(a, order)
    requires InRange(b, |d|) && Subsequence(b, order)
    requires Independent(d, threshold, a) && Covering(d, threshold, order, a)
    requires Independent(d, threshold, b) && Covering(d, threshold, order, b)
    ensures order[n] in a <==> order[n] in b
    decreases n
  {
    forall m: nat | m < n ensures order[m] in a <==> order[m] in b {
      AgreeUpTo(d, threshold, order, a, b, m);
    }
    if order[n] !in a && order[n] in b {
      NoCoveredMember(d, threshold, order, a, b, n);
    }
    if order[n] in a && order[n] !in b {
      NoCoveredMember(d, threshold, order, b, a, n);
    }
  }

  /** Of two members of an independent list the earlier one does not suppress the later one. */
  lemma EarlierMemberSpares(d: seq<Detection>, threshold: real, order: seq<nat>, b: seq<nat>, p: nat, n: nat)
    requires InRange(order, |d|) && Distinct(order) && p < n < |order|
    requires InRange(b, |d|) && Subsequence(b, order) && Independent(d, threshold, b)
    requires order[p] in b && order[n] in b
    ensures !Suppresses(d[order[p]], d[order[n]], threshold)
  {
    var u :| 0 <= u < |b| && b[u] == order[p];
    var v :| 0 <= v < |b| && b[v] == order[n];
    if v < u { assert Before(b, order[n], order[p]); }
  }

  lemma NoCoveredMember(d: seq<Detection>, threshold: real, order: seq<nat>, a: seq<nat>, b: seq<nat>, n: nat)
    requires InRange(order, |d|) && Distinct(order) && n < |order|
    requires InRange(a, |d|) && Covering(d, threshold, order, a)
    requires InRange(b, |d|) && Subsequence(b, order) && Independent(d, threshold, b)
    requires forall m: nat :: m < n ==> (order[m] in a <==> order[m] in b)
    requires order[n] !in a
    ensures order[n] !in b
  {
    var k: nat :| k < |d| && k in a && Before(order, k, order[n]) && Suppresses(d[k], d[order[n]], threshold);
    var p, q :| 0 <= p < q < |order| && order[p] == k && order[q] == order[n];
    if order[n] in b {
      EarlierMemberSpares(d, threshold, order, b, p, n);
    }
  }

  // ------------------------------------------------------------ Whole step

  /** Kept boxes of one class overlap at most by the threshold, whichever is taken first. */
  lemma KeptPairwiseBelowThreshold(d: seq<Detection>, threshold: real, cap: nat, order: seq<nat>, a: nat, b: nat)
    requires IsPermutation(order, |d|)
    requires a in Capped(Greedy(d, threshold, order), cap) && b in Capped(Greedy(d, threshold, order), cap)
    requires a != b && a < |d| && b < |d| && d[a].cls == d[b].cls
    ensures Iou(d[a].box, d[b].box) <= threshold
  {
    var kept := Greedy(d, threshold, order);
    GreedyIndependent(d, threshold, order);
    IouSymmetric(d[a].box, d[b].box);
    var j :| 0 <= j < |kept| && kept[j] == a;
    var k :| 0 <= k < |kept| && kept[k] == b;
  }

  lemma EarlierScoresMore(d: seq<Detection>, order: seq<nat>, a: nat, b: nat)
    requires IsArgsort(order, seq(|d|, j requires 0 <= j < |d| => d[j].score))
    requires a < |d| && b < |d| && Before(order, a, b)
    ensures d[a].score >= d[b].score
  {
    var scores := seq(|d|, j requires 0 <= j < |d| => d[j].score);
    var j, k :| 0 <= j < k < |order| && order[j] == a && order[k] == b;
    assert scores[order[j]] >= scores[order[k]];
  }

  /** Before the cap, a box goes only for a kept, no lower scored box of its class. */
  lemma DroppedHasKeptRival(d: seq<Detection>, threshold: real, order: seq<nat>, i: nat) returns (k: nat)
    requires IsArgsort(order, seq(|d|, j requires 0 <= j < |d| => d[j].score))
    requires i < |d| && i !in Greedy(d, threshold, order)
    ensures k < |d| && k in Greedy(d, threshold, order)
    ensures d[k].cls == d[i].cls && d[k].score >= d[i].score && Iou(d[k].box, d[i].box) > threshold
  {
    GreedyCovering(d, threshold, order);
    k :| k < |d| && k in Greedy(d, threshold, order) && Before(order, k, i) && Suppresses(d[k], d[i], threshold);
    EarlierScoresMore(d, order, k, i);
  }

  /** The cap cuts the lowest scores. */
  lemma CapKeepsBestScores(d: seq<Detection>, threshold: real, cap: nat, order: seq<nat>, a: nat, b: nat)
    requires IsArgsort(order, seq(|d|, j requires 0 <= j < |d| => d[j].score))
    requires a < |d| && a in Capped(Greedy(d, threshold, order), cap)
    requires b < |d| && b in Greedy(d, threshold, order) && b !in Capped(Greedy(d, threshold, order), cap)
    ensures d[a].score >= d[b].score
    ensures |Capped(Greedy(d, threshold, order), cap)| == cap
  {
    var kept := Greedy(d, threshold, order);
    GreedySubsequence(d, threshold, order);
    var j :| 0 <= j < |kept| && j < cap && kept[j] == a;
    var k :| 0 <= k < |kept| && kept[k] == b;
    assert forall m :: 0 <= m < cap && m < |kept| ==> kept[m] == Capped(kept, cap)[m];
    assert Before(kept, a, b);
  }

  /** Position `i` is among the first `cap` entries of `kept`. */
  ghost predicate AmongFirst(kept: seq<nat>, cap: nat, i: nat) {
    exists k :: 0 <= k < |kept| && k < cap && kept[k] == i
  }

  lemma CappedMembers(s: seq<nat>, cap: nat, i: nat)
    ensures i in Capped(s, cap) <==> AmongFirst(s, cap, i)
  {
    if i in Capped(s, cap) {
      var k :| 0 <= k < |Capped(s, cap)| && Capped(s, cap)[k] == i;
      assert s[k] == i;
    }
    if k :| 0 <= k < |s| && k < cap && s[k] == i { assert Capped(s, cap)[k] == i; }
  }

  /** What is left: the first `cap` boxes of the greedy list, or all of them if there are no more,
      in their original order. */
  lemma {:induction false} SuppressedExactly(d: seq<Detection>, threshold: real, cap: nat, order: seq<nat>) returns (at: seq<nat>)
    requires InRange(order, |d|)
    ensures Ascending(at) && InRange(at, |d|) && Suppressed(d, threshold, cap, order) == Pick(d, at)
    ensures forall i: nat :: i in at <==> AmongFirst(Greedy(d, threshold, order), cap, i)
  {
    var kept := Greedy(d, threshold, order);
    var capped := Capped(kept, cap);
    at := Positions(|d|, set i | i in capped);
    PositionsExact(|d|, set i | i in capped);
    forall i: nat ensures i in at <==> AmongFirst(kept, cap, i) {
      CappedMembers(kept, cap, i);
      assert i in capped ==> i < |d|;
    }
  }

  lemma {:induction false} NothingSuppressed(d: seq<Detection>, threshold: real, order: seq<nat>)
    requires InRange(order, |d|) && Distinct(order)
    requires forall j, k :: 0 <= j < k < |order| ==> !Suppresses(d[order[j]], d[order[k]], threshold)
    ensures Greedy(d, threshold, order) == order
  {
    if order != [] {
      AllSurvive(d, threshold, order[0], order[1..]);
      NothingSuppressed(d, threshold, order[1..]);
    }
  }

  lemma {:induction false} AllSurvive(d: seq<Detection>, threshold: real, best: nat, rest: seq<nat>)
    requires best < |d| && InRange(rest, |d|)
    requires forall k :: 0 <= k < |rest| ==> !Suppresses(d[best], d[rest[k]], threshold)
    ensures Survivors(d, threshold, best, rest) == rest
  {
    if rest != [] { AllSurvive(d, threshold, best, rest[1..]); }
  }

  /** No two boxes that one pass leaves suppress each other. */
  lemma LeftBoxesAreQuiet(d: seq<Detection>, threshold: real, cap: nat, order: seq<nat>, j: nat, k: nat)
    requires IsPermutation(order, |d|)
    requires var n := |Suppressed(d, threshold, cap, order)|; j < n && k < n && j != k
    ensures var once := Suppressed(d, threshold, cap, order); !Suppresses(once[j], once[k], threshold)
  {
    var kept := Capped(Greedy(d, threshold, order), cap);
    var at := Positions(|d|, set i | i in kept);
    PositionsExact(|d|, set i | i in kept);
    assert at[j] in at && at[k] in at;
    if d[at[j]].cls == d[at[k]].cls {
      KeptPairwiseBelowThreshold(d, threshold, cap, order, at[j], at[k]);
    }
  }

  lemma LeftBoxesFit(d: seq<Detection>, threshold: real, cap: nat, order: seq<nat>)
    requires IsPermutation(order, |d|)
    ensures |Suppressed(d, threshold, cap, order)| <= cap
  {
    var kept := Capped(Greedy(d, threshold, order), cap);
    PositionsExact(|d|, set i | i in kept);
    AscendingFits(Positions(|d|, set i | i in kept), kept);
  }

  /** No box suppresses another one. */
  ghost predicate Peaceful(d: seq<Detection>, threshold: real) {
    forall j, k :: 0 <= j < |d| && 0 <= k < |d| && j != k ==> !Suppresses(d[j], d[k], threshold)
  }

  lemma OncePeaceful(d: seq<Detection>, threshold: real, cap: nat, order: seq<nat>)
    requires IsPermutation(order, |d|)
    ensures Peaceful(Suppressed(d, threshold, cap, order), threshold)
  {
    var once := Suppressed(d, threshold, cap, order);
    forall j, k | 0 <= j < |once| && 0 <= k < |once| && j != k
      ensures !Suppresses(once[j], once[k], threshold)
    {
      LeftBoxesAreQuiet(d, threshold, cap, order, j, k);
    }
  }

  lemma PeacefulStays(d: seq<Detection>, threshold: real, cap: nat, order: seq<nat>)
    requires IsPermutation(order, |d|) && Peaceful(d, threshold) && |d| <= cap
    ensures Suppressed(d, threshold, cap, order) == d
  {
    NothingSuppressed(d, threshold, order);
    PositionsOfAll(|d|, set i | i in order);
  }

  /** A second pass removes nothing, however the second sort breaks ties. */
  lemma SuppressionIdempotent(d: seq<Detection>, threshold: real, cap: nat, order: seq<nat>, again: seq<nat>)
    requires IsPermutation(order, |d|)
    requires IsPermutation(again, |Suppressed(d, threshold, cap, order)|)
    ensures var once := Suppressed(d, threshold, cap, order);
            Suppressed(once, threshold, cap, again) == once
  {
    OncePeaceful(d, threshold, cap, order);
    LeftBoxesFit(d, threshold, cap, order);
    PeacefulStays(Suppressed(d, threshold, cap, order), threshold, cap, again);
  }

  /** A list without repeats whose members all occur in `pool` is no longer than `pool`. */
  lemma {:induction false} AscendingFits(s: seq<nat>, pool: seq<nat>)
    requires Ascending(s) && forall i: nat :: i in s ==> i in pool
    ensures |s| <= |pool|
  {
    if s != [] {
      var last := s[|s| - 1];
      assert last in s;
      var k :| 0 <= k < |pool| && pool[k] == last;
      var pool' := pool[..k] + pool[k + 1..];
      var s' := s[..|s| - 1];
      forall i: nat | i in s' ensures i in pool' {
        assert i in s && i != last;
        var m :| 0 <= m < |pool| && pool[m] == i;
        assert pool'[if m < k then m else m - 1] == i;
      }
      AscendingFits(s', pool');
    }
  }

  // ------------------------------------------- What the source's comment says

  /** No box earlier in the list suppresses the one at position `n`. */
  ghost predicate Unrivalled(d: seq<Detection>, threshold: real, order: seq<nat>, n: nat)
    requires InRange(order, |d|) && n < |order|
  {
    forall m :: 0 <= m < n ==> !Suppresses(d[order[m]], d[order[n]], threshold)
  }

  /** A box is preserved exactly when nothing better overlaps it: the source's comment. */
  ghost predicate KeepsTheUnrivalled(d: seq<Detection>, threshold: real, order: seq<nat>)
    requires InRange(order, |d|)
  {
    forall n :: 0 <= n < |order| ==> (order[n] in Greedy(d, threshold, order) <==> Unrivalled(d, threshold, order, n))
  }

  /** Whoever has a rival has one that has none itself. */
  ghost predicate RivalsAreUnrivalled(d: seq<Detection>, threshold: real, order: seq<nat>)
    requires InRange(order, |d|)
  {
    forall n :: 0 <= n < |order| && !Unrivalled(d, threshold, order, n) ==>
      exists m :: 0 <= m < n && Unrivalled(d, threshold, order, m) && Suppresses(d[order[m]], d[order[n]], threshold)
  }

  /** A dropped box has a kept suppressor at an earlier position. */
  lemma KeptSuppressor(d: seq<Detection>, threshold: real, order: seq<nat>, n: nat) returns (m: nat)
    requires InRange(order, |d|) && Distinct(order) && n < |order| && order[n] !in Greedy(d, threshold, order)
    ensures m < n && order[m] in Greedy(d, threshold, order) && Suppresses(d[order[m]], d[order[n]], threshold)
  {
    GreedyCovering(d, threshold, order);
    var kept := Greedy(d, threshold, order);
    var k: nat :| k < |d| && k in kept && Before(order, k, order[n]) && Suppresses(d[k], d[order[n]], threshold);
    var p, q :| 0 <= p < q < |order| && order[p] == k && order[q] == order[n];
    m := p;
  }

  /** A kept box spares every later kept one. */
  lemma KeptSpares(d: seq<Detection>, threshold: real, order: seq<nat>, m: nat, n: nat)
    requires InRange(order, |d|) && Distinct(order) && m < n < |order|
    requires order[m] in Greedy(d, threshold, order) && Suppresses(d[order[m]], d[order[n]], threshold)
    ensures order[n] !in Greedy(d, threshold, order)
  {
    GreedySubsequence(d, threshold, order);
    GreedyIndependent(d, threshold, order);
    if order[n] in Greedy(d, threshold, order) {
      EarlierMemberSpares(d, threshold, order, Greedy(d, threshold, order), m, n);
    }
  }

  lemma UnrivalledIsKept(d: seq<Detection>, threshold: real, order: seq<nat>, n: nat)
    requires InRange(order, |d|) && Distinct(order) && n < |order| && Unrivalled(d, threshold, order, n)
    ensures order[n] in Greedy(d, threshold, order)
  {
    if order[n] !in Greedy(d, threshold, order) {
      var m := KeptSuppressor(d, threshold, order, n);
    }
  }

  /** The comment is right, on a given list, if and only if every box with a rival has an
      unrivalled one. */
  lemma CommentHoldsExactly(d: seq<Detection>, threshold: real, order: seq<nat>)
    requires IsPermutation(order, |d|)
    ensures KeepsTheUnrivalled(d, threshold, order) <==> RivalsAreUnrivalled(d, threshold, order)
  {
    if RivalsAreUnrivalled(d, threshold, order) {
      forall n | 0 <= n < |order|
        ensures order[n] in Greedy(d, threshold, order) <==> Unrivalled(d, threshold, order, n)
      {
        if Unrivalled(d, threshold, order, n) {
          UnrivalledIsKept(d, threshold, order, n);
        } else {
          var m :| 0 <= m < n && Unrivalled(d, threshold, order, m) && Suppresses(d[order[m]], d[order[n]], threshold);
          UnrivalledIsKept(d, threshold, order, m);
          KeptSpares(d, threshold, order, m, n);
        }
      }
    }
    if KeepsTheUnrivalled(d, threshold, order) {
      forall n | 0 <= n < |order| && !Unrivalled(d, threshold, order, n)
        ensures exists m :: 0 <= m < n && Unrivalled(d, threshold, order, m) && Suppresses(d[order[m]], d[order[n]], threshold)
      {
        var m := KeptSuppressor(d, threshold, order, n);
        assert Unrivalled(d, threshold, order, m);
      }
    }
  }

  /** A box can be kept although a higher scored box of its class overlaps it above the
      threshold, when that box was itself suppressed. */
  lemma KeptDespiteBetterOverlap() returns (d: seq<Detection>, order: seq<nat>, a: nat, b: nat)
    ensures IsArgsort(order, seq(|d|, j requires 0 <= j < |d| => d[j].score))
    ensures a < |d| && b < |d| && b in Greedy(d, 0.5, order)
    ensures d[a].cls == d[b].cls && d[a].score > d[b].score && Iou(d[a].box, d[b].box) > 0.5
    ensures !KeepsTheUnrivalled(d, 0.5, order)
  {
    d := [Detection(Box(9.0, 0.0, 0.0, 0.0), 0.9, 0),
          Detection(Box(11.0, 2.0, 0.0, 0.0), 0.8, 0),
          Detection(Box(13.0, 4.0, 0.0, 0.0), 0.7, 0)];
    order, a, b := [0, 1, 2], 1, 2;
    ThreeSorted(order, seq(|d|, j requires 0 <= j < |d| => d[j].score));
    ShiftedBoxes(0.0);
    ShiftedBoxes(2.0);
    ChainKeepsEnds(d, 0.5);
    ChainHasRival(d, 0.5, order);
  }

  lemma ChainHasRival(d: seq<Detection>, threshold: real, order: seq<nat>)
    requires |d| == 3 && order == [0, 1, 2] && Suppresses(d[1], d[2], threshold)
    requires 2 in Greedy(d, threshold, order)
    ensures !KeepsTheUnrivalled(d, threshold, order)
  {
    assert Suppresses(d[order[1]], d[order[2]], threshold);
    assert order[2] == 2 && !Unrivalled(d, threshold, order, 2);
  }

  lemma ThreeSorted(order: seq<nat>, scores: seq<real>)
    requires order == [0, 1, 2] && |scores| == 3 && scores[0] >= scores[1] >= scores[2]
    ensures IsArgsort(order, scores)
  {
    forall i: nat | i < 3 ensures i in order { assert order[i] == i; }
  }

  lemma ShiftedBoxes(x: real)
    ensures Iou(Box(9.0 + x, x, 0.0, 0.0), Box(11.0 + x, 2.0 + x, 0.0, 0.0)) == 8.0 / 12.0
    ensures Iou(Box(9.0 + x, x, 0.0, 0.0), Box(13.0 + x, 4.0 + x, 0.0, 0.0)) == 6.0 / 14.0
  {
  }

  lemma ChainKeepsEnds(d: seq<Detection>, threshold: real)
    requires |d| == 3
    requires Suppresses(d[0], d[1], threshold) && !Suppresses(d[0], d[2], threshold)
    ensures 2 in Greedy(d, threshold, [0, 1, 2])
  {
    var order: seq<nat> := [0, 1, 2];
    var rest := Survivors(d, threshold, 0, order[1..]);
    assert rest == [2] by {
      assert order[1..] == [1, 2] && order[1..][1..] == [2];
      assert [2][1..] == [];
      assert Survivors(d, threshold, 0, [2]) == [2] + Survivors(d, threshold, 0, []);
    }
    assert Greedy(d, threshold, rest)[0] == 2;
    assert Greedy(d, threshold, order)[1] == 2;
  }
}
