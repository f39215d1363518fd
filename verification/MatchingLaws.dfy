/** What the matching of one image guarantees. */
module MatchingLaws {
  import opened Boxes
  import opened Lists
  import opened Sorting
  import opened Suppression
  import opened Matching

  function Sum(s: seq<nat>): nat {
    if s == [] then 0 else Sum(s[..|s| - 1]) + s[|s| - 1]
  }

  /** The marks count the distinct ground truths claimed so far. */
  lemma {:induction false} TruePositivesCountHits(overlaps: seq<Overlap>, threshold: real)
    ensures Sum(TruePositives(overlaps, threshold)) == |Hits(overlaps, threshold)|
  {
    if overlaps == [] {
      assert Hits(overlaps, threshold) == {};
    } else {
      var shorter, last := overlaps[..|overlaps| - 1], overlaps[|overlaps| - 1];
      assert overlaps == shorter + [last];
      TruePositivesCountHits(shorter, threshold);
      HitsExtend(shorter, threshold, last);
      MarksExtend(shorter, threshold, last);
      var marks := TruePositives(overlaps, threshold);
      assert marks[..|marks| - 1] == TruePositives(shorter, threshold);
    }
  }

  /** Every prediction is marked exactly one of the two. */
  lemma MarkedExactlyOnce(overlaps: seq<Overlap>, threshold: real, k: nat)
    requires k < |overlaps|
    ensures TruePositives(overlaps, threshold)[k] + FalsePositives(overlaps, threshold)[k] == 1
  {
  }

  /** A true positive reaches the threshold before anyone else on its ground truth. */
  lemma TruePositiveExactly(overlaps: seq<Overlap>, threshold: real, k: nat)
    requires k < |overlaps|
    ensures TruePositives(overlaps, threshold)[k] == 1 <==>
            && overlaps[k].iou >= threshold
            && forall j :: 0 <= j < k && overlaps[j].iou >= threshold ==> overlaps[j].idx != overlaps[k].idx
  {
    var earlier := overlaps[..k];
    forall j | 0 <= j < k && overlaps[j].iou >= threshold
      ensures overlaps[j].idx in Hits(earlier, threshold)
    {
      assert earlier[j] == overlaps[j];
    }
  }

  /** No ground truth is claimed twice. */
  lemma MatchingInjective(overlaps: seq<Overlap>, threshold: real, j: nat, k: nat)
    requires j < k < |overlaps|
    requires TruePositives(overlaps, threshold)[j] == 1 && TruePositives(overlaps, threshold)[k] == 1
    ensures overlaps[j].idx != overlaps[k].idx
  {
    TruePositiveExactly(overlaps, threshold, k);
    TruePositiveExactly(overlaps, threshold, j);
  }

  /** The best overlap is a maximum over the class, found at its first position; without
      any overlap it is the default position 0 with score 0. */
  lemma {:induction false} BestOverlapIsFirstMaximum(b: Box, gts: seq<Annotation>, c: int, n: nat)
    requires n <= |gts|
    ensures var r := BestOverlap(b, gts, c, n);
            && r.iou >= 0.0
            && (forall g :: 0 <= g < n && gts[g].cls == c ==> Iou(b, gts[g].box) <= r.iou)
            && (r.iou == 0.0 ==> r.idx == 0)
            && (r.iou > 0.0 ==>
                  && r.idx < n && gts[r.idx].cls == c && r.iou == Iou(b, gts[r.idx].box)
                  && forall g :: 0 <= g < r.idx && gts[g].cls == c ==> Iou(b, gts[g].box) < r.iou)
  {
    if n > 0 {
      BestOverlapIsFirstMaximum(b, gts, c, n - 1);
      IouRange(b, gts[n - 1].box);
    }
  }

  /** A positive threshold is only ever reached on a ground truth of the class. */
  lemma HitsAreOfTheClass(d: seq<Detection>, gts: seq<Annotation>, c: int, threshold: real, list: seq<nat>)
    requires InRange(list, |d|) && threshold > 0.0
    ensures Hits(Overlaps(d, gts, c, list), threshold) <= PlacesOf(GtClasses(gts), c)
  {
    var overlaps := Overlaps(d, gts, c, list);
    forall g | g in Hits(overlaps, threshold) ensures g in PlacesOf(GtClasses(gts), c) {
      var k :| 0 <= k < |overlaps| && overlaps[k].iou >= threshold && overlaps[k].idx == g;
      BestOverlapIsFirstMaximum(d[list[k]].box, gts, c, |gts|);
    }
  }

  /** With a positive threshold there are never more true positives than ground truths. */
  lemma NoMoreHitsThanGroundTruths(d: seq<Detection>, gts: seq<Annotation>, order: seq<nat>, c: int, threshold: real)
    requires InRange(order, |d|) && threshold > 0.0
    ensures var s := CategoryStats(d, gts, order, c, threshold);
            Sum(s.truePositive) <= s.numGt
  {
    if c in GtClasses(gts) {
      var list := OfClass(d, order, c);
      TruePositivesCountHits(Overlaps(d, gts, c, list), threshold);
      HitsAreOfTheClass(d, gts, c, threshold, list);
      CardinalityMonotone(Hits(Overlaps(d, gts, c, list), threshold), PlacesOf(GtClasses(gts), c));
      CountIsCardinality(GtClasses(gts), c);
    }
  }

  /** Two far apart predictions of class 1; the ground truth list has class 0 first. */
  const STRAY: seq<Detection> := [Detection(Box(9.0, 0.0, 9.0, 0.0), 0.9, 1),
                                  Detection(Box(109.0, 100.0, 109.0, 100.0), 0.8, 1)]
  const ONE_OF_EACH: seq<Annotation> := [Annotation(Box(9.0, 0.0, 9.0, 0.0), 0), Annotation(Box(9.0, 0.0, 9.0, 0.0), 1)]

  lemma TwoOverlapsTwoMarks(overlaps: seq<Overlap>, threshold: real)
    requires |overlaps| == 2 && overlaps[0].idx != overlaps[1].idx
    requires overlaps[0].iou >= threshold && overlaps[1].iou >= threshold
    ensures Sum(TruePositives(overlaps, threshold)) == 2
  {
    var marks := TruePositives(overlaps, threshold);
    TruePositiveExactly(overlaps, threshold, 0);
    TruePositiveExactly(overlaps, threshold, 1);
    assert marks[..1][..0] == [];
    assert Sum(marks[..1]) == 1;
  }

  lemma BothStray(order: seq<nat>)
    requires order == [0, 1]
    ensures OfClass(STRAY, order, 1) == order
  {
    var first: seq<nat> := [0];
    assert order[..1] == first && first[..0] == [];
    assert OfClass(STRAY, first, 1) == OfClass(STRAY, [], 1) + first;
  }

  lemma OneOfClassOne()
    ensures 1 in GtClasses(ONE_OF_EACH) && CountOf(GtClasses(ONE_OF_EACH), 1) == 1
  {
    var classes := GtClasses(ONE_OF_EACH);
    assert classes[1] == 1 && classes[..1] == [0] && classes[..1][..0] == [];
    assert CountOf([0], 1) == CountOf([0][..0], 1);
  }

  /** At a threshold of zero or less a prediction that overlaps nothing claims position 0,
      which may belong to another class: two true positives for one ground truth. */
  lemma ZeroThresholdOvercounts(threshold: real)
    requires threshold <= 0.0
    ensures IsArgsort([0, 1], [STRAY[0].score, STRAY[1].score])
    ensures var s := CategoryStats(STRAY, ONE_OF_EACH, [0, 1], 1, threshold);
            Sum(s.truePositive) > s.numGt
  {
    var order: seq<nat> := [0, 1];
    forall i: nat | i < 2 ensures i in order { assert order[i] == i; }
    BothStray(order);
    StrayOverlaps();
    OneOfClassOne();
    TwoOverlapsTwoMarks(Overlaps(STRAY, ONE_OF_EACH, 1, order), threshold);
  }

  lemma StrayOverlaps()
    ensures Best(STRAY[0].box, ONE_OF_EACH, 1) == Overlap(1, 1.0)
    ensures Best(STRAY[1].box, ONE_OF_EACH, 1) == Overlap(0, 0.0)
  {
    IouOneExactly(STRAY[0].box, ONE_OF_EACH[1].box);
    assert Iou(STRAY[1].box, ONE_OF_EACH[1].box) == 0.0;
    assert BestOverlap(STRAY[0].box, ONE_OF_EACH, 1, 1) == Overlap(0, 0.0);
    assert BestOverlap(STRAY[1].box, ONE_OF_EACH, 1, 1) == Overlap(0, 0.0);
  }

  /** A threshold keeps the true positives of every image within its ground truths. */
  ghost predicate NeverOvercounts(threshold: real) {
    forall d: seq<Detection>, gts: seq<Annotation>, order: seq<nat>, c: int ::
      IsArgsort(order, seq(|d|, j requires 0 <= j < |d| => d[j].score)) ==>
        Sum(CategoryStats(d, gts, order, c, threshold).truePositive) <= CategoryStats(d, gts, order, c, threshold).numGt
  }

  /** Exactly the positive thresholds do. */
  lemma PositiveThresholdExactly(threshold: real)
    ensures NeverOvercounts(threshold) <==> threshold > 0.0
  {
    if threshold > 0.0 {
      forall d: seq<Detection>, gts: seq<Annotation>, order: seq<nat>, c: int
        | IsArgsort(order, seq(|d|, j requires 0 <= j < |d| => d[j].score))
        ensures Sum(CategoryStats(d, gts, order, c, threshold).truePositive) <= CategoryStats(d, gts, order, c, threshold).numGt
      {
        NoMoreHitsThanGroundTruths(d, gts, order, c, threshold);
      }
    } else {
      ZeroThresholdOvercounts(threshold);
      assert seq(|STRAY|, j requires 0 <= j < |STRAY| => STRAY[j].score) == [STRAY[0].score, STRAY[1].score];
    }
  }

  // ------------------------------------------------------ One class, in full

  lemma {:induction false} OfClassInOrder(d: seq<Detection>, order: seq<nat>, c: int)
    requires InRange(order, |d|)
    ensures Subsequence(OfClass(d, order, c), order)
    ensures forall i: nat :: i in OfClass(d, order, c) <==> i in order && i < |d| && d[i].cls == c
  {
    if order != [] {
      var n := |order| - 1;
      OfClassInOrder(d, order[..n], c);
      SubsequenceSnoc(OfClass(d, order[..n], c), order[..n], order[n], d[order[n]].cls == c);
      assert order == order[..n] + [order[n]];
    }
  }

  lemma SubsequenceSnoc(r: seq<nat>, s: seq<nat>, x: nat, keepLast: bool)
    requires Subsequence(r, s)
    ensures Subsequence(r + (if keepLast then [x] else []), s + [x])
  {
    var r', s' := r + (if keepLast then [x] else []), s + [x];
    forall a: nat, b: nat | Before(r', a, b) ensures Before(s', a, b) {
      var j, k :| 0 <= j < k < |r'| && r'[j] == a && r'[k] == b;
      assert a in s by { assert a == r[j]; }
      if k < |r| {
        assert Before(r, a, b);
        var m, n :| 0 <= m < n < |s| && s[m] == a && s[n] == b;
        assert s'[m] == a && s'[n] == b;
      } else {
        var m :| 0 <= m < |s| && s[m] == a;
        assert s'[m] == a && s'[|s|] == b;
      }
    }
    if Distinct(s') {
      forall j, k | 0 <= j < k < |s| ensures s[j] != s[k] { assert s'[j] != s'[k]; }
      assert forall m :: 0 <= m < |s| ==> s'[m] == s[m] != s'[|s|];
      assert x !in r;
    }
  }

  /** The statistics of one class: its predictions in the order of the scores, each with its score
      and its best overlap, and a mark for the first to reach the threshold on a ground truth. A
      class without ground truth has no statistics at all. */
  lemma {:induction false} CategoryExactly(d: seq<Detection>, gts: seq<Annotation>, order: seq<nat>, c: int, threshold: real)
    returns (list: seq<nat>, overlaps: seq<Overlap>)
    requires InRange(order, |d|)
    ensures Subsequence(list, order) && forall i: nat :: i in list <==> i in order && i < |d| && d[i].cls == c
    ensures |overlaps| == |list| && forall k :: 0 <= k < |list| ==> list[k] < |d| && overlaps[k] == Best(d[list[k]].box, gts, c)
    ensures var s := CategoryStats(d, gts, order, c, threshold);
      if forall g :: 0 <= g < |gts| ==> gts[g].cls != c then s == Stats(0, [], [], [])
      else
        && |s.scores| == |s.truePositive| == |s.falsePositive| == |list|
        && forall k :: 0 <= k < |list| ==>
             && s.scores[k] == d[list[k]].score
             && s.truePositive[k] + s.falsePositive[k] == 1
             && (s.truePositive[k] == 1 <==>
                   && overlaps[k].iou >= threshold
                   && forall j :: 0 <= j < k && overlaps[j].iou >= threshold ==> overlaps[j].idx != overlaps[k].idx)
  {
    list := OfClass(d, order, c);
    overlaps := Overlaps(d, gts, c, list);
    OfClassInOrder(d, order, c);
    assert c in GtClasses(gts) <==> exists g :: 0 <= g < |gts| && gts[g].cls == c by {
      if g :| 0 <= g < |gts| && gts[g].cls == c { assert GtClasses(gts)[g] == c; }
    }
    forall k | 0 <= k < |list|
      ensures TruePositives(overlaps, threshold)[k] == 1 <==>
            && overlaps[k].iou >= threshold
            && forall j :: 0 <= j < k && overlaps[j].iou >= threshold ==> overlaps[j].idx != overlaps[k].idx
    {
      TruePositiveExactly(overlaps, threshold, k);
    }
  }
}
