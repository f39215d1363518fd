/** Laws of the batch score: bounds, and what raising the overlap threshold does to it. */
module MetricLaws {
  import opened Boxes
  import opened Lists
  import opened Sorting
  import opened Suppression
  import opened Matching
  import opened MatchingLaws
  import opened BatchMetrics
  import opened Reals

  // ------------------------------------------------------- Sums above a score

  /** The marks of the predictions that score at least `bar`. */
  function SumAbove(scores: seq<real>, marks: seq<nat>, bar: real): nat
    requires |scores| == |marks|
  {
    if scores == [] then 0
    else
      var n := |scores| - 1;
      SumAbove(scores[..n], marks[..n], bar) + if scores[n] >= bar then marks[n] else 0
  }

  lemma {:induction false} SumAboveAppend(s: seq<real>, m: seq<nat>, s': seq<real>, m': seq<nat>, bar: real)
    requires |s| == |m| && |s'| == |m'|
    ensures SumAbove(s + s', m + m', bar) == SumAbove(s, m, bar) + SumAbove(s', m', bar)
  {
    if s' == [] {
      assert s + s' == s && m + m' == m;
    } else {
      var n := |s'| - 1;
      SumAboveAppend(s, m, s'[..n], m'[..n], bar);
      assert (s + s')[..|s| + n] == s + s'[..n];
      assert (m + m')[..|s| + n] == m + m'[..n];
    }
  }

  lemma {:induction false} SumAboveAll(scores: seq<real>, marks: seq<nat>, bar: real)
    requires |scores| == |marks| && forall k :: 0 <= k < |scores| ==> scores[k] >= bar
    ensures SumAbove(scores, marks, bar) == Sum(marks)
  {
    if scores != [] { SumAboveAll(scores[..|scores| - 1], marks[..|marks| - 1], bar); }
  }

  function SumOver(marks: seq<nat>, at: set<nat>): nat {
    if marks == [] then 0
    else
      var n := |marks| - 1;
      SumOver(marks[..n], at) + if n in at then marks[n] else 0
  }

  lemma {:induction false} SumOverAgree(marks: seq<nat>, a: set<nat>, b: set<nat>)
    requires forall i: nat :: i < |marks| ==> (i in a <==> i in b)
    ensures SumOver(marks, a) == SumOver(marks, b)
  {
    if marks != [] { SumOverAgree(marks[..|marks| - 1], a, b); }
  }

  lemma {:induction false} SumOverAdd(marks: seq<nat>, at: set<nat>, x: nat)
    requires x < |marks| && x !in at
    ensures SumOver(marks, at + {x}) == SumOver(marks, at) + marks[x]
  {
    var n := |marks| - 1;
    if x == n {
      SumOverAgree(marks[..n], at, at + {x});
    } else {
      SumOverAdd(marks[..n], at, x);
    }
  }

  lemma {:induction false} SumOverEmpty(marks: seq<nat>)
    ensures SumOver(marks, {}) == 0
  {
    if marks != [] { SumOverEmpty(marks[..|marks| - 1]); }
  }

  lemma {:induction false} CumulativeIsSumOver(marks: seq<nat>, order: seq<nat>, k: nat)
    requires InRange(order, |marks|) && Distinct(order) && k <= |order|
    ensures Cumulative(marks, order, k) == SumOver(marks, Members(order[..k]))
  {
    if k == 0 {
      SumOverEmpty(marks);
      assert Members(order[..0]) == {};
    } else {
      CumulativeIsSumOver(marks, order, k - 1);
      SumOverAdd(marks, Members(order[..k - 1]), order[k - 1]);
      assert order[..k] == order[..k - 1] + [order[k - 1]];
      assert Members(order[..k]) == Members(order[..k - 1]) + {order[k - 1]};
    }
  }

  // ---------------------------------------------------- One image, order free

  /** The ground truths some prediction of the class scoring at least `bar` overlaps best, up to the threshold. */
  function HitsAbove(d: seq<Detection>, gts: seq<Annotation>, c: int, threshold: real, bar: real): set<nat> {
    set i | 0 <= i < |d| && d[i].cls == c && d[i].score >= bar && Best(d[i].box, gts, c).iou >= threshold
      :: Best(d[i].box, gts, c).idx
  }

  lemma HitsAboveAntitone(d: seq<Detection>, gts: seq<Annotation>, c: int, lo: real, hi: real, bar: real)
    requires lo <= hi
    ensures |HitsAbove(d, gts, c, hi, bar)| <= |HitsAbove(d, gts, c, lo, bar)|
  {
    CardinalityMonotone(HitsAbove(d, gts, c, hi, bar), HitsAbove(d, gts, c, lo, bar));
  }

  /** `list` names, from the best score down, the predictions of the class that score at least `bar`. */
  ghost predicate ListsClass(d: seq<Detection>, c: int, list: seq<nat>, bar: real)
  {
    && Descending(d, list)
    && forall i: nat :: i < |d| && d[i].score >= bar ==> (i in list <==> d[i].cls == c)
  }

  /** Whatever the order among ties, the marks above a score count the same ground truths. */
  lemma {:induction false} MarksAboveCountHits(d: seq<Detection>, gts: seq<Annotation>, c: int, threshold: real,
                                                list: seq<nat>, bar: real)
    requires ListsClass(d, c, list, bar)
    requires forall i: nat :: i in list && i < |d| ==> d[i].cls == c
    ensures SumAbove(ScoresOf(d, list), TruePositives(Overlaps(d, gts, c, list), threshold), bar)
         == |HitsAbove(d, gts, c, threshold, bar)|
    decreases |list|
  {
    if list == [] || d[list[|list| - 1]].score >= bar {
      SumAboveAll(ScoresOf(d, list), TruePositives(Overlaps(d, gts, c, list), threshold), bar);
      TruePositivesCountHits(Overlaps(d, gts, c, list), threshold);
      ListedHits(d, gts, c, threshold, list, bar);
    } else {
      var n := |list| - 1;
      assert list == list[..n] + [list[n]];
      MarksAboveCountHits(d, gts, c, threshold, list[..n], bar);
      ShorterList(d, gts, c, threshold, list, n);
      LastBelow(ScoresOf(d, list), TruePositives(Overlaps(d, gts, c, list), threshold), bar);
    }
  }

  lemma LastBelow(scores: seq<real>, marks: seq<nat>, bar: real)
    requires |scores| == |marks| > 0 && scores[|scores| - 1] < bar
    ensures SumAbove(scores, marks, bar) == SumAbove(scores[..|scores| - 1], marks[..|scores| - 1], bar)
  {
  }

  /** Leaving out the last listed box leaves out its score and its mark. */
  lemma ShorterList(d: seq<Detection>, gts: seq<Annotation>, c: int, threshold: real, list: seq<nat>, n: nat)
    requires InRange(list, |d|) && |list| == n + 1
    ensures ScoresOf(d, list[..n]) == ScoresOf(d, list)[..n]
    ensures TruePositives(Overlaps(d, gts, c, list[..n]), threshold)
         == TruePositives(Overlaps(d, gts, c, list), threshold)[..n]
  {
    var before, overlaps := Overlaps(d, gts, c, list[..n]), Overlaps(d, gts, c, list);
    assert overlaps == before + [overlaps[n]];
    MarksExtend(before, threshold, overlaps[n]);
  }

  lemma ListedHits(d: seq<Detection>, gts: seq<Annotation>, c: int, threshold: real, list: seq<nat>, bar: real)
    requires ListsClass(d, c, list, bar)
    requires forall i: nat :: i in list && i < |d| ==> d[i].cls == c
    requires forall k :: 0 <= k < |list| ==> d[list[k]].score >= bar
    ensures Hits(Overlaps(d, gts, c, list), threshold) == HitsAbove(d, gts, c, threshold, bar)
  {
    var overlaps := Overlaps(d, gts, c, list);
    forall g | g in Hits(overlaps, threshold) ensures g in HitsAbove(d, gts, c, threshold, bar) {
      var k :| 0 <= k < |overlaps| && overlaps[k].iou >= threshold && overlaps[k].idx == g;
      assert list[k] in list;
    }
    forall g | g in HitsAbove(d, gts, c, threshold, bar) ensures g in Hits(overlaps, threshold) {
      var i :| 0 <= i < |d| && d[i].cls == c && d[i].score >= bar && Best(d[i].box, gts, c).iou >= threshold
               && Best(d[i].box, gts, c).idx == g;
      var k :| 0 <= k < |list| && list[k] == i;
      assert overlaps[k].idx == g;
    }
  }

  /** No position in `list` scores less than a later one. */
  ghost predicate Descending(d: seq<Detection>, list: seq<nat>) {
    InRange(list, |d|) && forall j, k :: 0 <= j < k < |list| ==> d[list[j]].score >= d[list[k]].score
  }

  lemma DescendingAppend(d: seq<Detection>, list: seq<nat>, x: nat)
    requires Descending(d, list) && x < |d|
    requires forall k :: 0 <= k < |list| ==> d[list[k]].score >= d[x].score
    ensures Descending(d, list + [x])
  {
  }

  lemma {:induction false} OfClassSorted(d: seq<Detection>, order: seq<nat>, c: int)
    requires Descending(d, order)
    ensures Descending(d, OfClass(d, order, c))
  {
    if order != [] {
      var shorter, last := order[..|order| - 1], order[|order| - 1];
      var list := OfClass(d, shorter, c);
      OfClassSorted(d, shorter, c);
      if d[last].cls == c {
        OfClassMembers(d, shorter, c);
        forall j | 0 <= j < |list| ensures d[list[j]].score >= d[last].score {
          assert list[j] in list;
          var k :| 0 <= k < |shorter| && shorter[k] == list[j];
          assert order[k] == list[j];
        }
        DescendingAppend(d, list, last);
      }
    }
  }

  lemma SortedDescends(image: Image)
    requires Sorted(image)
    ensures Descending(image.d, image.order)
  {
    var scores := DetectionScores(image.d);
    forall j, k | 0 <= j < k < |image.order| ensures image.d[image.order[j]].score >= image.d[image.order[k]].score {
      assert scores[image.order[j]] >= scores[image.order[k]];
    }
  }

  lemma ImageMarksAbove(image: Image, c: int, threshold: real, bar: real)
    requires Sorted(image)
    ensures var s := CategoryStats(image.d, image.gts, image.order, c, threshold);
            && |s.scores| == |s.truePositive|
            && SumAbove(s.scores, s.truePositive, bar)
            == if c in GtClasses(image.gts) then |HitsAbove(image.d, image.gts, c, threshold, bar)| else 0
  {
    if c in GtClasses(image.gts) {
      SortedDescends(image);
      OfClassMembers(image.d, image.order, c);
      OfClassSorted(image.d, image.order, c);
      MarksAboveCountHits(image.d, image.gts, c, threshold, OfClass(image.d, image.order, c), bar);
    }
  }

  // -------------------------------------------------------------- The batch

  /** The same images; each side sorted its predictions on its own. */
  ghost predicate SameScenes(a: seq<Image>, b: seq<Image>) {
    && |a| == |b|
    && forall k :: 0 <= k < |a| ==> Sorted(a[k]) && Sorted(b[k]) && a[k].d == b[k].d && a[k].gts == b[k].gts
  }

  /** Above any score, a higher threshold leaves no more true positives in the whole batch. */
  lemma {:induction false} BatchMarksAntitone(a: seq<Image>, b: seq<Image>, c: int, lo: real, hi: real, bar: real)
    requires SameScenes(a, b) && lo <= hi
    ensures WellFormed(BatchStats(a, c, hi)) && WellFormed(BatchStats(b, c, lo))
    ensures SumAbove(BatchStats(a, c, hi).scores, BatchStats(a, c, hi).truePositive, bar)
         <= SumAbove(BatchStats(b, c, lo).scores, BatchStats(b, c, lo).truePositive, bar)
  {
    BatchWellFormed(a, c, hi);
    BatchWellFormed(b, c, lo);
    if a != [] {
      var n := |a| - 1;
      BatchMarksAntitone(a[..n], b[..n], c, lo, hi, bar);
      ImageMarksAbove(a[n], c, hi, bar);
      ImageMarksAbove(b[n], c, lo, bar);
      HitsAboveAntitone(a[n].d, a[n].gts, c, lo, hi, bar);
      var s, s' := CategoryStats(a[n].d, a[n].gts, a[n].order, c, hi), CategoryStats(b[n].d, b[n].gts, b[n].order, c, lo);
      var t, t' := BatchStats(a[..n], c, hi), BatchStats(b[..n], c, lo);
      SumAboveAppend(t.scores, t.truePositive, s.scores, s.truePositive, bar);
      SumAboveAppend(t'.scores, t'.truePositive, s'.scores, s'.truePositive, bar);
    }
  }

  /** Two strictly descending lists of the same predictions are one list. */
  lemma {:induction false} DescendingUnique(d: seq<Detection>, a: seq<nat>, b: seq<nat>)
    requires |a| == |b|
    requires StrictlyDescending(d, a) && StrictlyDescending(d, b)
    requires forall i: nat :: i in a <==> i in b
    ensures a == b
  {
    if a != [] {
      var m, n := |a| - 1, |b| - 1;
      assert a[m] in a && b[n] in b;
      assert a[m] == b[n];
      assert a == a[..m] + [a[m]] && b == b[..n] + [b[n]];
      assert a[m] !in a[..m] && b[n] !in b[..n];
      forall i: nat ensures i in a[..m] <==> i in b[..n] {
        assert i in a <==> i in a[..m] || i == a[m];
        assert i in b <==> i in b[..n] || i == b[n];
      }
      DescendingUnique(d, a[..m], b[..n]);
    }
  }

  ghost predicate StrictlyDescending(d: seq<Detection>, list: seq<nat>) {
    InRange(list, |d|) && forall j, k :: 0 <= j < k < |list| ==> d[list[j]].score > d[list[k]].score
  }

  lemma DistinctDescends(d: seq<Detection>, list: seq<nat>)
    requires Descending(d, list) && Distinct(ScoresOf(d, list))
    ensures StrictlyDescending(d, list)
  {
    var scores := ScoresOf(d, list);
    forall j, k | 0 <= j < k < |list| ensures d[list[j]].score > d[list[k]].score {
      assert scores[j] != scores[k];
    }
  }

  /** Distinctness of the scores does not depend on the order of the list. */
  lemma DistinctTransfers(d: seq<Detection>, s: seq<nat>, t: seq<nat>)
    requires InRange(s, |d|) && InRange(t, |d|) && Distinct(s) && Distinct(ScoresOf(d, t))
    requires forall i: nat :: i in s ==> i in t
    ensures Distinct(ScoresOf(d, s))
  {
    var scores := ScoresOf(d, t);
    forall j, k | 0 <= j < k < |s| ensures ScoresOf(d, s)[j] != ScoresOf(d, s)[k] {
      assert s[j] in t && s[k] in t;
      var p, q :| 0 <= p < |t| && t[p] == s[j] && 0 <= q < |t| && t[q] == s[k];
      assert p != q;
      assert scores[p] != scores[q];
    }
  }

  /** With distinct scores in the class, both sides list the class alike. */
  lemma ImageListsAgree(a: Image, b: Image, c: int)
    requires Sorted(a) && Sorted(b) && a.d == b.d
    requires Distinct(ScoresOf(b.d, OfClass(b.d, b.order, c)))
    ensures OfClass(a.d, a.order, c) == OfClass(b.d, b.order, c)
  {
    var d := a.d;
    var s, t := OfClass(d, a.order, c), OfClass(d, b.order, c);
    SortedDescends(a);
    SortedDescends(b);
    OfClassMembers(d, a.order, c);
    OfClassMembers(d, b.order, c);
    OfClassCount(d, a.order, c);
    OfClassCount(d, b.order, c);
    OfClassSorted(d, a.order, c);
    OfClassSorted(d, b.order, c);
    DistinctTransfers(d, s, t);
    DistinctDescends(d, s);
    DistinctDescends(d, t);
    DescendingUnique(d, s, t);
  }

  lemma ScoresReorder(d: seq<Detection>, list: seq<nat>)
    requires InRange(list, |d|) && Distinct(list) && Distinct(DetectionScores(d))
    ensures Distinct(ScoresOf(d, list))
  {
    var scores := DetectionScores(d);
    forall j, k | 0 <= j < k < |list| ensures ScoresOf(d, list)[j] != ScoresOf(d, list)[k] {
      assert list[j] != list[k];
      assert list[j] < list[k] ==> scores[list[j]] != scores[list[k]];
      assert list[k] < list[j] ==> scores[list[k]] != scores[list[j]];
    }
  }

  lemma {:induction false} ArgsortUnique(scores: seq<real>, a: seq<nat>, b: seq<nat>)
    requires IsArgsort(a, scores) && IsArgsort(b, scores) && Distinct(scores)
    ensures a == b
  {
    var d := seq(|scores|, i requires 0 <= i < |scores| => Detection(Box(0.0, 0.0, 0.0, 0.0), scores[i], 0));
    assert DetectionScores(d) == scores;
    ScoresReorder(d, a);
    ScoresReorder(d, b);
    DistinctDescends(d, a);
    DistinctDescends(d, b);
    DescendingUnique(d, a, b);
  }

  // ------------------------------------------------- From marks to the score

  lemma {:induction false} MaxPrecisionMonotone(p: seq<real>, r: seq<real>, p': seq<real>, r': seq<real>, point: real, n: nat)
    requires |p| == |r| == |p'| == |r'| && n <= |p|
    requires forall k :: 0 <= k < |p| ==> p[k] <= p'[k] && r[k] <= r'[k]
    ensures 0.0 <= MaxPrecision(p, r, point, n) <= MaxPrecision(p', r', point, n)
  {
    if n > 0 { MaxPrecisionMonotone(p, r, p', r', point, n - 1); }
  }

  lemma {:induction false} InterpolationMonotone(p: seq<real>, r: seq<real>, p': seq<real>, r': seq<real>, interval: nat, n: nat)
    requires |p| == |r| == |p'| == |r'|
    requires forall k :: 0 <= k < |p| ==> p[k] <= p'[k] && r[k] <= r'[k]
    ensures InterpolatedSum(p, r, interval, n) <= InterpolatedSum(p', r', interval, n)
  {
    if n > 0 && interval >= 2 {
      InterpolationMonotone(p, r, p', r', interval, n - 1);
      var point := SamplePoint(n - 1, interval);
      MaxPrecisionMonotone(p, r, p', r', point, |p|);
      QuotientMonotone(MaxPrecision(p, r, point, |p|), MaxPrecision(p', r', point, |p|), interval as real);
    }
  }

  lemma CurveMonotone(s: Stats, t: Stats, order: seq<nat>)
    requires InRange(order, |s.truePositive|) && InRange(order, |t.truePositive|) && s.numGt == t.numGt > 0
    requires forall k :: 0 < k <= |order| ==> Cumulative(s.truePositive, order, k) <= Cumulative(t.truePositive, order, k)
    ensures forall k :: 0 <= k < |order| ==>
              Precisions(s, order)[k] <= Precisions(t, order)[k] && Recalls(s, order)[k] <= Recalls(t, order)[k]
  {
    forall k | 0 <= k < |order|
      ensures Precisions(s, order)[k] <= Precisions(t, order)[k] && Recalls(s, order)[k] <= Recalls(t, order)[k]
    {
      var x, y := Cumulative(s.truePositive, order, k + 1), Cumulative(t.truePositive, order, k + 1);
      QuotientMonotone(x as real, y as real, (k + 1) as real);
      QuotientMonotone(x as real, y as real, s.numGt as real);
    }
  }

  lemma {:induction false} TotalMonotone(a: seq<real>, b: seq<real>)
    requires |a| == |b| && forall k :: 0 <= k < |a| ==> a[k] <= b[k]
    ensures Total(a) <= Total(b)
  {
    if a != [] { TotalMonotone(a[..|a| - 1], b[..|b| - 1]); }
  }

  // -------------------------------------------------------------- Bounds

  lemma QuotientInUnit(n: nat, d: nat)
    requires n <= d && d > 0
    ensures 0.0 <= n as real / d as real <= 1.0
  {
    QuotientRange(n as real, d as real);
  }

  lemma PrecisionInUnit(s: Stats, order: seq<nat>, k: nat)
    requires WellFormed(s) && InRange(order, |s.scores|) && 0 < k <= |order|
    ensures 0.0 <= PrecisionAt(s, order, k) <= 1.0
  {
    MarksAddUp(s, order, k);
    QuotientInUnit(Cumulative(s.truePositive, order, k), k);
  }

  /** Going down the sorted list never loses recall. */
  lemma {:induction false} RecallNonDecreasing(s: Stats, order: seq<nat>, j: nat, k: nat)
    requires InRange(order, |s.truePositive|) && s.numGt > 0 && j <= k <= |order|
    ensures RecallAt(s, order, j) <= RecallAt(s, order, k)
    decreases k
  {
    if j < k {
      RecallNonDecreasing(s, order, j, k - 1);
      QuotientMonotone(Cumulative(s.truePositive, order, k - 1) as real, Cumulative(s.truePositive, order, k) as real, s.numGt as real);
    }
  }

  lemma {:induction false} MaxPrecisionInUnit(p: seq<real>, r: seq<real>, point: real, n: nat)
    requires |p| == |r| && n <= |p| && forall k :: 0 <= k < |p| ==> p[k] <= 1.0
    ensures 0.0 <= MaxPrecision(p, r, point, n) <= 1.0
  {
    if n > 0 { MaxPrecisionInUnit(p, r, point, n - 1); }
  }

  lemma QuotientOfSum(a: real, b: real, d: real)
    requires d != 0.0
    ensures a / d + b / d == (a + b) / d
  {
  }

  lemma {:induction false} InterpolationInUnit(p: seq<real>, r: seq<real>, interval: nat, n: nat)
    requires |p| == |r| && forall k :: 0 <= k < |p| ==> p[k] <= 1.0
    ensures 0.0 <= InterpolatedSum(p, r, interval, n)
    ensures interval >= 2 ==> InterpolatedSum(p, r, interval, n) <= n as real / interval as real
    ensures interval < 2 ==> InterpolatedSum(p, r, interval, n) == 0.0
  {
    if n > 0 && interval >= 2 {
      InterpolationInUnit(p, r, interval, n - 1);
      var point := SamplePoint(n - 1, interval);
      MaxPrecisionInUnit(p, r, point, |p|);
      QuotientMonotone(0.0, MaxPrecision(p, r, point, |p|), interval as real);
      QuotientMonotone(MaxPrecision(p, r, point, |p|), 1.0, interval as real);
      QuotientOfSum((n - 1) as real, 1.0, interval as real);
    }
  }

  lemma ClassApInUnit(s: Stats, order: seq<nat>, interval: nat)
    requires Evaluable(s, order)
    ensures 0.0 <= ClassAp(s, order, interval) <= 1.0
  {
    if s.numGt > 0 {
      forall k | 0 <= k < |order| ensures Precisions(s, order)[k] <= 1.0 {
        PrecisionInUnit(s, order, k + 1);
      }
      InterpolationInUnit(Precisions(s, order), Recalls(s, order), interval, interval);
    }
  }

  lemma {:induction false} ClassApsInUnit(stats: seq<Stats>, orders: seq<seq<nat>>, interval: nat)
    requires Orders(stats, orders)
    ensures forall k :: 0 <= k < |ClassAps(stats, orders, interval)| ==> 0.0 <= ClassAps(stats, orders, interval)[k] <= 1.0
  {
    if stats != [] {
      var n := |stats| - 1;
      ClassApsInUnit(stats[..n], orders[..n], interval);
      assert Evaluable(stats[n], orders[n]);
      ClassApInUnit(stats[n], orders[n], interval);
    }
  }

  lemma {:induction false} TotalInRange(s: seq<real>)
    requires forall k :: 0 <= k < |s| ==> 0.0 <= s[k] <= 1.0
    ensures 0.0 <= Total(s) <= |s| as real
  {
    if s != [] { TotalInRange(s[..|s| - 1]); }
  }

  /** Whatever was accumulated, the score lies in [0, 1]. */
  lemma ScoreInUnit(stats: seq<Stats>, orders: seq<seq<nat>>, interval: nat)
    requires Orders(stats, orders)
    ensures 0.0 <= Evaluate(stats, orders, interval) <= 1.0
  {
    var aps := ClassAps(stats, orders, interval);
    ClassApsInUnit(stats, orders, interval);
    TotalInRange(aps);
    if |aps| > 0 { QuotientRange(Total(aps), |aps| as real); }
  }

  lemma {:induction false} SumAppend(a: seq<nat>, b: seq<nat>)
    ensures Sum(a + b) == Sum(a) + Sum(b)
  {
    if b == [] {
      assert a + b == a;
    } else {
      SumAppend(a, b[..|b| - 1]);
      assert (a + b)[..|a + b| - 1] == a + b[..|b| - 1];
    }
  }

  /** After any number of images, a class has no more true positives than ground truths. */
  lemma {:induction false} BatchNoMoreHitsThanGroundTruths(images: seq<Image>, c: int, threshold: real)
    requires AllSorted(images)
    requires threshold > 0.0
    ensures Sum(BatchStats(images, c, threshold).truePositive) <= BatchStats(images, c, threshold).numGt
  {
    if images != [] {
      var n := |images| - 1;
      var last := images[n];
      assert Sorted(last);
      BatchNoMoreHitsThanGroundTruths(images[..n], c, threshold);
      NoMoreHitsThanGroundTruths(last.d, last.gts, last.order, c, threshold);
      SumAppend(BatchStats(images[..n], c, threshold).truePositive,
                CategoryStats(last.d, last.gts, last.order, c, threshold).truePositive);
    }
  }
}
