/** What the statistics and the score of a batch stand for, counted directly. */
module CurveLaws {
  import opened Lists
  import opened Sorting
  import opened Matching
  import opened BatchMetrics
  import opened MetricLaws
  import opened TieOrders
  import opened Reals

  // ------------------------------------------------------ The accumulation

  /** The ground truths of a class: image and position. */
  ghost function GroundTruths(images: seq<Image>, c: int): set<(nat, nat)> {
    set b: nat, i: nat | b < |images| && i < |images[b].gts| && images[b].gts[i].cls == c :: (b, i)
  }

  ghost function Tagged(b: nat, places: set<nat>): set<(nat, nat)> {
    set i | i in places :: (b, i)
  }

  lemma {:induction false} TaggedSize(b: nat, places: set<nat>)
    ensures |Tagged(b, places)| == |places|
    decreases places
  {
    if places == {} {
      assert Tagged(b, places) == {};
    } else {
      var i :| i in places;
      TaggedSize(b, places - {i});
      assert Tagged(b, places) == Tagged(b, places - {i}) + {(b, i)};
    }
  }

  lemma OneMoreImage(images: seq<Image>, c: int)
    requires images != []
    ensures var n := |images| - 1;
      var before, here := GroundTruths(images[..n], c), Tagged(n, PlacesOf(GtClasses(images[n].gts), c));
      GroundTruths(images, c) == before + here && before !! here
  {
    var n := |images| - 1;
    var before, here := GroundTruths(images[..n], c), Tagged(n, PlacesOf(GtClasses(images[n].gts), c));
    forall b: nat, i: nat ensures (b, i) in GroundTruths(images, c) <==> (b, i) in before || (b, i) in here {
      assert b < n ==> images[..n][b] == images[b];
    }
  }

  lemma DisjointSize<T>(a: set<T>, b: set<T>)
    requires a !! b
    ensures |a + b| == |a| + |b|
  {
  }

  /** After any number of images a class has as many ground truths as the images annotate. */
  lemma {:induction false} GroundTruthsCounted(images: seq<Image>, c: int, t: real)
    requires AllSorted(images)
    ensures BatchStats(images, c, t).numGt == |GroundTruths(images, c)|
  {
    if images == [] {
      assert GroundTruths(images, c) == {};
    } else {
      var n := |images| - 1;
      var places := PlacesOf(GtClasses(images[n].gts), c);
      GroundTruthsCounted(images[..n], c, t);
      ImageGroundTruths(images[n], c, t);
      TaggedSize(n, places);
      OneMoreImage(images, c);
      DisjointSize(GroundTruths(images[..n], c), Tagged(n, places));
    }
  }

  lemma {:induction false} ImageGroundTruths(image: Image, c: int, t: real)
    requires Sorted(image)
    ensures CategoryStats(image.d, image.gts, image.order, c, t).numGt == |PlacesOf(GtClasses(image.gts), c)|
  {
    CountIsCardinality(GtClasses(image.gts), c);
    if c !in GtClasses(image.gts) {
      assert PlacesOf(GtClasses(image.gts), c) == {};
    }
  }

  /** Scores and marks of an image stand together in the batch lists, image after image. */
  lemma {:induction false} ImageShown(images: seq<Image>, c: int, t: real, b: nat)
    requires AllSorted(images) && b < |images|
    ensures var (all, part, at) := (BatchStats(images, c, t),
                                    CategoryStats(images[b].d, images[b].gts, images[b].order, c, t), Offset(images, c, b));
      && Shows(all.scores, at, part.scores) && Shows(all.truePositive, at, part.truePositive)
      && Shows(all.falsePositive, at, part.falsePositive)
  {
    var n := |images| - 1;
    var before := BatchStats(images[..n], c, t);
    var last := CategoryStats(images[n].d, images[n].gts, images[n].order, c, t);
    var part, at := CategoryStats(images[b].d, images[b].gts, images[b].order, c, t), Offset(images, c, b);
    OffsetOfPrefix(images, c, n, b);
    BatchLength(images[..n], c, t);
    BatchWellFormed(images[..n], c, t);
    if b < n { ImageShown(images[..n], c, t, b); }
    ShownAppended(before.scores, last.scores, at, part.scores);
    ShownAppended(before.truePositive, last.truePositive, at, part.truePositive);
    ShownAppended(before.falsePositive, last.falsePositive, at, part.falsePositive);
  }

  // ------------------------------------------------------------- The curve

  /** The places among the first `k` ranked predictions that are right. */
  ghost function RightAmong(s: Stats, order: seq<nat>, k: nat): set<nat>
    requires InRange(order, |s.truePositive|) && k <= |order|
  {
    set j: nat | j < k && s.truePositive[order[j]] == 1
  }

  lemma OneMoreRanked(s: Stats, order: seq<nat>, k: nat)
    requires InRange(order, |s.truePositive|) && 0 < k <= |order|
    ensures |RightAmong(s, order, k)| == |RightAmong(s, order, k - 1)| + if s.truePositive[order[k - 1]] == 1 then 1 else 0
  {
    var before, here := RightAmong(s, order, k - 1), if s.truePositive[order[k - 1]] == 1 then {k - 1} else {};
    assert RightAmong(s, order, k) == before + here;
    DisjointSize(before, here);
  }

  lemma {:induction false} CumulativeCounts(s: Stats, order: seq<nat>, k: nat)
    requires WellFormed(s) && InRange(order, |s.truePositive|) && k <= |order|
    ensures Cumulative(s.truePositive, order, k) == |RightAmong(s, order, k)| <= k
  {
    if k == 0 {
      assert RightAmong(s, order, k) == {};
    } else {
      CumulativeCounts(s, order, k - 1);
      OneMoreRanked(s, order, k);
      var at := order[k - 1];
      assert s.truePositive[at] + s.falsePositive[at] == 1;
    }
  }

  /** Precision is the share of the predictions so far that are right, recall the share of the
      ground truths that they claim. */
  lemma CurveCounts(s: Stats, order: seq<nat>, k: nat)
    requires WellFormed(s) && InRange(order, |s.truePositive|) && s.numGt > 0 && 0 < k <= |order|
    ensures PrecisionAt(s, order, k) * k as real == |RightAmong(s, order, k)| as real
    ensures RecallAt(s, order, k) * s.numGt as real == |RightAmong(s, order, k)| as real
  {
    CumulativeCounts(s, order, k);
    Divided(Cumulative(s.truePositive, order, k) as real, k as real);
    Divided(Cumulative(s.truePositive, order, k) as real, s.numGt as real);
  }

  lemma Divided(x: real, n: real)
    requires n > 0.0
    ensures (x / n) * n == x
  {
  }

  ghost function RightAbove(scores: seq<real>, marks: seq<nat>, bar: real): set<nat>
    requires |scores| == |marks|
  {
    set k: nat | k < |marks| && scores[k] >= bar && marks[k] == 1
  }

  lemma OneMoreMark(scores: seq<real>, marks: seq<nat>, bar: real)
    requires |scores| == |marks| > 0
    ensures var n := |scores| - 1;
      |RightAbove(scores, marks, bar)| == |RightAbove(scores[..n], marks[..n], bar)|
        + if scores[n] >= bar && marks[n] == 1 then 1 else 0
  {
    var n := |scores| - 1;
    var before, here := RightAbove(scores[..n], marks[..n], bar), if scores[n] >= bar && marks[n] == 1 then {n} else {};
    forall k: nat ensures k in RightAbove(scores, marks, bar) <==> k in before || k in here {
      assert k < n ==> scores[..n][k] == scores[k] && marks[..n][k] == marks[k];
    }
    assert RightAbove(scores, marks, bar) == before + here;
    DisjointSize(before, here);
  }

  /** True positives at or above a score, counted. */
  lemma {:induction false} SumAboveCounts(scores: seq<real>, marks: seq<nat>, bar: real)
    requires |scores| == |marks| && forall k :: 0 <= k < |marks| ==> marks[k] <= 1
    ensures SumAbove(scores, marks, bar) == |RightAbove(scores, marks, bar)|
  {
    if scores == [] {
      assert RightAbove(scores, marks, bar) == {};
    } else {
      SumAboveCounts(scores[..|scores| - 1], marks[..|marks| - 1], bar);
      OneMoreMark(scores, marks, bar);
    }
  }

  // ------------------------------------------------------------ The mean

  lemma {:induction false} TotalSums(values: seq<real>) returns (sums: seq<real>)
    ensures RunningSums(values, sums) && sums[|values|] == Total(values)
  {
    if values == [] {
      sums := [0.0];
    } else {
      var n := |values| - 1;
      var before := TotalSums(values[..n]);
      sums := before + [Total(values)];
      forall i | 0 <= i < |values| ensures sums[i + 1] == sums[i] + values[i] {
        if i < n { assert values[..n][i] == values[i]; }
      }
    }
  }

  /** The classes that have predictions, ascending. */
  ghost predicate Counting(stats: seq<Stats>, at: seq<nat>) {
    && Ascending(at)
    && forall c: nat :: c in at <==> c < |stats| && stats[c].scores != []
  }

  ghost predicate ApsAt(stats: seq<Stats>, orders: seq<seq<nat>>, interval: nat, at: seq<nat>, aps: seq<real>)
    requires Orders(stats, orders)
  {
    && |aps| == |at|
    && forall k :: 0 <= k < |at| ==> IsApOf(stats, orders, interval, at[k], aps[k])
  }

  ghost predicate IsApOf(stats: seq<Stats>, orders: seq<seq<nat>>, interval: nat, c: nat, ap: real)
    requires Orders(stats, orders)
  {
    c < |stats| && Evaluable(stats[c], orders[c]) && ap == ClassAp(stats[c], orders[c], interval)
  }

  lemma {:induction false} ClassApsAt(stats: seq<Stats>, orders: seq<seq<nat>>, interval: nat) returns (at: seq<nat>)
    requires Orders(stats, orders)
    ensures Counting(stats, at) && ApsAt(stats, orders, interval, at, ClassAps(stats, orders, interval))
  {
    if stats == [] {
      at := [];
    } else {
      var n := |stats| - 1;
      var before := ClassApsAt(stats[..n], orders[..n], interval);
      ApsStep(stats, orders, interval);
      at := before + if stats[n].scores == [] then [] else [n];
      CountingStep(stats, before);
      ApsAtStep(stats, orders, interval, before, ClassAps(stats[..n], orders[..n], interval));
    }
  }

  lemma CountingStep(stats: seq<Stats>, before: seq<nat>)
    requires stats != [] && Counting(stats[..|stats| - 1], before)
    ensures Counting(stats, before + if stats[|stats| - 1].scores == [] then [] else [|stats| - 1])
  {
    var n := |stats| - 1;
    forall k | 0 <= k < |before| ensures before[k] < n { assert before[k] in before; }
    assert forall c :: 0 <= c < n ==> stats[..n][c] == stats[c];
  }

  lemma ApsAtStep(stats: seq<Stats>, orders: seq<seq<nat>>, interval: nat, before: seq<nat>, aps: seq<real>)
    requires stats != [] && Orders(stats, orders) && Orders(stats[..|stats| - 1], orders[..|stats| - 1])
    requires ApsAt(stats[..|stats| - 1], orders[..|stats| - 1], interval, before, aps)
    ensures var n := |stats| - 1;
      && Evaluable(stats[n], orders[n])
      && ApsAt(stats, orders, interval, before, aps)
      && ApsAt(stats, orders, interval, before + [n], aps + [ClassAp(stats[n], orders[n], interval)])
  {
  }

  lemma {:induction false} MeanSums(values: seq<real>) returns (sums: seq<real>, mean: real)
    ensures mean == Mean(values) && (values == [] ==> mean == 0.0)
    ensures RunningSums(values, sums) && sums[|values|] == mean * |values| as real
  {
    sums := TotalSums(values);
    mean := Mean(values);
    MeanTimes(values);
  }

  /** The score is the mean of the class scores over the classes that have predictions, and 0
      when there is none. */
  lemma {:induction false} ScoreIsMean(stats: seq<Stats>, orders: seq<seq<nat>>, interval: nat)
    returns (at: seq<nat>, aps: seq<real>, sums: seq<real>, score: real)
    requires Orders(stats, orders)
    ensures score == Evaluate(stats, orders, interval) && (at == [] ==> score == 0.0)
    ensures Counting(stats, at) && ApsAt(stats, orders, interval, at, aps)
    ensures RunningSums(aps, sums) && sums[|aps|] == score * |aps| as real
  {
    at := ClassApsAt(stats, orders, interval);
    aps := ClassAps(stats, orders, interval);
    sums, score := MeanSums(aps);
  }

  lemma {:induction false} MeanTimes(values: seq<real>)
    ensures Mean(values) * |values| as real == Total(values)
  {
    if values != [] { Divided(Total(values), |values| as real); }
  }

  // ----------------------------------------------------------- Perfection

  lemma {:induction false} SumAtMost(values: seq<real>, sums: seq<real>, n: nat)
    requires RunningSums(values, sums) && n <= |values| && forall i :: 0 <= i < |values| ==> values[i] <= 1.0
    ensures sums[n] <= n as real
    ensures sums[n] == n as real <==> forall i :: 0 <= i < n ==> values[i] == 1.0
  {
    if n > 0 {
      SumAtMost(values, sums, n - 1);
      assert sums[n] == sums[n - 1] + values[n - 1];
    }
  }

  /** The first `n` ranked predictions are there and right. */
  ghost predicate FirstRight(s: Stats, order: seq<nat>, n: nat)
    requires InRange(order, |s.truePositive|)
  {
    n <= |order| && forall k :: 0 <= k < n ==> s.truePositive[order[k]] == 1
  }

  lemma {:induction false} AllRightSoFar(s: Stats, order: seq<nat>, k: nat)
    requires WellFormed(s) && InRange(order, |s.truePositive|) && k <= |order|
    ensures Cumulative(s.truePositive, order, k) <= k
    ensures Cumulative(s.truePositive, order, k) == k <==> FirstRight(s, order, k)
  {
    if k > 0 {
      AllRightSoFar(s, order, k - 1);
      var at := order[k - 1];
      assert s.truePositive[at] + s.falsePositive[at] == 1;
    }
  }

  lemma PrecisionAtMostOne(s: Stats, order: seq<nat>, k: nat)
    requires WellFormed(s) && InRange(order, |s.truePositive|) && 0 < k <= |order|
    ensures PrecisionAt(s, order, k) <= 1.0
    ensures PrecisionAt(s, order, k) == 1.0 <==> FirstRight(s, order, k)
  {
    AllRightSoFar(s, order, k);
    QuotientRange(Cumulative(s.truePositive, order, k) as real, k as real);
  }

  lemma FullRecall(s: Stats, order: seq<nat>, k: nat)
    requires WellFormed(s) && InRange(order, |s.truePositive|) && s.numGt > 0 && k <= |order|
    ensures RecallAt(s, order, k) >= 1.0 <==> Cumulative(s.truePositive, order, k) >= s.numGt
  {
    var r := RecallAt(s, order, k);
    Divided(Cumulative(s.truePositive, order, k) as real, s.numGt as real);
    ScaledOrder(r, 1.0, s.numGt as real);
  }

  lemma {:induction false} MoreRanked(s: Stats, order: seq<nat>, j: nat, k: nat)
    requires InRange(order, |s.truePositive|) && j <= k <= |order|
    ensures Cumulative(s.truePositive, order, j) <= Cumulative(s.truePositive, order, k)
  {
    if j < k { MoreRanked(s, order, j, k - 1); }
  }

  lemma LastStep(recall: real, interval: nat)
    requires interval >= 2
    ensures Reaches(recall, interval, interval - 1) <==> recall >= 1.0
    ensures recall >= 1.0 ==> forall i :: 0 <= i < interval ==> Reaches(recall, interval, i)
  {
    var n := interval as real - 1.0;
    ScaledOrder(recall, 1.0, n);
    assert recall >= 1.0 ==> recall * n >= n;
  }

  lemma {:induction false} PerfectSum(values: seq<real>, mean: real, total: real)
    requires values != [] && SumsTo(values, total) && total == mean * |values| as real
    requires forall i :: 0 <= i < |values| ==> values[i] <= 1.0
    ensures mean == 1.0 <==> forall i :: 0 <= i < |values| ==> values[i] == 1.0
  {
    var sums: seq<real> :| RunningSums(values, sums) && sums[|values|] == total;
    SumAtMost(values, sums, |values|);
    UnitFactor(mean, |values| as real);
  }

  lemma UnitFactor(x: real, n: real)
    requires n > 0.0
    ensures x * n == n <==> x == 1.0
  {
    if x * n == n { assert (x - 1.0) * n == 0.0; }
  }

  /** A sample is at most 1; the last one is 1 only if the first predictions are all right and claim
      every ground truth. */
  lemma BestAtMostOne(s: Stats, order: seq<nat>, interval: nat, i: nat, v: real)
    requires WellFormed(s) && InRange(order, |s.truePositive|) && s.numGt > 0 && interval >= 2 && i < interval
    requires IsBest(Precisions(s, order), Recalls(s, order), interval, i, v)
    requires |order| == |s.truePositive| && Cumulative(s.truePositive, order, |order|) <= s.numGt
    ensures v <= 1.0
    ensures i == interval - 1 && v == 1.0 ==> FirstRight(s, order, s.numGt)
  {
    if v > 0.0 {
      var k := BestEntry(Precisions(s, order), Recalls(s, order), interval, i, v);
      ListedAtMostOne(s, order, interval, i, k, v);
    }
  }

  lemma ListedAtMostOne(s: Stats, order: seq<nat>, interval: nat, i: nat, k: nat, v: real)
    requires WellFormed(s) && InRange(order, |s.truePositive|) && s.numGt > 0 && interval >= 2 && k < |order|
    requires Reaches(Recalls(s, order)[k], interval, i) && Precisions(s, order)[k] == v
    requires Cumulative(s.truePositive, order, |order|) <= s.numGt
    ensures v <= 1.0
    ensures i == interval - 1 && v == 1.0 ==> FirstRight(s, order, s.numGt)
  {
    EntryAtMostOne(s, order, interval, i, k + 1);
  }

  lemma BestEntry(precision: seq<real>, recall: seq<real>, interval: nat, i: nat, v: real) returns (k: nat)
    requires |recall| == |precision| && IsBest(precision, recall, interval, i, v) && v > 0.0
    ensures k < |recall| && Reaches(recall[k], interval, i) && precision[k] == v
  {
    k :| 0 <= k < |recall| && Reaches(recall[k], interval, i) && precision[k] == v;
  }

  lemma EntryAtMostOne(s: Stats, order: seq<nat>, interval: nat, i: nat, k: nat)
    requires WellFormed(s) && InRange(order, |s.truePositive|) && s.numGt > 0 && interval >= 2 && 0 < k <= |order|
    requires Reaches(RecallAt(s, order, k), interval, i) && Cumulative(s.truePositive, order, |order|) <= s.numGt
    ensures PrecisionAt(s, order, k) <= 1.0
    ensures i == interval - 1 && PrecisionAt(s, order, k) == 1.0 ==> FirstRight(s, order, s.numGt)
  {
    PrecisionAtMostOne(s, order, k);
    if i == interval - 1 && PrecisionAt(s, order, k) == 1.0 {
      LastStep(RecallAt(s, order, k), interval);
      AllClaimed(s, order, k);
    }
  }

  lemma AllClaimed(s: Stats, order: seq<nat>, k: nat)
    requires WellFormed(s) && InRange(order, |s.truePositive|) && s.numGt > 0 && 0 < k <= |order|
    requires RecallAt(s, order, k) >= 1.0 && FirstRight(s, order, k)
    requires Cumulative(s.truePositive, order, |order|) <= s.numGt
    ensures k == s.numGt
  {
    FullRecall(s, order, k);
    MoreRanked(s, order, k, |order|);
    AllRightSoFar(s, order, k);
  }

  lemma PerfectReaches(s: Stats, order: seq<nat>, interval: nat, i: nat)
    requires WellFormed(s) && InRange(order, |s.truePositive|) && s.numGt > 0 && interval >= 2 && i < interval
    requires FirstRight(s, order, s.numGt)
    ensures Precisions(s, order)[s.numGt - 1] == 1.0 && Reaches(Recalls(s, order)[s.numGt - 1], interval, i)
  {
    PrecisionAtMostOne(s, order, s.numGt);
    AllRightSoFar(s, order, s.numGt);
    FullRecall(s, order, s.numGt);
    LastStep(Recalls(s, order)[s.numGt - 1], interval);
  }

  /** A class with no more true positives than ground truths scores 1 exactly when its first
      predictions, as many as there are ground truths, are all right. */
  lemma PerfectExactly(s: Stats, order: seq<nat>, interval: nat)
    requires WellFormed(s) && IsArgsort(order, s.scores) && s.numGt > 0 && interval >= 2
    requires |RightAmong(s, order, |order|)| <= s.numGt
    ensures ClassAp(s, order, interval) == 1.0 <==>
      s.numGt <= |order| && forall k :: 0 <= k < s.numGt ==> s.truePositive[order[k]] == 1
  {
    CumulativeCounts(s, order, |order|);
    SampledMean(Precisions(s, order), Recalls(s, order), interval);
    PerfectCurve(s, order, interval, ClassAp(s, order, interval));
  }

  lemma PerfectCurve(s: Stats, order: seq<nat>, interval: nat, ap: real)
    requires WellFormed(s) && InRange(order, |s.truePositive|) && s.numGt > 0 && interval >= 2
    requires |order| == |s.truePositive| && Cumulative(s.truePositive, order, |order|) <= s.numGt
    requires Interpolates(Precisions(s, order), Recalls(s, order), interval, ap)
    ensures ap == 1.0 <==> FirstRight(s, order, s.numGt)
  {
    var best, total := SamplesOf(Precisions(s, order), Recalls(s, order), interval, ap);
    PerfectGiven(s, order, interval, ap, best, total);
  }

  lemma SamplesOf(precision: seq<real>, recall: seq<real>, interval: nat, mean: real) returns (best: seq<real>, total: real)
    requires |recall| == |precision| && Interpolates(precision, recall, interval, mean)
    ensures Samples(precision, recall, interval, best) && SumsTo(best, total) && total == mean * |best| as real
  {
    best, total :| Samples(precision, recall, interval, best) && SumsTo(best, total) && total == mean * interval as real;
  }

  lemma PerfectGiven(s: Stats, order: seq<nat>, interval: nat, ap: real, best: seq<real>, total: real)
    requires WellFormed(s) && InRange(order, |s.truePositive|) && s.numGt > 0 && interval >= 2
    requires |order| == |s.truePositive| && Cumulative(s.truePositive, order, |order|) <= s.numGt
    requires Samples(Precisions(s, order), Recalls(s, order), interval, best)
    requires SumsTo(best, total) && total == ap * |best| as real
    ensures ap == 1.0 <==> FirstRight(s, order, s.numGt)
  {
    PerfectSamples(s, order, interval, best);
    PerfectFrom(best, ap, total, FirstRight(s, order, s.numGt));
  }

  lemma PerfectSamples(s: Stats, order: seq<nat>, interval: nat, best: seq<real>)
    requires WellFormed(s) && InRange(order, |s.truePositive|) && s.numGt > 0 && interval >= 2
    requires |order| == |s.truePositive| && Cumulative(s.truePositive, order, |order|) <= s.numGt
    requires Samples(Precisions(s, order), Recalls(s, order), interval, best)
    ensures forall i :: 0 <= i < |best| ==> best[i] <= 1.0
    ensures FirstRight(s, order, s.numGt) ==> forall i :: 0 <= i < |best| ==> best[i] == 1.0
    ensures best[interval - 1] == 1.0 ==> FirstRight(s, order, s.numGt)
  {
    forall i: nat | i < |best|
      ensures best[i] <= 1.0 && (FirstRight(s, order, s.numGt) ==> best[i] >= 1.0)
    {
      BestAtMostOne(s, order, interval, i, best[i]);
      if FirstRight(s, order, s.numGt) { PerfectReaches(s, order, interval, i); }
    }
    BestAtMostOne(s, order, interval, interval - 1, best[interval - 1]);
  }

  lemma PerfectFrom(best: seq<real>, ap: real, total: real, perfect: bool)
    requires best != [] && SumsTo(best, total) && total == ap * |best| as real
    requires forall i :: 0 <= i < |best| ==> best[i] <= 1.0
    requires perfect ==> forall i :: 0 <= i < |best| ==> best[i] == 1.0
    requires best[|best| - 1] == 1.0 ==> perfect
    ensures ap == 1.0 <==> perfect
  {
    PerfectSum(best, ap, total);
  }
}
