/** What raising the overlap threshold does to the score, whatever the sorts do with equal scores. */
module TieOrders {
  import opened Lists
  import opened Sorting
  import opened Matching
  import opened MatchingLaws
  import opened BatchMetrics
  import opened MetricLaws
  import opened Reals

  // --------------------------------------------- Blocks of the batch list

  /** How many entries an image adds to the batch list of a class. */
  ghost function BlockSize(image: Image, c: int): nat
    requires Sorted(image)
  {
    if c in GtClasses(image.gts) then |OfClass(image.d, image.order, c)| else 0
  }

  /** Where the block of image `b` starts. */
  ghost function Offset(images: seq<Image>, c: int, b: nat): nat
    requires AllSorted(images) && b <= |images|
  {
    if b == 0 then 0 else Offset(images, c, b - 1) + BlockSize(images[b - 1], c)
  }

  ghost predicate InBlock(images: seq<Image>, c: int, b: nat, x: nat)
    requires AllSorted(images) && b < |images|
  {
    Offset(images, c, b) <= x < Offset(images, c, b) + BlockSize(images[b], c)
  }

  /** The batch order lists the predictions of every image in the order its matching used. */
  ghost predicate Aligned(images: seq<Image>, c: int, order: seq<nat>)
    requires AllSorted(images)
  {
    forall b: nat, p, q ::
      (b < |images| && 0 <= p < q < |order| && InBlock(images, c, b, order[p]) && InBlock(images, c, b, order[q])) ==>
      order[p] < order[q]
  }

  /** With an entry, everything before it in its block. */
  ghost predicate Closed(images: seq<Image>, c: int, at: set<nat>)
    requires AllSorted(images)
  {
    forall b: nat, x: nat, y: nat :: b < |images| && InBlock(images, c, b, x) && InBlock(images, c, b, y) && x < y && y in at
      ==> x in at
  }

  lemma {:induction false} OffsetOfPrefix(images: seq<Image>, c: int, n: nat, b: nat)
    requires AllSorted(images) && b <= n <= |images|
    ensures Offset(images[..n], c, b) == Offset(images, c, b)
  {
    if b > 0 { OffsetOfPrefix(images, c, n, b - 1); }
  }

  lemma {:induction false} BatchLength(images: seq<Image>, c: int, threshold: real)
    requires AllSorted(images)
    ensures |BatchStats(images, c, threshold).scores| == |BatchStats(images, c, threshold).truePositive|
         == Offset(images, c, |images|)
  {
    if images != [] {
      var n := |images| - 1;
      BatchLength(images[..n], c, threshold);
      OffsetOfPrefix(images, c, n, n);
    }
  }

  lemma {:induction false} ThresholdKeepsScores(images: seq<Image>, c: int, lo: real, hi: real)
    requires AllSorted(images)
    ensures BatchStats(images, c, lo).scores == BatchStats(images, c, hi).scores
    ensures BatchStats(images, c, lo).numGt == BatchStats(images, c, hi).numGt
  {
    if images != [] { ThresholdKeepsScores(images[..|images| - 1], c, lo, hi); }
  }

  // ----------------------------------------------------- Marks of a prefix

  ghost predicate Has(at: set<nat>, start: nat, j: nat) { start + j in at }

  /** The part of `at` from `start` on, `n` entries counted from there. */
  ghost function Shifted(at: set<nat>, start: nat, n: nat): set<nat> {
    set j: nat | j < n && Has(at, start, j)
  }

  lemma {:induction false} SumOverSplit(a: seq<nat>, b: seq<nat>, at: set<nat>)
    ensures SumOver(a + b, at) == SumOver(a, at) + SumOver(b, Shifted(at, |a|, |b|))
  {
    if b == [] {
      assert a + b == a;
    } else {
      var n := |b| - 1;
      SumOverSplit(a, b[..n], at);
      assert (a + b)[..|a| + n] == a + b[..n];
      SumOverAgree(b[..n], Shifted(at, |a|, n), Shifted(at, |a|, |b|));
      assert Has(at, |a|, n) <==> |a| + n in at;
    }
  }

  /** A downward closed set below `n` is a prefix. */
  lemma {:induction false} PrefixOf(at: set<nat>, n: nat) returns (m: nat)
    requires forall x: nat, y: nat :: x < y < n && y in at ==> x in at
    ensures m <= n && forall i: nat :: i < n ==> (i in at <==> i < m)
  {
    if n == 0 || n - 1 in at {
      m := n;
    } else {
      m := PrefixOf(at, n - 1);
    }
  }

  lemma {:induction false} SumOverPrefix(marks: seq<nat>, at: set<nat>, m: nat)
    requires m <= |marks| && forall i: nat :: i < |marks| ==> (i in at <==> i < m)
    ensures SumOver(marks, at) == Sum(marks[..m])
  {
    if marks != [] {
      var n := |marks| - 1;
      if m == |marks| {
        SumOverPrefix(marks[..n], at, n);
        assert marks[..m][..n] == marks[..n] == marks[..n][..n];
      } else {
        SumOverPrefix(marks[..n], at, m);
        assert marks[..n][..m] == marks[..m];
      }
    }
  }

  lemma PrefixHits(overlaps: seq<Overlap>, threshold: real, m: nat)
    requires m <= |overlaps|
    ensures Sum(TruePositives(overlaps, threshold)[..m]) == |Hits(overlaps[..m], threshold)|
  {
    var shorter := overlaps[..m];
    forall k | 0 <= k < m ensures TruePositives(shorter, threshold)[k] == TruePositives(overlaps, threshold)[k] {
      assert shorter[..k] == overlaps[..k];
    }
    assert TruePositives(overlaps, threshold)[..m] == TruePositives(shorter, threshold);
    TruePositivesCountHits(shorter, threshold);
  }

  /** In matching order, a higher threshold leaves no more true positives in any prefix. */
  lemma PrefixAntitone(overlaps: seq<Overlap>, lo: real, hi: real, m: nat)
    requires lo <= hi && m <= |overlaps|
    ensures Sum(TruePositives(overlaps, hi)[..m]) <= Sum(TruePositives(overlaps, lo)[..m])
  {
    PrefixHits(overlaps, lo, m);
    PrefixHits(overlaps, hi, m);
    CardinalityMonotone(Hits(overlaps[..m], hi), Hits(overlaps[..m], lo));
  }

  lemma BlockAntitone(image: Image, c: int, lo: real, hi: real, at: set<nat>)
    requires Sorted(image) && lo <= hi
    requires forall x: nat, y: nat :: x < y < BlockSize(image, c) && y in at ==> x in at
    ensures SumOver(CategoryStats(image.d, image.gts, image.order, c, hi).truePositive, at)
         <= SumOver(CategoryStats(image.d, image.gts, image.order, c, lo).truePositive, at)
  {
    if c in GtClasses(image.gts) {
      var overlaps := Overlaps(image.d, image.gts, c, OfClass(image.d, image.order, c));
      var m := PrefixOf(at, |overlaps|);
      SumOverPrefix(TruePositives(overlaps, lo), at, m);
      SumOverPrefix(TruePositives(overlaps, hi), at, m);
      PrefixAntitone(overlaps, lo, hi, m);
    }
  }

  lemma ClosedSplits(images: seq<Image>, c: int, at: set<nat>)
    requires AllSorted(images) && images != [] && Closed(images, c, at)
    ensures Closed(images[..|images| - 1], c, at)
    ensures var n := |images| - 1;
      var part := Shifted(at, Offset(images, c, n), BlockSize(images[n], c));
      forall x: nat, y: nat :: x < y < BlockSize(images[n], c) && y in part ==> x in part
  {
    var n := |images| - 1;
    var start := Offset(images, c, n);
    forall b: nat, x: nat, y: nat | b < n && InBlock(images[..n], c, b, x) && InBlock(images[..n], c, b, y) && x < y && y in at
      ensures x in at
    {
      OffsetOfPrefix(images, c, n, b);
      assert InBlock(images, c, b, x) && InBlock(images, c, b, y);
    }
    forall x: nat, y: nat | x < y < BlockSize(images[n], c) && Has(at, start, y) ensures Has(at, start, x) {
      assert InBlock(images, c, n, start + x) && InBlock(images, c, n, start + y);
    }
  }

  lemma {:induction false} ClosedAntitone(images: seq<Image>, c: int, lo: real, hi: real, at: set<nat>)
    requires AllSorted(images) && lo <= hi && Closed(images, c, at)
    ensures SumOver(BatchStats(images, c, hi).truePositive, at) <= SumOver(BatchStats(images, c, lo).truePositive, at)
  {
    if images != [] {
      var n := |images| - 1;
      var last := images[n];
      ClosedSplits(images, c, at);
      ClosedAntitone(images[..n], c, lo, hi, at);
      BatchLength(images[..n], c, lo);
      BatchLength(images[..n], c, hi);
      OffsetOfPrefix(images, c, n, n);
      BlockAntitone(last, c, lo, hi, Shifted(at, Offset(images, c, n), BlockSize(last, c)));
      SumOverSplit(BatchStats(images[..n], c, lo).truePositive, CategoryStats(last.d, last.gts, last.order, c, lo).truePositive, at);
      SumOverSplit(BatchStats(images[..n], c, hi).truePositive, CategoryStats(last.d, last.gts, last.order, c, hi).truePositive, at);
    }
  }

  lemma PrefixIsClosed(images: seq<Image>, c: int, order: seq<nat>, k: nat)
    requires AllSorted(images) && Aligned(images, c, order) && k <= |order|
    requires IsPermutation(order, Offset(images, c, |images|))
    ensures Closed(images, c, Members(order[..k]))
  {
    var at := Members(order[..k]);
    forall b: nat, x: nat, y: nat | b < |images| && InBlock(images, c, b, x) && InBlock(images, c, b, y) && x < y && y in at
      ensures x in at
    {
      BlockEnds(images, c, b);
      var q :| 0 <= q < k && order[q] == y;
      assert x in order;
      var p :| 0 <= p < |order| && order[p] == x;
      EarlierInBlock(images, c, order, b, p, q);
      assert order[..k][p] == x;
    }
  }

  lemma EarlierInBlock(images: seq<Image>, c: int, order: seq<nat>, b: nat, p: nat, q: nat)
    requires AllSorted(images) && Aligned(images, c, order) && b < |images| && p < |order| && q < |order|
    requires InBlock(images, c, b, order[p]) && InBlock(images, c, b, order[q]) && order[p] < order[q]
    ensures p < q
  {
  }

  lemma {:induction false} BlockEnds(images: seq<Image>, c: int, b: nat)
    requires AllSorted(images) && b < |images|
    ensures Offset(images, c, b) + BlockSize(images[b], c) <= Offset(images, c, |images|)
  {
    OffsetsGrow(images, c, b + 1, |images|);
  }

  lemma {:induction false} OffsetsGrow(images: seq<Image>, c: int, a: nat, b: nat)
    requires AllSorted(images) && a <= b <= |images|
    ensures Offset(images, c, a) <= Offset(images, c, b)
  {
    if a < b { OffsetsGrow(images, c, a, b - 1); }
  }

  // ------------------------------------------------------- Aligned orders

  /** Raising the threshold from `lo` to `hi` does not raise the average precision of the class. */
  ghost predicate ApFalls(images: seq<Image>, c: int, order: seq<nat>, interval: nat, lo: real, hi: real)
    requires AllSorted(images)
  {
    && Evaluable(BatchStats(images, c, lo), order) && Evaluable(BatchStats(images, c, hi), order)
    && ClassAp(BatchStats(images, c, hi), order, interval) <= ClassAp(BatchStats(images, c, lo), order, interval)
  }

  lemma EvaluableAtAny(images: seq<Image>, c: int, order: seq<nat>, lo: real, hi: real)
    requires AllSorted(images) && Evaluable(BatchStats(images, c, lo), order)
    ensures Evaluable(BatchStats(images, c, hi), order)
  {
    ThresholdKeepsScores(images, c, lo, hi);
    BatchWellFormed(images, c, hi);
  }

  /** When the batch order keeps every matching order, any number of ties does no harm. */
  lemma AlignedApFalls(images: seq<Image>, c: int, order: seq<nat>, interval: nat, lo: real, hi: real)
    requires AllSorted(images) && lo <= hi && Evaluable(BatchStats(images, c, lo), order)
    requires Aligned(images, c, order)
    ensures ApFalls(images, c, order, interval, lo, hi)
  {
    var s, t := BatchStats(images, c, hi), BatchStats(images, c, lo);
    EvaluableAtAny(images, c, order, lo, hi);
    ThresholdKeepsScores(images, c, lo, hi);
    BatchLength(images, c, lo);
    if s.numGt > 0 {
      forall k | 0 < k <= |order|
        ensures Cumulative(s.truePositive, order, k) <= Cumulative(t.truePositive, order, k)
      {
        PrefixIsClosed(images, c, order, k);
        ClosedAntitone(images, c, lo, hi, Members(order[..k]));
        CumulativeIsSumOver(s.truePositive, order, k);
        CumulativeIsSumOver(t.truePositive, order, k);
      }
      CurveMonotone(s, t, order);
      InterpolationMonotone(Precisions(s, order), Recalls(s, order), Precisions(t, order), Recalls(t, order), interval, interval);
    }
  }

  // ------------------------------------------------- From classes to the score

  /** Class by class, `t` does at least as well as `s`, over the same classes. */
  ghost predicate NoBetter(s: seq<Stats>, t: seq<Stats>, orders: seq<seq<nat>>, orders': seq<seq<nat>>, interval: nat) {
    && Orders(s, orders) && Orders(t, orders') && |s| == |t|
    && forall c :: 0 <= c < |s| ==> NoBetterClass(s[c], t[c], orders[c], orders'[c], interval)
  }

  ghost predicate NoBetterClass(s: Stats, t: Stats, order: seq<nat>, order': seq<nat>, interval: nat) {
    && (|s.scores| == 0 <==> |t.scores| == 0) && Evaluable(s, order) && Evaluable(t, order')
    && ClassAp(s, order, interval) <= ClassAp(t, order', interval)
  }

  ghost predicate WorseClass(s: Stats, t: Stats, order: seq<nat>, order': seq<nat>, interval: nat) {
    && |s.scores| > 0 && Evaluable(s, order) && Evaluable(t, order')
    && ClassAp(s, order, interval) < ClassAp(t, order', interval)
  }

  lemma PrefixNoBetter(s: seq<Stats>, t: seq<Stats>, orders: seq<seq<nat>>, orders': seq<seq<nat>>, interval: nat)
    requires NoBetter(s, t, orders, orders', interval) && s != []
    ensures var n := |s| - 1; NoBetter(s[..n], t[..n], orders[..n], orders'[..n], interval)
  {
    var n := |s| - 1;
    forall c | 0 <= c < n ensures NoBetterClass(s[..n][c], t[..n][c], orders[..n][c], orders'[..n][c], interval) {
      assert NoBetterClass(s[c], t[c], orders[c], orders'[c], interval);
    }
  }

  lemma ApsStep(s: seq<Stats>, orders: seq<seq<nat>>, interval: nat)
    requires Orders(s, orders) && s != []
    ensures var n := |s| - 1;
      && Evaluable(s[n], orders[n])
      && ClassAps(s, orders, interval) == ClassAps(s[..n], orders[..n], interval)
           + (if |s[n].scores| == 0 then [] else [ClassAp(s[n], orders[n], interval)])
  {
    assert Evaluable(s[|s| - 1], orders[|s| - 1]);
  }

  lemma {:induction false} ApsCompare(s: seq<Stats>, t: seq<Stats>, orders: seq<seq<nat>>, orders': seq<seq<nat>>, interval: nat)
    requires NoBetter(s, t, orders, orders', interval)
    ensures var x, y := ClassAps(s, orders, interval), ClassAps(t, orders', interval);
      |x| == |y| && forall k :: 0 <= k < |x| ==> x[k] <= y[k]
  {
    if s != [] {
      var n := |s| - 1;
      assert NoBetterClass(s[n], t[n], orders[n], orders'[n], interval);
      PrefixNoBetter(s, t, orders, orders', interval);
      ApsCompare(s[..n], t[..n], orders[..n], orders'[..n], interval);
      ApsStep(s, orders, interval);
      ApsStep(t, orders', interval);
    }
  }

  /** `t` does at least as well in every class, and better in class `c`. */
  ghost predicate WorseAt(s: seq<Stats>, t: seq<Stats>, orders: seq<seq<nat>>, orders': seq<seq<nat>>, interval: nat, c: nat) {
    NoBetter(s, t, orders, orders', interval) && c < |s| && WorseClass(s[c], t[c], orders[c], orders'[c], interval)
  }

  lemma PrefixWorse(s: seq<Stats>, t: seq<Stats>, orders: seq<seq<nat>>, orders': seq<seq<nat>>, interval: nat, c: nat)
    requires WorseAt(s, t, orders, orders', interval, c) && c < |s| - 1
    ensures var n := |s| - 1;
            && NoBetter(s[..n], t[..n], orders[..n], orders'[..n], interval)
            && WorseAt(s[..n], t[..n], orders[..n], orders'[..n], interval, c)
  {
    PrefixNoBetter(s, t, orders, orders', interval);
  }

  ghost predicate StrictAt(s: seq<Stats>, t: seq<Stats>, orders: seq<seq<nat>>, orders': seq<seq<nat>>, interval: nat, i: nat)
    requires Orders(s, orders) && Orders(t, orders')
  {
    var x, y := ClassAps(s, orders, interval), ClassAps(t, orders', interval);
    i < |x| && i < |y| && x[i] < y[i]
  }

  lemma {:induction false} StrictStays(s: seq<Stats>, t: seq<Stats>, orders: seq<seq<nat>>, orders': seq<seq<nat>>, interval: nat, i: nat)
    requires NoBetter(s, t, orders, orders', interval) && s != []
    requires var n := |s| - 1;
             && NoBetter(s[..n], t[..n], orders[..n], orders'[..n], interval)
             && StrictAt(s[..n], t[..n], orders[..n], orders'[..n], interval, i)
    ensures StrictAt(s, t, orders, orders', interval, i)
  {
    ApsStep(s, orders, interval);
    ApsStep(t, orders', interval);
  }

  lemma {:induction false} StrictAtLast(s: seq<Stats>, t: seq<Stats>, orders: seq<seq<nat>>, orders': seq<seq<nat>>, interval: nat)
    returns (i: nat)
    requires s != [] && WorseAt(s, t, orders, orders', interval, |s| - 1)
    ensures StrictAt(s, t, orders, orders', interval, i)
  {
    var n := |s| - 1;
    PrefixNoBetter(s, t, orders, orders', interval);
    ApsCompare(s[..n], t[..n], orders[..n], orders'[..n], interval);
    ApsStep(s, orders, interval);
    ApsStep(t, orders', interval);
    i := |ClassAps(s[..n], orders[..n], interval)|;
  }

  /** Where a class stands among those that count. */
  lemma {:induction false} ApsStrict(s: seq<Stats>, t: seq<Stats>, orders: seq<seq<nat>>, orders': seq<seq<nat>>,
                                      interval: nat, c: nat) returns (i: nat)
    requires WorseAt(s, t, orders, orders', interval, c)
    ensures StrictAt(s, t, orders, orders', interval, i)
    decreases |s|
  {
    if c == |s| - 1 {
      i := StrictAtLast(s, t, orders, orders', interval);
    } else {
      var n := |s| - 1;
      PrefixWorse(s, t, orders, orders', interval, c);
      i := ApsStrict(s[..n], t[..n], orders[..n], orders'[..n], interval, c);
      StrictStays(s, t, orders, orders', interval, i);
    }
  }

  lemma {:induction false} TotalStrict(a: seq<real>, b: seq<real>, i: nat)
    requires |a| == |b| && (forall k :: 0 <= k < |a| ==> a[k] <= b[k]) && i < |a| && a[i] < b[i]
    ensures Total(a) < Total(b)
  {
    var n := |a| - 1;
    if i < n {
      TotalStrict(a[..n], b[..n], i);
    } else {
      TotalMonotone(a[..n], b[..n]);
    }
  }

  /** No better in any class is no better on the whole. */
  lemma EvaluateCompares(s: seq<Stats>, t: seq<Stats>, orders: seq<seq<nat>>, orders': seq<seq<nat>>, interval: nat)
    requires NoBetter(s, t, orders, orders', interval)
    ensures Evaluate(s, orders, interval) <= Evaluate(t, orders', interval)
  {
    ApsCompare(s, t, orders, orders', interval);
    var x, y := ClassAps(s, orders, interval), ClassAps(t, orders', interval);
    TotalMonotone(x, y);
    if |x| > 0 { QuotientMonotone(Total(x), Total(y), |x| as real); }
  }

  /** ... and worse in one of them is worse. */
  lemma EvaluateStrict(s: seq<Stats>, t: seq<Stats>, orders: seq<seq<nat>>, orders': seq<seq<nat>>, interval: nat, c: nat)
    requires NoBetter(s, t, orders, orders', interval)
    requires c < |s| && WorseClass(s[c], t[c], orders[c], orders'[c], interval)
    ensures Evaluate(s, orders, interval) < Evaluate(t, orders', interval)
  {
    ApsCompare(s, t, orders, orders', interval);
    var i := ApsStrict(s, t, orders, orders', interval, c);
    var x, y := ClassAps(s, orders, interval), ClassAps(t, orders', interval);
    TotalStrict(x, y, i);
    QuotientMonotone(Total(x), Total(y), |x| as real);
  }

  ghost predicate ScoreFalls(images: seq<Image>, n: nat, orders: seq<seq<nat>>, interval: nat, lo: real, hi: real)
    requires AllSorted(images)
  {
    && Orders(AllClasses(images, n, lo), orders) && Orders(AllClasses(images, n, hi), orders)
    && Evaluate(AllClasses(images, n, hi), orders, interval) <= Evaluate(AllClasses(images, n, lo), orders, interval)
  }

  lemma OrdersAtAny(images: seq<Image>, n: nat, orders: seq<seq<nat>>, lo: real, hi: real)
    requires AllSorted(images) && Orders(AllClasses(images, n, lo), orders)
    ensures Orders(AllClasses(images, n, hi), orders)
  {
    forall c | 0 <= c < n ensures Evaluable(AllClasses(images, n, hi)[c], orders[c]) {
      assert Evaluable(AllClasses(images, n, lo)[c], orders[c]);
      EvaluableAtAny(images, c, orders[c], lo, hi);
    }
  }

  /** With aligned orders in every class, raising the threshold never raises the score. */
  lemma AlignedScoreFalls(images: seq<Image>, n: nat, orders: seq<seq<nat>>, interval: nat, lo: real, hi: real)
    requires AllSorted(images) && lo <= hi && Orders(AllClasses(images, n, lo), orders)
    requires forall c :: 0 <= c < n ==> Aligned(images, c, orders[c])
    ensures ScoreFalls(images, n, orders, interval, lo, hi)
  {
    OrdersAtAny(images, n, orders, lo, hi);
    var s, t := AllClasses(images, n, hi), AllClasses(images, n, lo);
    forall c | 0 <= c < n
      ensures NoBetterClass(s[c], t[c], orders[c], orders[c], interval)
    {
      assert Evaluable(t[c], orders[c]);
      ThresholdKeepsScores(images, c, lo, hi);
      AlignedApFalls(images, c, orders[c], interval, lo, hi);
    }
    EvaluateCompares(s, t, orders, orders, interval);
  }

  // ------------------------------------------------------ Distinct scores

  /** With distinct scores there is only one order to keep. */
  lemma {:induction false} DistinctStatsAgree(a: seq<Image>, b: seq<Image>, c: int, threshold: real)
    requires SameScenes(a, b) && Distinct(BatchStats(b, c, threshold).scores)
    ensures BatchStats(a, c, threshold) == BatchStats(b, c, threshold)
  {
    if a != [] {
      var n := |a| - 1;
      var before, all := BatchStats(b[..n], c, threshold).scores, BatchStats(b, c, threshold).scores;
      var last := CategoryStats(b[n].d, b[n].gts, b[n].order, c, threshold).scores;
      assert all == before + last;
      assert forall j :: 0 <= j < |before| ==> before[j] == all[j];
      assert Distinct(before);
      assert forall j :: 0 <= j < |last| ==> last[j] == all[|before| + j];
      DistinctStatsAgree(a[..n], b[..n], c, threshold);
      if c in GtClasses(b[n].gts) {
        ImageListsAgree(a[n], b[n], c);
      }
    }
  }

  lemma ImageScoresDescend(image: Image, c: int, threshold: real)
    requires Sorted(image)
    ensures Descends(CategoryStats(image.d, image.gts, image.order, c, threshold).scores, 0, BlockSize(image, c))
  {
    SortedDescends(image);
    OfClassSorted(image.d, image.order, c);
  }

  /** Appending an image: its scores follow those of the images before it. */
  lemma BatchAt(images: seq<Image>, c: int, threshold: real)
    requires AllSorted(images) && images != []
    ensures var (n, last) := (|images| - 1, images[|images| - 1]);
      && BatchStats(images, c, threshold).scores ==
           BatchStats(images[..n], c, threshold).scores + CategoryStats(last.d, last.gts, last.order, c, threshold).scores
      && |BatchStats(images[..n], c, threshold).scores| == Offset(images, c, n)
  {
    var n := |images| - 1;
    BatchLength(images[..n], c, threshold);
    OffsetOfPrefix(images, c, n, n);
  }

  /** Each block of the list descends. */
  ghost predicate Descends(scores: seq<real>, start: nat, size: nat) {
    start + size <= |scores| && forall x, y :: start <= x < y < start + size ==> scores[x] >= scores[y]
  }

  lemma DescendsAppended(before: seq<real>, last: seq<real>, start: nat, size: nat)
    requires Descends(before, start, size) || (start == |before| && Descends(last, 0, size))
    ensures Descends(before + last, start, size)
  {
    var all := before + last;
    forall x, y | start <= x < y < start + size ensures all[x] >= all[y] {
      if start == |before| { assert all[x] == last[x - start] && all[y] == last[y - start]; }
    }
  }

  lemma {:induction false} BlocksDescend(images: seq<Image>, c: int, threshold: real, b: nat)
    requires AllSorted(images) && b < |images|
    ensures Descends(BatchStats(images, c, threshold).scores, Offset(images, c, b), BlockSize(images[b], c))
  {
    var n := |images| - 1;
    var before := BatchStats(images[..n], c, threshold).scores;
    var last := CategoryStats(images[n].d, images[n].gts, images[n].order, c, threshold).scores;
    BatchAt(images, c, threshold);
    OffsetOfPrefix(images, c, n, b);
    if b < n {
      BlocksDescend(images[..n], c, threshold, b);
    } else {
      ImageScoresDescend(images[n], c, threshold);
    }
    DescendsAppended(before, last, Offset(images, c, b), BlockSize(images[b], c));
  }

  lemma StrictlyFalls(scores: seq<real>, order: seq<nat>, p: nat, q: nat)
    requires IsArgsort(order, scores) && Distinct(scores) && p < q < |order|
    ensures scores[order[p]] > scores[order[q]] && order[p] != order[q]
  {
    assert order[p] < order[q] ==> scores[order[p]] != scores[order[q]];
    assert order[q] < order[p] ==> scores[order[q]] != scores[order[p]];
  }

  lemma DistinctIsAligned(images: seq<Image>, c: int, threshold: real, order: seq<nat>)
    requires AllSorted(images) && Distinct(BatchStats(images, c, threshold).scores)
    requires IsArgsort(order, BatchStats(images, c, threshold).scores)
    ensures Aligned(images, c, order)
  {
    var scores := BatchStats(images, c, threshold).scores;
    forall b: nat, p, q | b < |images| && 0 <= p < q < |order|
      && InBlock(images, c, b, order[p]) && InBlock(images, c, b, order[q])
      ensures order[p] < order[q]
    {
      StrictlyFalls(scores, order, p, q);
      BlocksDescend(images, c, threshold, b);
    }
  }

  /** One class with distinct scores, each side with sorts of its own. */
  lemma ClassApAntitone(a: seq<Image>, b: seq<Image>, c: int, lo: real, hi: real, interval: nat,
                        order: seq<nat>, order': seq<nat>)
    requires SameScenes(a, b) && lo <= hi && Distinct(BatchStats(b, c, lo).scores)
    requires Evaluable(BatchStats(a, c, hi), order) && Evaluable(BatchStats(b, c, lo), order')
    ensures |BatchStats(a, c, hi).scores| == |BatchStats(b, c, lo).scores|
    ensures ClassAp(BatchStats(a, c, hi), order, interval) <= ClassAp(BatchStats(b, c, lo), order', interval)
  {
    ThresholdKeepsScores(b, c, lo, hi);
    DistinctStatsAgree(a, b, c, hi);
    var s := BatchStats(b, c, lo);
    if s.numGt > 0 {
      ArgsortUnique(s.scores, order, order');
      DistinctIsAligned(b, c, lo, order');
      AlignedApFalls(b, c, order', interval, lo, hi);
    }
  }

  /** Raising the overlap threshold never raises the final score, over matching, accumulation,
      both sorts and interpolation, when no class has two equal scores in the batch; the two
      sides need not even share their sorts. */
  lemma ScoreAntitoneInThreshold(a: seq<Image>, b: seq<Image>, n: nat, lo: real, hi: real, interval: nat,
                                 orders: seq<seq<nat>>, orders': seq<seq<nat>>)
    requires SameScenes(a, b) && lo <= hi
    requires forall c :: 0 <= c < n ==> Distinct(BatchStats(b, c, lo).scores)
    requires Orders(AllClasses(a, n, hi), orders) && Orders(AllClasses(b, n, lo), orders')
    ensures Evaluate(AllClasses(a, n, hi), orders, interval) <= Evaluate(AllClasses(b, n, lo), orders', interval)
  {
    var s, t := AllClasses(a, n, hi), AllClasses(b, n, lo);
    forall c | 0 <= c < n
      ensures NoBetterClass(s[c], t[c], orders[c], orders'[c], interval)
    {
      assert Evaluable(s[c], orders[c]) && Evaluable(t[c], orders'[c]);
      ClassApAntitone(a, b, c, lo, hi, interval, orders[c], orders'[c]);
    }
    EvaluateCompares(s, t, orders, orders', interval);
  }
}
