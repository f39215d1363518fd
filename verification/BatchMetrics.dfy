/** Accumulating image statistics over a batch and turning them into an average precision. */
module BatchMetrics {
  import opened Lists
  import opened Reals
  import opened Sorting
  import opened Suppression
  import opened Predictions
  import opened Matching

  /** The fields the evaluation reads line up, and every prediction is marked once. */
  ghost predicate WellFormed(s: Stats) {
    && |s.scores| == |s.truePositive| == |s.falsePositive|
    && forall k :: 0 <= k < |s.scores| ==> s.truePositive[k] + s.falsePositive[k] == 1
  }

  // ------------------------------------------------------------ Accumulation

  function Accumulate(batch: Stats, image: Stats): Stats {
    Stats(batch.numGt + image.numGt, batch.scores + image.scores,
          batch.truePositive + image.truePositive, batch.falsePositive + image.falsePositive)
  }

  /** Adds one image to the running statistics of every class. */
  method MetricsUpdate(batched: array<Stats>, image: seq<Stats>)
    requires batched.Length == |image|
    requires forall c :: 0 <= c < |image| ==> WellFormed(image[c])
    modifies batched
    ensures forall c :: 0 <= c < |image| ==> batched[c] == Accumulate(old(batched[c]), image[c])
  {
    for cat := 0 to batched.Length
      invariant forall c :: 0 <= c < cat ==> batched[c] == Accumulate(old(batched[c]), image[c])
      invariant forall c :: cat <= c < batched.Length ==> batched[c] == old(batched[c])
    {
      batched[cat] := batched[cat].(numGt := batched[cat].numGt + image[cat].numGt);
      if |image[cat].scores| != 0 {
        batched[cat] := batched[cat].(scores := batched[cat].scores + image[cat].scores);
        batched[cat] := batched[cat].(truePositive := batched[cat].truePositive + image[cat].truePositive);
        batched[cat] := batched[cat].(falsePositive := batched[cat].falsePositive + image[cat].falsePositive);
      }
    }
  }

  /** One image as the matching sees it: the order is the one its sort chose. */
  datatype Image = Image(d: seq<Detection>, gts: seq<Annotation>, order: seq<nat>)

  function DetectionScores(d: seq<Detection>): (r: seq<real>)
    ensures |r| == |d|
  {
    seq(|d|, i requires 0 <= i < |d| => d[i].score)
  }

  ghost predicate Sorted(i: Image) {
    IsArgsort(i.order, DetectionScores(i.d))
  }

  ghost predicate AllSorted(images: seq<Image>) {
    forall k :: 0 <= k < |images| ==> Sorted(images[k])
  }

  /** The statistics of one class after every image has been added. */
  ghost function BatchStats(images: seq<Image>, c: int, threshold: real): Stats
    requires AllSorted(images)
  {
    if images == [] then EMPTY_STATS
    else
      var last := images[|images| - 1];
      assert Sorted(last);
      Accumulate(BatchStats(images[..|images| - 1], c, threshold), CategoryStats(last.d, last.gts, last.order, c, threshold))
  }

  lemma {:induction false} BatchWellFormed(images: seq<Image>, c: int, threshold: real)
    requires AllSorted(images)
    ensures WellFormed(BatchStats(images, c, threshold))
  {
    if images != [] {
      BatchWellFormed(images[..|images| - 1], c, threshold);
    }
  }

  // -------------------------------------------------------- Average precision

  /** The sum of `marks` over the first `k` entries of `order`. */
  function Cumulative(marks: seq<nat>, order: seq<nat>, k: nat): nat
    requires InRange(order, |marks|) && k <= |order|
  {
    if k == 0 then 0 else Cumulative(marks, order, k - 1) + marks[order[k - 1]]
  }

  lemma {:induction false} MarksAddUp(s: Stats, order: seq<nat>, k: nat)
    requires WellFormed(s) && InRange(order, |s.scores|) && k <= |order|
    ensures Cumulative(s.truePositive, order, k) + Cumulative(s.falsePositive, order, k) == k
  {
    if k > 0 { MarksAddUp(s, order, k - 1); }
  }

  /** Of the `k` best predictions, the share that is right. */
  function PrecisionAt(s: Stats, order: seq<nat>, k: nat): real
    requires InRange(order, |s.truePositive|) && 0 < k <= |order|
  {
    Cumulative(s.truePositive, order, k) as real / k as real
  }

  /** Of the ground truths, the share the `k` best predictions claim. */
  function RecallAt(s: Stats, order: seq<nat>, k: nat): real
    requires InRange(order, |s.truePositive|) && k <= |order| && s.numGt > 0
  {
    Cumulative(s.truePositive, order, k) as real / s.numGt as real
  }

  function Precisions(s: Stats, order: seq<nat>): (r: seq<real>)
    requires InRange(order, |s.truePositive|)
    ensures |r| == |order|
  {
    seq(|order|, k requires 0 <= k < |order| => PrecisionAt(s, order, k + 1))
  }

  function Recalls(s: Stats, order: seq<nat>): (r: seq<real>)
    requires InRange(order, |s.truePositive|) && s.numGt > 0
    ensures |r| == |order|
  {
    seq(|order|, k requires 0 <= k < |order| => RecallAt(s, order, k + 1))
  }

  /** The largest precision among the first `n` points of recall at least `point`, or zero. */
  function MaxPrecision(precision: seq<real>, recall: seq<real>, point: real, n: nat): real
    requires n <= |recall| == |precision|
  {
    if n == 0 then 0.0
    else
      var best := MaxPrecision(precision, recall, point, n - 1);
      if recall[n - 1] >= point && precision[n - 1] > best then precision[n - 1] else best
  }

  function SampleStep(interval: nat): real
    requires interval >= 2
  {
    1.0 / (interval - 1) as real
  }

  function SamplePoint(i: nat, interval: nat): real
    requires interval >= 2
  {
    SampleStep(interval) * i as real
  }

  function InterpolatedSum(precision: seq<real>, recall: seq<real>, interval: nat, n: nat): real
    requires |recall| == |precision|
  {
    if n == 0 || interval < 2 then 0.0
    else InterpolatedSum(precision, recall, interval, n - 1)
         + MaxPrecision(precision, recall, SamplePoint(n - 1, interval), |recall|) / interval as real
  }

  ghost predicate SumsTo(values: seq<real>, total: real) {
    exists sums: seq<real> :: RunningSums(values, sums) && sums[|values|] == total
  }

  lemma SumsAppend(values: seq<real>, total: real, v: real)
    requires SumsTo(values, total)
    ensures SumsTo(values + [v], total + v)
  {
    var sums: seq<real> :| RunningSums(values, sums) && sums[|values|] == total;
    assert RunningSums(values + [v], sums + [total + v]);
  }

  lemma NothingSums()
    ensures SumsTo([], 0.0)
  {
    assert RunningSums([], [0.0]);
  }

  /** The largest precision among the entries whose recall reaches `i` of `interval - 1` equal
      steps, or 0 when there is none. */
  ghost predicate IsBest(precision: seq<real>, recall: seq<real>, interval: nat, i: nat, v: real)
    requires |recall| == |precision|
  {
    && v >= 0.0
    && (forall k :: 0 <= k < |recall| && Reaches(recall[k], interval, i) ==> precision[k] <= v)
    && (v == 0.0 || exists k :: 0 <= k < |recall| && Reaches(recall[k], interval, i) && precision[k] == v)
  }

  predicate Reaches(recall: real, interval: nat, i: nat) {
    recall * (interval as real - 1.0) >= i as real
  }

  /** The mean, over all steps from 0 to 1, of the best precision there. */
  ghost predicate Interpolates(precision: seq<real>, recall: seq<real>, interval: nat, result: real)
    requires |recall| == |precision|
  {
    exists best: seq<real>, total: real ::
      Samples(precision, recall, interval, best) && SumsTo(best, total) && total == result * interval as real
  }

  ghost predicate Samples(precision: seq<real>, recall: seq<real>, interval: nat, best: seq<real>)
    requires |recall| == |precision|
  {
    |best| == interval && forall i :: 0 <= i < interval ==> IsBest(precision, recall, interval, i, best[i])
  }

  lemma SampleReached(x: real, interval: nat, i: nat)
    requires interval >= 2
    ensures x >= SamplePoint(i, interval) <==> Reaches(x, interval, i)
  {
    var n := interval as real - 1.0;
    var step := SampleStep(interval);
    assert step * n == 1.0;
    ScaledOrder(x, step * i as real, n);
    assert (step * i as real) * n == (step * n) * i as real;
  }

  lemma ScaledOrder(x: real, y: real, n: real)
    requires n > 0.0
    ensures x >= y <==> x * n >= y * n
  {
    if x >= y {
      assert (x - y) * n >= 0.0;
    } else {
      assert (y - x) * n > 0.0;
    }
  }

  /** The best among the first `n` entries. */
  lemma {:induction false} MaxPrecisionIs(precision: seq<real>, recall: seq<real>, interval: nat, i: nat, n: nat)
    requires n <= |recall| == |precision| && interval >= 2
    ensures IsBest(precision[..n], recall[..n], interval, i, MaxPrecision(precision, recall, SamplePoint(i, interval), n))
  {
    if n > 0 {
      var v := MaxPrecision(precision, recall, SamplePoint(i, interval), n - 1);
      MaxPrecisionIs(precision, recall, interval, i, n - 1);
      SampleReached(recall[n - 1], interval, i);
      BestExtends(precision, recall, interval, i, n, v);
    }
  }

  lemma {:induction false} MaxPrecisionIsBest(precision: seq<real>, recall: seq<real>, interval: nat, i: nat)
    requires |recall| == |precision| && interval >= 2
    ensures IsBest(precision, recall, interval, i, MaxPrecision(precision, recall, SamplePoint(i, interval), |recall|))
  {
    MaxPrecisionIs(precision, recall, interval, i, |recall|);
    assert precision[..|recall|] == precision && recall[..|recall|] == recall;
  }

  lemma BestExtends(precision: seq<real>, recall: seq<real>, interval: nat, i: nat, n: nat, v: real)
    requires 0 < n <= |recall| == |precision| && IsBest(precision[..n - 1], recall[..n - 1], interval, i, v)
    ensures IsBest(precision[..n], recall[..n], interval, i,
                   if Reaches(recall[n - 1], interval, i) && precision[n - 1] > v then precision[n - 1] else v)
  {
    var p, r := precision[..n], recall[..n];
    assert forall k :: 0 <= k < n - 1 ==> recall[..n - 1][k] == r[k] && precision[..n - 1][k] == p[k];
    assert p[n - 1] == precision[n - 1] && r[n - 1] == recall[n - 1];
  }

  function Shares(values: seq<real>, n: real): (r: seq<real>)
    requires n > 0.0
    ensures |r| == |values|
  {
    seq(|values|, i requires 0 <= i < |values| => values[i] / n)
  }

  /** What the sampling loop adds up: the share of the best precision at every step. */
  lemma {:induction false} SampledShares(precision: seq<real>, recall: seq<real>, interval: nat, n: nat)
    returns (best: seq<real>)
    requires |recall| == |precision| && interval >= 2
    ensures |best| == n && forall i :: 0 <= i < n ==> IsBest(precision, recall, interval, i, best[i])
    ensures SumsTo(Shares(best, interval as real), InterpolatedSum(precision, recall, interval, n))
  {
    if n == 0 {
      best := [];
      NothingSums();
    } else {
      var before := SampledShares(precision, recall, interval, n - 1);
      var v := MaxPrecision(precision, recall, SamplePoint(n - 1, interval), |recall|);
      MaxPrecisionIsBest(precision, recall, interval, n - 1);
      best := before + [v];
      SumsAppend(Shares(before, interval as real), InterpolatedSum(precision, recall, interval, n - 1), v / interval as real);
      assert Shares(best, interval as real) == Shares(before, interval as real) + [v / interval as real];
    }
  }

  lemma ShareTimes(sum: real, next: real, v: real, n: real)
    requires n > 0.0 && next == sum + v / n
    ensures next * n == sum * n + v
  {
    var share := v / n;
    assert share * n == v;
    assert (sum + share) * n == sum * n + share * n;
  }

  function Scaled(sums: seq<real>, n: real): (r: seq<real>)
    ensures |r| == |sums|
  {
    seq(|sums|, k requires 0 <= k < |sums| => sums[k] * n)
  }

  lemma ScaledRuns(values: seq<real>, sums: seq<real>, n: real)
    requires n > 0.0 && RunningSums(Shares(values, n), sums)
    ensures RunningSums(values, Scaled(sums, n))
  {
    var scaled := Scaled(sums, n);
    forall k | 0 <= k < |values| ensures scaled[k + 1] == scaled[k] + values[k] {
      var share := Shares(values, n)[k];
      ShareTimes(sums[k], sums[k + 1], values[k], n);
    }
  }

  lemma SumsScale(values: seq<real>, total: real, n: real)
    requires n > 0.0 && SumsTo(Shares(values, n), total)
    ensures SumsTo(values, total * n)
  {
    var sums: seq<real> :| RunningSums(Shares(values, n), sums) && sums[|values|] == total;
    ScaledRuns(values, sums, n);
    assert Scaled(sums, n)[|values|] == total * n;
  }

  lemma SharesInterpolate(precision: seq<real>, recall: seq<real>, interval: nat, best: seq<real>, mean: real, total: real)
    requires |recall| == |precision| && interval >= 2 && Samples(precision, recall, interval, best)
    requires total == mean * interval as real && SumsTo(best, total)
    ensures Interpolates(precision, recall, interval, mean)
  {
  }

  lemma {:induction false} SampledMean(precision: seq<real>, recall: seq<real>, interval: nat)
    requires |recall| == |precision| && interval >= 2
    ensures Interpolates(precision, recall, interval, InterpolatedSum(precision, recall, interval, interval))
  {
    var best := SampledShares(precision, recall, interval, interval);
    var mean := InterpolatedSum(precision, recall, interval, interval);
    SumsScale(best, mean, interval as real);
    SharesInterpolate(precision, recall, interval, best, mean, mean * interval as real);
  }

  /** The largest precision among the entries whose recall reaches `point`. */
  method BestFrom(precision: seq<real>, recall: seq<real>, point: real) returns (maxPrecision: real)
    requires |recall| == |precision|
    ensures maxPrecision == MaxPrecision(precision, recall, point, |recall|)
  {
    maxPrecision := 0.0;
    for idx := 0 to |recall|
      invariant maxPrecision == MaxPrecision(precision, recall, point, idx)
    {
      if recall[idx] >= point {
        if precision[idx] > maxPrecision {
          maxPrecision := precision[idx];
        }
      }
    }
  }

  method AveragePrecision(precision: seq<real>, recall: seq<real>, interval: nat) returns (result: real)
    requires |recall| == |precision|
    ensures result == InterpolatedSum(precision, recall, interval, interval)
    ensures if interval >= 2 then Interpolates(precision, recall, interval, result) else result == 0.0
  {
    result := 0.0;
    // With a single sample the step is infinite and the only point is no number, so the
    // comparison below is false.
    if interval < 2 {
      return 0.0;
    }
    var step := SampleStep(interval);
    for intvl := 0 to interval
      invariant result == InterpolatedSum(precision, recall, interval, intvl)
    {
      var maxPrecision := BestFrom(precision, recall, step * intvl as real);
      assert step * intvl as real == SamplePoint(intvl, interval);
      result := result + maxPrecision / interval as real;
    }
    SampledMean(precision, recall, interval);
  }

  /** The precision-recall curve of one class. */
  method Curve(s: Stats, order: seq<nat>) returns (precision: seq<real>, recall: seq<real>)
    requires WellFormed(s) && InRange(order, |s.scores|) && s.numGt > 0
    ensures precision == Precisions(s, order) && recall == Recalls(s, order)
  {
    var tp, fp := 0, 0;
    precision, recall := [], [];
    for k := 0 to |order|
      invariant tp == Cumulative(s.truePositive, order, k) && fp == Cumulative(s.falsePositive, order, k)
      invariant |precision| == |recall| == k
      invariant forall j :: 0 <= j < k ==> precision[j] == PrecisionAt(s, order, j + 1) && recall[j] == RecallAt(s, order, j + 1)
    {
      var idx := order[k];
      tp := tp + s.truePositive[idx];
      fp := fp + s.falsePositive[idx];
      MarksAddUp(s, order, k + 1);
      precision := precision + [tp as real / (tp + fp) as real];
      recall := recall + [tp as real / s.numGt as real];
    }
  }

  /** The average precision of a class that has predictions. */
  function ClassAp(s: Stats, order: seq<nat>, interval: nat): real
    requires s.numGt > 0 ==> InRange(order, |s.truePositive|)
  {
    if s.numGt == 0 then 0.0
    else InterpolatedSum(Precisions(s, order), Recalls(s, order), interval, interval)
  }

  /** `order` is one the evaluation may use for this class; without ground truth it uses none. */
  ghost predicate Evaluable(s: Stats, order: seq<nat>) {
    WellFormed(s) && (s.numGt > 0 ==> IsArgsort(order, s.scores))
  }

  /** The orders the evaluation uses, one for each class. */
  ghost predicate Orders(stats: seq<Stats>, orders: seq<seq<nat>>) {
    && |orders| == |stats|
    && forall c :: 0 <= c < |stats| ==> Evaluable(stats[c], orders[c])
  }

  /** The average precisions of the classes; a class without predictions has none. */
  ghost function ClassAps(stats: seq<Stats>, orders: seq<seq<nat>>, interval: nat): seq<real>
    requires Orders(stats, orders)
  {
    if stats == [] then []
    else
      var n := |stats| - 1;
      assert Evaluable(stats[n], orders[n]);
      ClassAps(stats[..n], orders[..n], interval)
      + if |stats[n].scores| == 0 then [] else [ClassAp(stats[n], orders[n], interval)]
  }

  function Total(s: seq<real>): real {
    if s == [] then 0.0 else Total(s[..|s| - 1]) + s[|s| - 1]
  }

  function Mean(s: seq<real>): real {
    if |s| > 0 then Total(s) / |s| as real else 0.0
  }

  /** The score of a batch: the mean over the classes that have predictions. */
  ghost function Evaluate(stats: seq<Stats>, orders: seq<seq<nat>>, interval: nat): real
    requires Orders(stats, orders)
  {
    Mean(ClassAps(stats, orders, interval))
  }

  /** A score the evaluation may come to: the one for some sorted orders. */
  ghost predicate IsScore(stats: seq<Stats>, interval: nat, score: real)
  {
    exists orders: seq<seq<nat>> :: Orders(stats, orders) && score == Evaluate(stats, orders, interval)
  }

  method Accumulated(s: seq<real>) returns (r: real)
    ensures r == Total(s)
  {
    r := 0.0;
    for i := 0 to |s|
      invariant r == Total(s[..i])
    {
      assert s[..i + 1][..i] == s[..i];
      r := r + s[i];
    }
    assert s[..|s|] == s;
  }

  method ClassAverage(s: Stats, interval: nat) returns (classAp: real, ghost order: seq<nat>)
    requires WellFormed(s)
    ensures Evaluable(s, order)
    ensures classAp == ClassAp(s, order, interval)
  {
    if s.numGt == 0 {
      return 0.0, [];
    }
    var sortedStatsIndex := ArgsortDescending(s.scores);
    order := sortedStatsIndex;
    var precision, recall := Curve(s, sortedStatsIndex);
    classAp := AveragePrecision(precision, recall, interval);
  }

  /** The average taken over what is there. */
  method Averaged(s: seq<real>) returns (r: real)
    ensures r == Mean(s)
  {
    var total := Accumulated(s);
    r := if |s| > 0 then total / |s| as real else 0.0;
  }

  ghost predicate Scored(stats: seq<Stats>, orders: seq<seq<nat>>, interval: nat, aps: seq<real>) {
    Orders(stats, orders) && aps == ClassAps(stats, orders, interval)
  }

  lemma {:induction false} ClassApsStep(stats: seq<Stats>, orders: seq<seq<nat>>, interval: nat, aps: seq<real>,
                                        s: Stats, order: seq<nat>)
    requires Scored(stats, orders, interval, aps) && Evaluable(s, order)
    ensures Scored(stats + [s], orders + [order], interval,
                   if |s.scores| == 0 then aps else aps + [ClassAp(s, order, interval)])
  {
    assert (stats + [s])[..|stats|] == stats && (orders + [order])[..|stats|] == orders;
  }

  /** The batch score, together with the orders its sorts chose. */
  method MetricsEval(stats: seq<Stats>, interval: nat) returns (finalMap: real, ghost orders: seq<seq<nat>>)
    requires forall c :: 0 <= c < |stats| ==> WellFormed(stats[c])
    ensures Orders(stats, orders)
    ensures finalMap == Evaluate(stats, orders, interval)
    ensures IsScore(stats, interval, finalMap)
  {
    var classAps: seq<real> := [];
    orders := [];
    for category := 0 to |stats|
      invariant Scored(stats[..category], orders, interval, classAps)
    {
      assert stats[..category + 1] == stats[..category] + [stats[category]];
      ghost var order: seq<nat> := [];
      if |stats[category].scores| == 0 {
        ClassApsStep(stats[..category], orders, interval, classAps, stats[category], []);
      } else {
        var classAp;
        classAp, order := ClassAverage(stats[category], interval);
        ClassApsStep(stats[..category], orders, interval, classAps, stats[category], order);
        classAps := classAps + [classAp];
      }
      orders := orders + [order];
    }
    assert stats[..|stats|] == stats;
    finalMap := Averaged(classAps);
  }

  // ------------------------------------------------------------ Whole batch

  /** The batch statistics of classes 0 to n-1. */
  ghost function AllClasses(images: seq<Image>, n: nat, threshold: real): (r: seq<Stats>)
    requires AllSorted(images)
    ensures |r| == n
  {
    seq(n, c requires 0 <= c < n => BatchStats(images, c, threshold))
  }

  /** Every class took up what one image adds to it. */
  ghost predicate Updated(before: seq<Stats>, image: Image, threshold: real, after: seq<Stats>)
    requires Sorted(image)
  {
    && |after| == |before|
    && forall c :: 0 <= c < |before| ==>
         after[c] == Accumulate(before[c], CategoryStats(image.d, image.gts, image.order, c, threshold))
  }

  lemma BatchStep(images: seq<Image>, image: Image, n: nat, threshold: real, after: seq<Stats>)
    requires AllSorted(images) && Sorted(image)
    requires Updated(AllClasses(images, n, threshold), image, threshold, after)
    ensures AllSorted(images + [image]) && after == AllClasses(images + [image], n, threshold)
  {
    assert (images + [image])[..|images|] == images;
    forall c | 0 <= c < n ensures after[c] == BatchStats(images + [image], c, threshold) {
      assert AllClasses(images, n, threshold)[c] == BatchStats(images, c, threshold);
    }
  }

  lemma AllWellFormed(images: seq<Image>, n: nat, threshold: real)
    requires AllSorted(images)
    ensures forall c :: 0 <= c < n ==> WellFormed(AllClasses(images, n, threshold)[c])
  {
    forall c | 0 <= c < n ensures WellFormed(AllClasses(images, n, threshold)[c]) {
      BatchWellFormed(images, c, threshold);
    }
  }

  /** What the matching is given for one image. */
  ghost predicate Entry(prediction: PredictionEntry, annotation: AnnotationEntry, numClasses: nat)
    reads prediction, annotation
  {
    && prediction.Valid() && annotation.Valid()
    && forall i :: 0 <= i < |annotation.cls| ==> 0 <= annotation.cls[i] < numClasses
  }

  /** The image holds what the entries hold, with an order its scores allow. */
  ghost predicate Entered(image: Image, prediction: PredictionEntry, annotation: AnnotationEntry)
    reads prediction, annotation
  {
    && prediction.Valid() && annotation.Valid()
    && Sorted(image) && image.d == prediction.Detections() && image.gts == annotation.Annotations()
  }

  /** One image is matched and added to the batch. */
  method AddImage(batched: array<Stats>, prediction: PredictionEntry, annotation: AnnotationEntry, threshold: real,
                  ghost images: seq<Image>)
    returns (ghost image: Image)
    requires Entry(prediction, annotation, batched.Length)
    requires AllSorted(images) && batched[..] == AllClasses(images, batched.Length, threshold)
    modifies batched
    ensures Entered(image, prediction, annotation)
    ensures AllSorted(images + [image]) && batched[..] == AllClasses(images + [image], batched.Length, threshold)
  {
    var imageResult, order := MeanAveragePrecision(prediction, annotation, threshold, batched.Length);
    image := Image(prediction.Detections(), annotation.Annotations(), order);
    assert DetectionScores(image.d) == prediction.clsScore;
    MetricsUpdate(batched, imageResult);
    BatchStep(images, image, batched.Length, threshold, batched[..]);
  }

  /** Every image is matched, added to the batch, and the batch is evaluated once at the end. */
  method ValidateBatch(predictions: seq<PredictionEntry>, annotations: seq<AnnotationEntry>, threshold: real,
                       numClasses: nat, interval: nat)
    returns (score: real, ghost images: seq<Image>, ghost orders: seq<seq<nat>>)
    requires |predictions| == |annotations|
    requires forall k :: 0 <= k < |predictions| ==> Entry(predictions[k], annotations[k], numClasses)
    ensures |images| == |predictions|
    ensures forall k :: 0 <= k < |images| ==> Entered(images[k], predictions[k], annotations[k])
    ensures AllSorted(images) && Orders(AllClasses(images, numClasses, threshold), orders)
    ensures score == Evaluate(AllClasses(images, numClasses, threshold), orders, interval)
    ensures IsScore(AllClasses(images, numClasses, threshold), interval, score)
  {
    var batched := new Stats[numClasses](_ => EMPTY_STATS);
    images := [];
    for k := 0 to |predictions|
      invariant fresh(batched) && |images| == k
      invariant forall j :: 0 <= j < k ==> Entered(images[j], predictions[j], annotations[j])
      invariant AllSorted(images) && batched[..] == AllClasses(images, numClasses, threshold)
    {
      ghost var image := AddImage(batched, predictions[k], annotations[k], threshold, images);
      images := images + [image];
    }
    AllWellFormed(images, numClasses, threshold);
    score, orders := MetricsEval(batched[..], interval);
  }
}
