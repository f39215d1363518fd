/** Greedy matching of one image's predictions to its ground truth, one class at a time. */
module Matching {
  import opened Boxes
  import opened Lists
  import opened Sorting
  import opened Suppression
  import opened Predictions

  datatype Annotation = Annotation(box: Box, cls: int)

  datatype Stats = Stats(numGt: nat, scores: seq<real>, truePositive: seq<nat>, falsePositive: seq<nat>)

  const EMPTY_STATS := Stats(0, [], [], [])

  class AnnotationEntry {
    var xMax: seq<real>
    var xMin: seq<real>
    var yMax: seq<real>
    var yMin: seq<real>
    var cls: seq<int>

    ghost predicate Valid()
      reads this
    {
      |cls| == |xMax| == |xMin| == |yMax| == |yMin|
    }

    function BoxAt(idx: nat): (b: Box)
      requires idx < |xMax| && idx < |xMin| && idx < |yMax| && idx < |yMin|
      reads this
    {
      Box(xMax[idx], xMin[idx], yMax[idx], yMin[idx])
    }

    ghost function Annotations(): (a: seq<Annotation>)
      requires Valid()
      reads this
      ensures |a| == |cls|
    {
      seq(|cls|, i requires 0 <= i < |cls| && Valid() reads this => Annotation(BoxAt(i), cls[i]))
    }

    lemma AnnotationFields(i: nat)
      requires Valid() && i < |cls|
      ensures var a := Annotations()[i];
        && a.box.xMin == xMin[i] && a.box.xMax == xMax[i] && a.box.yMin == yMin[i] && a.box.yMax == yMax[i]
        && a.cls == cls[i]
    {
    }
  }

  // ------------------------------------------------------------ Specification

  datatype Overlap = Overlap(idx: nat, iou: real)

  /** The best overlap of `b` among the first `n` ground truths of class `c`; the first one wins ties. */
  function BestOverlap(b: Box, gts: seq<Annotation>, c: int, n: nat): (r: Overlap)
    requires n <= |gts|
  {
    if n == 0 then Overlap(0, 0.0)
    else
      var best := BestOverlap(b, gts, c, n - 1);
      if gts[n - 1].cls == c && Iou(b, gts[n - 1].box) > best.iou
      then Overlap(n - 1, Iou(b, gts[n - 1].box)) else best
  }

  function Best(b: Box, gts: seq<Annotation>, c: int): Overlap {
    BestOverlap(b, gts, c, |gts|)
  }

  function OfClass(d: seq<Detection>, order: seq<nat>, c: int): (r: seq<nat>)
    requires InRange(order, |d|)
    ensures InRange(r, |d|)
  {
    if order == [] then []
    else
      var last := order[|order| - 1];
      OfClass(d, order[..|order| - 1], c) + if d[last].cls == c then [last] else []
  }

  /** What each listed prediction overlaps best. */
  function Overlaps(d: seq<Detection>, gts: seq<Annotation>, c: int, list: seq<nat>): (r: seq<Overlap>)
    requires InRange(list, |d|)
    ensures |r| == |list|
  {
    seq(|list|, k requires 0 <= k < |list| => Best(d[list[k]].box, gts, c))
  }

  /** The ground truths that are the best overlap of some prediction reaching the threshold. */
  function Hits(overlaps: seq<Overlap>, threshold: real): set<nat> {
    set k | 0 <= k < |overlaps| && overlaps[k].iou >= threshold :: overlaps[k].idx
  }

  /** The `k`-th prediction reaches the threshold and is the first to do so on its ground truth. */
  predicate IsFirstHit(overlaps: seq<Overlap>, threshold: real, k: nat)
    requires k < |overlaps|
  {
    overlaps[k].iou >= threshold && overlaps[k].idx !in Hits(overlaps[..k], threshold)
  }

  function TruePositives(overlaps: seq<Overlap>, threshold: real): (r: seq<nat>)
    ensures |r| == |overlaps|
  {
    seq(|overlaps|, k requires 0 <= k < |overlaps| => if IsFirstHit(overlaps, threshold, k) then 1 else 0)
  }

  function FalsePositives(overlaps: seq<Overlap>, threshold: real): (r: seq<nat>)
    ensures |r| == |overlaps|
  {
    seq(|overlaps|, k requires 0 <= k < |overlaps| => if IsFirstHit(overlaps, threshold, k) then 0 else 1)
  }

  function ScoresOf(d: seq<Detection>, list: seq<nat>): (r: seq<real>)
    requires InRange(list, |d|)
  {
    seq(|list|, k requires 0 <= k < |list| => d[list[k]].score)
  }

  function CountOf(cls: seq<int>, c: int): nat {
    if cls == [] then 0
    else CountOf(cls[..|cls| - 1], c) + if cls[|cls| - 1] == c then 1 else 0
  }

  function GtClasses(gts: seq<Annotation>): (r: seq<int>)
    ensures |r| == |gts|
  {
    seq(|gts|, i requires 0 <= i < |gts| => gts[i].cls)
  }

  function PredClasses(d: seq<Detection>): (r: seq<int>)
    ensures |r| == |d|
  {
    seq(|d|, i requires 0 <= i < |d| => d[i].cls)
  }

  /** One class of one image; classes without ground truth stay empty. */
  function CategoryStats(d: seq<Detection>, gts: seq<Annotation>, order: seq<nat>, c: int, threshold: real): Stats
    requires InRange(order, |d|)
  {
    if c !in GtClasses(gts) then EMPTY_STATS
    else
      var list := OfClass(d, order, c);
      var overlaps := Overlaps(d, gts, c, list);
      Stats(CountOf(GtClasses(gts), c), ScoresOf(d, list),
            TruePositives(overlaps, threshold), FalsePositives(overlaps, threshold))
  }

  // ------------------------------------------------------------------ Methods

  method MostOverlapped(b: Box, annotation: AnnotationEntry, category: int) returns (idx: nat, iou: real)
    requires annotation.Valid()
    ensures Overlap(idx, iou) == Best(b, annotation.Annotations(), category)
  {
    idx, iou := 0, 0.0;
    for gtIdx := 0 to |annotation.cls|
      invariant Overlap(idx, iou) == BestOverlap(b, annotation.Annotations(), category, gtIdx)
    {
      if annotation.cls[gtIdx] == category {
        var candidate := Iou(b, annotation.BoxAt(gtIdx));
        if candidate > iou {
          idx, iou := gtIdx, candidate;
        }
      }
    }
  }

  lemma HitsExtend(overlaps: seq<Overlap>, threshold: real, o: Overlap)
    ensures Hits(overlaps + [o], threshold)
         == Hits(overlaps, threshold) + if o.iou >= threshold then {o.idx} else {}
  {
    var longer := overlaps + [o];
    assert longer[|overlaps|] == o;
    forall g | g in Hits(overlaps, threshold) ensures g in Hits(longer, threshold) {
      var k :| 0 <= k < |overlaps| && overlaps[k].iou >= threshold && overlaps[k].idx == g;
      assert longer[k] == overlaps[k];
    }
  }

  lemma MarksExtend(overlaps: seq<Overlap>, threshold: real, o: Overlap)
    ensures var hit := o.iou >= threshold && o.idx !in Hits(overlaps, threshold);
            && TruePositives(overlaps + [o], threshold) == TruePositives(overlaps, threshold) + [if hit then 1 else 0]
            && FalsePositives(overlaps + [o], threshold) == FalsePositives(overlaps, threshold) + [if hit then 0 else 1]
  {
    var longer := overlaps + [o];
    assert longer[..|overlaps|] == overlaps;
    forall k | 0 <= k < |overlaps|
      ensures IsFirstHit(longer, threshold, k) == IsFirstHit(overlaps, threshold, k)
    {
      assert longer[..k] == overlaps[..k];
    }
  }

  function Zeros(n: nat): (r: seq<nat>)
    ensures |r| == n
  {
    seq(n, _ => 0)
  }

  /** The arrays after the first predictions of the class: marks so far, zeros beyond. */
  ghost predicate Matched(overlaps: seq<Overlap>, threshold: real, total: nat,
                          matched: set<nat>, tp: seq<nat>, fp: seq<nat>)
  {
    && |overlaps| <= total
    && matched == Hits(overlaps, threshold)
    && tp == TruePositives(overlaps, threshold) + Zeros(total - |overlaps|)
    && fp == FalsePositives(overlaps, threshold) + Zeros(total - |overlaps|)
  }

  lemma MatchedExtend(overlaps: seq<Overlap>, threshold: real, total: nat,
                      matched: set<nat>, tp: seq<nat>, fp: seq<nat>, o: Overlap)
    requires Matched(overlaps, threshold, total, matched, tp, fp) && |overlaps| < total
    ensures o.iou >= threshold && o.idx !in matched ==>
              Matched(overlaps + [o], threshold, total, matched + {o.idx}, tp[|overlaps| := 1], fp)
    ensures !(o.iou >= threshold && o.idx !in matched) ==>
              Matched(overlaps + [o], threshold, total, matched, tp, fp[|overlaps| := 1])
  {
    HitsExtend(overlaps, threshold, o);
    MarksExtend(overlaps, threshold, o);
    assert Zeros(total - |overlaps|) == [0] + Zeros(total - |overlaps| - 1);
  }

  /** The arrays after the predictions in `list`, which are as many as the first `predNum`. */
  ghost predicate Filled(d: seq<Detection>, gts: seq<Annotation>, c: int, threshold: real, list: seq<nat>,
                         predNum: nat, scores: seq<real>, matched: set<nat>, tp: seq<nat>, fp: seq<nat>)
    requires InRange(list, |d|)
  {
    && predNum == |list| <= |scores| == |tp|
    && Matched(Overlaps(d, gts, c, list), threshold, |tp|, matched, tp, fp)
    && scores[..predNum] == ScoresOf(d, list)
  }

  lemma ScoresExtend(d: seq<Detection>, list: seq<nat>, x: nat, scores: seq<real>)
    requires InRange(list, |d|) && x < |d| && |list| < |scores| && scores[..|list|] == ScoresOf(d, list)
    ensures scores[|list| := d[x].score][..|list| + 1] == ScoresOf(d, list + [x])
  {
    var longer := scores[|list| := d[x].score];
    assert longer[..|list| + 1] == scores[..|list|] + [d[x].score];
  }

  lemma OverlapsExtend(d: seq<Detection>, gts: seq<Annotation>, c: int, list: seq<nat>, x: nat)
    requires InRange(list, |d|) && x < |d|
    ensures Overlaps(d, gts, c, list + [x]) == Overlaps(d, gts, c, list) + [Best(d[x].box, gts, c)]
  {
  }

  lemma FilledExtend(d: seq<Detection>, gts: seq<Annotation>, c: int, threshold: real, list: seq<nat>, x: nat,
                     predNum: nat, scores: seq<real>, matched: set<nat>, tp: seq<nat>, fp: seq<nat>)
    requires InRange(list, |d|) && x < |d| && |list| < |scores|
    requires Filled(d, gts, c, threshold, list, predNum, scores, matched, tp, fp)
    ensures |fp| == |tp|
    ensures var o := Best(d[x].box, gts, c);
            var scores' := scores[predNum := d[x].score];
            if o.iou >= threshold && o.idx !in matched
            then Filled(d, gts, c, threshold, list + [x], predNum + 1, scores', matched + {o.idx}, tp[predNum := 1], fp)
            else Filled(d, gts, c, threshold, list + [x], predNum + 1, scores', matched, tp, fp[predNum := 1])
  {
    ScoresExtend(d, list, x, scores);
    OverlapsExtend(d, gts, c, list, x);
    MatchedExtend(Overlaps(d, gts, c, list), threshold, |tp|, matched, tp, fp, Best(d[x].box, gts, c));
  }

  /** The loop of one class has dealt with `order[..i]`. */
  ghost predicate Processed(d: seq<Detection>, gts: seq<Annotation>, order: seq<nat>, c: int, threshold: real,
                            i: nat, predNum: nat, scores: seq<real>, matched: set<nat>, tp: seq<nat>, fp: seq<nat>)
    requires InRange(order, |d|) && i <= |order|
  {
    && |scores| == |OfClass(d, order, c)|
    && Filled(d, gts, c, threshold, OfClass(d, order[..i], c), predNum, scores, matched, tp, fp)
  }

  lemma OfClassStep(d: seq<Detection>, order: seq<nat>, c: int, i: nat)
    requires InRange(order, |d|) && i < |order|
    ensures OfClass(d, order[..i + 1], c)
         == if d[order[i]].cls == c then OfClass(d, order[..i], c) + [order[i]] else OfClass(d, order[..i], c)
    ensures |OfClass(d, order[..i + 1], c)| <= |OfClass(d, order, c)|
  {
    assert order[..i + 1][..i] == order[..i];
    OfClassPrefix(d, order, c, i + 1);
  }

  lemma ProcessedExtend(d: seq<Detection>, gts: seq<Annotation>, order: seq<nat>, c: int, threshold: real,
                        i: nat, predNum: nat, scores: seq<real>, matched: set<nat>, tp: seq<nat>, fp: seq<nat>)
    requires InRange(order, |d|) && i < |order| && d[order[i]].cls == c
    requires Processed(d, gts, order, c, threshold, i, predNum, scores, matched, tp, fp)
    ensures predNum < |scores| == |tp| == |fp|
    ensures var o := Best(d[order[i]].box, gts, c);
            var scores' := scores[predNum := d[order[i]].score];
            if o.iou >= threshold && o.idx !in matched
            then Processed(d, gts, order, c, threshold, i + 1, predNum + 1, scores', matched + {o.idx}, tp[predNum := 1], fp)
            else Processed(d, gts, order, c, threshold, i + 1, predNum + 1, scores', matched, tp, fp[predNum := 1])
  {
    OfClassStep(d, order, c, i);
    FilledExtend(d, gts, c, threshold, OfClass(d, order[..i], c), order[i], predNum, scores, matched, tp, fp);
  }

  lemma ProcessedSkip(d: seq<Detection>, gts: seq<Annotation>, order: seq<nat>, c: int, threshold: real,
                      i: nat, predNum: nat, scores: seq<real>, matched: set<nat>, tp: seq<nat>, fp: seq<nat>)
    requires InRange(order, |d|) && i < |order| && d[order[i]].cls != c
    requires Processed(d, gts, order, c, threshold, i, predNum, scores, matched, tp, fp)
    ensures Processed(d, gts, order, c, threshold, i + 1, predNum, scores, matched, tp, fp)
  {
    OfClassStep(d, order, c, i);
  }

  lemma ProcessedInit(d: seq<Detection>, gts: seq<Annotation>, order: seq<nat>, c: int, threshold: real, scores: seq<real>)
    requires IsPermutation(order, |d|)
    requires |scores| == CountOf(PredClasses(d), c)
    ensures Processed(d, gts, order, c, threshold, 0, 0, scores, {}, Zeros(|scores|), Zeros(|scores|))
  {
    OfClassCount(d, order, c);
    assert Overlaps(d, gts, c, OfClass(d, order[..0], c)) == [];
  }

  lemma ProcessedAll(d: seq<Detection>, gts: seq<Annotation>, order: seq<nat>, c: int, threshold: real,
                     predNum: nat, scores: seq<real>, matched: set<nat>, tp: seq<nat>, fp: seq<nat>)
    requires InRange(order, |d|) && c in GtClasses(gts)
    requires Processed(d, gts, order, c, threshold, |order|, predNum, scores, matched, tp, fp)
    ensures Stats(CountOf(GtClasses(gts), c), scores, tp, fp) == CategoryStats(d, gts, order, c, threshold)
  {
    assert order[..|order|] == order;
  }

  /** The loop over the sorted predictions for one class. */
  method MatchCategory(prediction: PredictionEntry, annotation: AnnotationEntry, order: seq<nat>,
                       category: int, threshold: real) returns (stats: Stats)
    requires prediction.Valid() && annotation.Valid()
    requires IsPermutation(order, prediction.size)
    requires category in annotation.cls
    ensures stats == CategoryStats(prediction.Detections(), annotation.Annotations(), order, category, threshold)
  {
    ghost var d, gts := prediction.Detections(), annotation.Annotations();
    assert GtClasses(gts) == annotation.cls && PredClasses(d) == prediction.cls;
    var numGt := Occurrences(annotation.cls, category);
    var numPred := Occurrences(prediction.cls, category);
    var scores: seq<real> := seq(numPred, _ => 0.0);
    var tp, fp: seq<nat> := Zeros(numPred), Zeros(numPred);
    var matched: set<nat> := {};
    var predNum := 0;
    ProcessedInit(d, gts, order, category, threshold, scores);
    for i := 0 to |order|
      invariant Processed(d, gts, order, category, threshold, i, predNum, scores, matched, tp, fp)
    {
      var pboxIdx := order[i];
      if prediction.cls[pboxIdx] != category {
        ProcessedSkip(d, gts, order, category, threshold, i, predNum, scores, matched, tp, fp);
      } else {
        ProcessedExtend(d, gts, order, category, threshold, i, predNum, scores, matched, tp, fp);
        scores := scores[predNum := prediction.clsScore[pboxIdx]];
        var idx, iou := MostOverlapped(prediction.BoxAt(pboxIdx), annotation, category);
        // The source also has a branch for classes with no ground truth; the loop over the
        // annotated classes never takes it.
        if iou >= threshold && idx !in matched {
          matched := matched + {idx};
          tp := tp[predNum := 1];
        } else {
          fp := fp[predNum := 1];
        }
        predNum := predNum + 1;
      }
    }
    ProcessedAll(d, gts, order, category, threshold, predNum, scores, matched, tp, fp);
    stats := Stats(numGt, scores, tp, fp);
  }

  method Occurrences(cls: seq<int>, c: int) returns (n: nat)
    ensures n == CountOf(cls, c)
  {
    n := 0;
    for i := 0 to |cls|
      invariant n == CountOf(cls[..i], c)
    {
      assert cls[..i + 1][..i] == cls[..i];
      if cls[i] == c { n := n + 1; }
    }
    assert cls[..|cls|] == cls;
  }

  method MeanAveragePrecision(prediction: PredictionEntry, annotation: AnnotationEntry, threshold: real, numClasses: nat)
    returns (imageResult: seq<Stats>, ghost order: seq<nat>)
    requires prediction.Valid() && annotation.Valid()
    requires forall i :: 0 <= i < |annotation.cls| ==> 0 <= annotation.cls[i] < numClasses
    ensures IsArgsort(order, prediction.clsScore)
    ensures |imageResult| == numClasses
    ensures forall c :: 0 <= c < numClasses ==>
              imageResult[c] == CategoryStats(prediction.Detections(), annotation.Annotations(), order, c, threshold)
  {
    var uniqueClasses := set i | 0 <= i < |annotation.cls| :: annotation.cls[i];
    imageResult := seq(numClasses, _ => EMPTY_STATS);
    var sortedIndices := ArgsortDescending(prediction.clsScore);
    order := sortedIndices;
    var remaining := uniqueClasses;
    assert GtClasses(annotation.Annotations()) == annotation.cls;
    while remaining != {}
      invariant remaining <= uniqueClasses && |imageResult| == numClasses
      invariant forall c :: 0 <= c < numClasses ==>
                  imageResult[c] == if c in remaining then EMPTY_STATS
                                    else CategoryStats(prediction.Detections(), annotation.Annotations(), order, c, threshold)
    {
      var category :| category in remaining;
      var stats := MatchCategory(prediction, annotation, sortedIndices, category, threshold);
      imageResult := imageResult[category := stats];
      remaining := remaining - {category};
    }
  }

  // ------------------------------------------------------------------- Counts

  lemma {:induction false} OfClassPrefix(d: seq<Detection>, order: seq<nat>, c: int, n: nat)
    requires InRange(order, |d|) && n <= |order|
    ensures OfClass(d, order[..n], c) <= OfClass(d, order, c)
    decreases |order|
  {
    if n < |order| {
      var shorter := order[..|order| - 1];
      assert shorter[..n] == order[..n];
      OfClassPrefix(d, shorter, c, n);
    } else {
      assert order[..n] == order;
    }
  }

  lemma {:induction false} OfClassMembers(d: seq<Detection>, order: seq<nat>, c: int)
    requires InRange(order, |d|)
    ensures forall i: nat :: i in OfClass(d, order, c) <==> i in order && i < |d| && d[i].cls == c
    ensures Distinct(order) ==> Distinct(OfClass(d, order, c))
  {
    if order != [] {
      OfClassMembers(d, order[..|order| - 1], c);
      assert order == order[..|order| - 1] + [order[|order| - 1]];
    }
  }

  ghost function PlacesOf(cls: seq<int>, c: int): set<nat> {
    set i: nat | i < |cls| && cls[i] == c
  }

  lemma {:induction false} CountIsCardinality(cls: seq<int>, c: int)
    ensures CountOf(cls, c) == |PlacesOf(cls, c)|
  {
    if cls != [] {
      var n := |cls| - 1;
      CountIsCardinality(cls[..n], c);
      assert PlacesOf(cls, c) == PlacesOf(cls[..n], c) + if cls[n] == c then {n} else {};
    }
  }

  lemma OfClassCount(d: seq<Detection>, order: seq<nat>, c: int)
    requires IsPermutation(order, |d|)
    ensures |OfClass(d, order, c)| == CountOf(PredClasses(d), c)
  {
    var list := OfClass(d, order, c);
    OfClassMembers(d, order, c);
    DistinctCardinality(list);
    CountIsCardinality(PredClasses(d), c);
    assert Members(list) == PlacesOf(PredClasses(d), c);
  }
}
