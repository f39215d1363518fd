/** Exactly when ties can turn a higher threshold into a higher score. */
module TieWitness {
  import opened Boxes
  import opened Lists
  import opened Sorting
  import opened Suppression
  import opened Matching
  import opened MatchingLaws
  import opened BatchMetrics
  import opened MetricLaws
  import opened TieOrders
  import opened Reals

  // ------------------------------------------------------- The same outline

  /** The same scores, classes and annotated classes; boxes, numbers of ground truths and matching
      orders are free. */
  ghost predicate SameInputs(a: seq<Image>, b: seq<Image>) {
    |a| == |b| && forall k :: 0 <= k < |a| ==> SameInput(a[k], b[k])
  }

  ghost predicate SameInput(a: Image, b: Image) {
    && DetectionScores(a.d) == DetectionScores(b.d) && PredClasses(a.d) == PredClasses(b.d)
    && forall c :: c in GtClasses(a.gts) <==> c in GtClasses(b.gts)
  }

  /** The same matching orders as well. */
  ghost predicate SameOutline(a: seq<Image>, b: seq<Image>) {
    && AllSorted(a) && AllSorted(b) && SameInputs(a, b)
    && forall k :: 0 <= k < |a| ==> a[k].order == b[k].order
  }

  /** Ties aside there is one way to list the same predictions from the best score down, so the
      scores listed are always the same. */
  lemma ListedScoresUnique(d: seq<Detection>, s: seq<nat>, t: seq<nat>)
    requires Descending(d, s) && Descending(d, t) && Distinct(s) && Distinct(t) && Members(s) == Members(t)
    ensures ScoresOf(d, s) == ScoresOf(d, t)
  {
    DistinctCardinality(s);
    DistinctCardinality(t);
    forall k | 0 <= k < |s| ensures d[s[k]].score == d[t[k]].score {
      NoLaterScore(d, s, t, k);
      NoLaterScore(d, t, s, k);
    }
  }

  lemma PrefixMembers(t: seq<nat>, k: nat)
    requires k <= |t|
    ensures forall i :: 0 <= i < k ==> t[i] in Members(t[..k])
  {
    forall i | 0 <= i < k ensures t[i] in Members(t[..k]) { assert t[..k][i] == t[i]; }
  }

  /** Of `k + 1` predictions listed in `s`, one is listed in `t` at `k` or later. */
  lemma NoLaterScore(d: seq<Detection>, s: seq<nat>, t: seq<nat>, k: nat)
    requires Descending(d, s) && Descending(d, t) && Distinct(s) && Distinct(t) && Members(s) == Members(t)
    requires k < |s| && k < |t|
    ensures d[s[k]].score <= d[t[k]].score
  {
    var first, before := s[..k + 1], t[..k];
    DistinctCardinality(first);
    DistinctCardinality(before);
    if Members(first) <= Members(before) {
      CardinalityMonotone(Members(first), Members(before));
    }
    var x :| x in Members(first) && x !in Members(before);
    var i :| 0 <= i <= k && s[i] == x;
    assert s[i] in Members(t);
    PrefixMembers(t, k);
    var j :| 0 <= j < |t| && t[j] == x;
  }

  lemma {:induction false} SameList(d: seq<Detection>, e: seq<Detection>, order: seq<nat>, c: int)
    requires InRange(order, |d|) && PredClasses(d) == PredClasses(e)
    ensures |d| == |e| && OfClass(d, order, c) == OfClass(e, order, c)
  {
    assert |PredClasses(d)| == |PredClasses(e)|;
    if order != [] {
      var n := |order| - 1;
      SameList(d, e, order[..n], c);
      assert PredClasses(d)[order[n]] == PredClasses(e)[order[n]];
    }
  }

  lemma SameScores(a: Image, b: Image, c: int, s: real, t: real)
    requires Sorted(a) && Sorted(b) && SameInput(a, b)
    ensures BlockSize(a, c) == BlockSize(b, c)
    ensures CategoryStats(a.d, a.gts, a.order, c, s).scores == CategoryStats(b.d, b.gts, b.order, c, t).scores
  {
    SameList(a.d, b.d, b.order, c);
    SortsListAlike(a.d, a.order, b.order, c);
    var list := OfClass(b.d, b.order, c);
    forall k | 0 <= k < |list| ensures a.d[list[k]].score == b.d[list[k]].score {
      assert DetectionScores(a.d)[list[k]] == DetectionScores(b.d)[list[k]];
    }
    assert ScoresOf(a.d, list) == ScoresOf(b.d, list);
  }

  /** Two sorts of one image list the same scores for a class. */
  lemma SortsListAlike(d: seq<Detection>, o: seq<nat>, o': seq<nat>, c: int)
    requires IsArgsort(o, DetectionScores(d)) && IsArgsort(o', DetectionScores(d))
    ensures ScoresOf(d, OfClass(d, o, c)) == ScoresOf(d, OfClass(d, o', c))
    ensures |OfClass(d, o, c)| == |OfClass(d, o', c)|
  {
    SortedDescends(Image(d, [], o));
    SortedDescends(Image(d, [], o'));
    OfClassSorted(d, o, c);
    OfClassSorted(d, o', c);
    OfClassMembers(d, o, c);
    OfClassMembers(d, o', c);
    ListedScoresUnique(d, OfClass(d, o, c), OfClass(d, o', c));
  }

  lemma {:induction false} CountPositive(cls: seq<int>, c: int)
    ensures CountOf(cls, c) > 0 <==> c in cls
  {
    if cls != [] {
      CountPositive(cls[..|cls| - 1], c);
      assert cls == cls[..|cls| - 1] + [cls[|cls| - 1]];
    }
  }

  lemma {:induction false} SameBatchScores(a: seq<Image>, b: seq<Image>, c: int, s: real, t: real)
    requires AllSorted(a) && AllSorted(b) && SameInputs(a, b)
    ensures BatchStats(a, c, s).scores == BatchStats(b, c, t).scores
    ensures BatchStats(a, c, s).numGt > 0 <==> BatchStats(b, c, t).numGt > 0
  {
    if a != [] {
      var n := |a| - 1;
      assert SameInput(a[n], b[n]);
      SameBatchScores(a[..n], b[..n], c, s, t);
      SameScores(a[n], b[n], c, s, t);
      CountPositive(GtClasses(a[n].gts), c);
      CountPositive(GtClasses(b[n].gts), c);
    }
  }

  lemma {:induction false} SameOffsets(a: seq<Image>, b: seq<Image>, c: int, n: nat)
    requires AllSorted(a) && AllSorted(b) && SameInputs(a, b) && n <= |a|
    ensures Offset(a, c, n) == Offset(b, c, n)
  {
    if n > 0 {
      SameOffsets(a, b, c, n - 1);
      assert SameInput(a[n - 1], b[n - 1]);
      SameScores(a[n - 1], b[n - 1], c, 0.0, 0.0);
    }
  }

  lemma SameAlignment(a: seq<Image>, b: seq<Image>, c: int, order: seq<nat>)
    requires AllSorted(a) && AllSorted(b) && SameInputs(a, b) && Aligned(b, c, order)
    ensures Aligned(a, c, order)
  {
    forall k: nat, x: nat | k < |a| && InBlock(a, c, k, x) ensures InBlock(b, c, k, x) {
      assert SameInput(a[k], b[k]);
      SameOffsets(a, b, c, k);
      SameScores(a[k], b[k], c, 0.0, 0.0);
    }
  }

  lemma SameEvaluable(a: seq<Image>, b: seq<Image>, c: int, order: seq<nat>, s: real, t: real)
    requires AllSorted(a) && AllSorted(b) && SameInputs(a, b) && Evaluable(BatchStats(b, c, t), order)
    ensures Evaluable(BatchStats(a, c, s), order)
  {
    SameBatchScores(a, b, c, s, t);
    BatchWellFormed(a, c, s);
  }

  // ------------------------------------------------------------ The witness

  // Against the only kind of ground truth, PARTIAL scores 0.6, FULL scores 1 and FAR nothing.
  const TRUTH := Box(9.0, 0.0, 9.0, 0.0)
  const FULL := Box(9.0, 0.0, 9.0, 0.0)
  const PARTIAL := Box(5.0, 0.0, 9.0, 0.0)
  const FAR := Box(109.0, 100.0, 109.0, 100.0)

  lemma FullIou(p: Box, q: Box)
    requires p == Box(9.0, 0.0, 9.0, 0.0) && q == p
    ensures Iou(p, q) == 1.0
  {
    assert Intersection(p, q) == 100.0;
  }

  lemma PartialIou(p: Box, q: Box)
    requires p == Box(5.0, 0.0, 9.0, 0.0) && q == Box(9.0, 0.0, 9.0, 0.0)
    ensures Iou(p, q) == 0.6
  {
    assert Intersection(p, q) == 60.0;
  }

  lemma ApartIou(p: Box, q: Box)
    requires OverlapX(p, q) == 0.0
    ensures Iou(p, q) == 0.0
  {
  }

  lemma FarIou(p: Box, q: Box)
    requires p == Box(109.0, 100.0, 109.0, 100.0) && q == Box(9.0, 0.0, 9.0, 0.0)
    ensures OverlapX(p, q) == 0.0
  {
  }

  function WitnessBox(i: int, x: int, y: int): Box {
    if i == y then FULL else if i == x then PARTIAL else FAR
  }

  /** The image with one box covering a ground truth partly, one covering it fully, all others far away. */
  function WitnessImage(image: Image, x: int, y: int): (w: Image)
    ensures |w.d| == |image.d| && |w.gts| == |image.gts| && w.order == image.order
  {
    Image(seq(|image.d|, i requires 0 <= i < |image.d| => image.d[i].(box := WitnessBox(i, x, y))),
          seq(|image.gts|, g requires 0 <= g < |image.gts| => Annotation(TRUTH, image.gts[g].cls)),
          image.order)
  }

  /** The pair in image `b`, nothing anywhere else. */
  function WitnessImages(images: seq<Image>, b: nat, x: int, y: int): (w: seq<Image>)
    ensures |w| == |images|
  {
    seq(|images|, k requires 0 <= k < |images| =>
      if k == b then WitnessImage(images[k], x, y) else WitnessImage(images[k], -1, -1))
  }

  lemma WitnessSketch(image: Image, x: int, y: int)
    ensures SameInput(WitnessImage(image, x, y), image) && WitnessImage(image, x, y).order == image.order
    ensures Sorted(image) ==> Sorted(WitnessImage(image, x, y))
  {
    var w := WitnessImage(image, x, y);
    assert DetectionScores(w.d) == DetectionScores(image.d) && PredClasses(w.d) == PredClasses(image.d);
    assert GtClasses(w.gts) == GtClasses(image.gts);
  }

  lemma WitnessOutline(images: seq<Image>, b: nat, x: int, y: int)
    requires AllSorted(images)
    ensures SameOutline(WitnessImages(images, b, x, y), images)
  {
    var w := WitnessImages(images, b, x, y);
    forall k | 0 <= k < |images| ensures Sorted(w[k]) && SameInput(w[k], images[k]) {
      WitnessSketch(images[k], x, y);
      WitnessSketch(images[k], -1, -1);
    }
  }

  /** Where all ground truths look alike, every box that overlaps them picks the same one. */
  lemma {:induction false} SamePick(p: Box, q: Box, gts: seq<Annotation>, c: int, n: nat)
    requires n <= |gts| && forall g :: 0 <= g < |gts| ==> gts[g].box == TRUTH
    requires Iou(p, TRUTH) > 0.0 && Iou(q, TRUTH) > 0.0
    ensures BestOverlap(p, gts, c, n).idx == BestOverlap(q, gts, c, n).idx
    ensures BestOverlap(p, gts, c, n).iou == if c in GtClasses(gts)[..n] then Iou(p, TRUTH) else 0.0
    ensures BestOverlap(q, gts, c, n).iou == if c in GtClasses(gts)[..n] then Iou(q, TRUTH) else 0.0
  {
    if n > 0 {
      SamePick(p, q, gts, c, n - 1);
      assert GtClasses(gts)[..n] == GtClasses(gts)[..n - 1] + [gts[n - 1].cls];
    }
  }

  lemma {:induction false} NoPick(p: Box, gts: seq<Annotation>, c: int, n: nat)
    requires n <= |gts| && forall g :: 0 <= g < |gts| ==> gts[g].box == TRUTH
    requires Iou(p, TRUTH) == 0.0
    ensures BestOverlap(p, gts, c, n).iou == 0.0
  {
    if n > 0 { NoPick(p, gts, c, n - 1); }
  }

  /** Which entry of a block is right: the earlier, partial one at a low threshold, the later,
      full one at a high one. */
  lemma PairMarks(overlaps: seq<Overlap>, i: nat, j: nat, threshold: real)
    requires i < j < |overlaps| && overlaps[i].iou == 0.6 && overlaps[j].iou == 1.0
    requires overlaps[i].idx == overlaps[j].idx
    requires forall k :: 0 <= k < |overlaps| && k != i && k != j ==> overlaps[k].iou == 0.0
    requires 0.0 < threshold <= 1.0
    ensures forall k :: 0 <= k < |overlaps| ==>
      TruePositives(overlaps, threshold)[k] == if k == (if threshold <= 0.6 then i else j) then 1 else 0
  {
    forall k | 0 <= k < |overlaps|
      ensures TruePositives(overlaps, threshold)[k] == if k == (if threshold <= 0.6 then i else j) then 1 else 0
    {
      TruePositiveExactly(overlaps, threshold, k);
    }
  }

  ghost predicate AllAlike(gts: seq<Annotation>) {
    forall g :: 0 <= g < |gts| ==> gts[g].box == TRUTH
  }

  lemma PickFull(gts: seq<Annotation>, c: int)
    requires AllAlike(gts) && c in GtClasses(gts)
    ensures Best(FULL, gts, c).iou == 1.0
  {
    FullIou(FULL, TRUTH);
    SamePick(FULL, FULL, gts, c, |gts|);
    assert GtClasses(gts)[..|gts|] == GtClasses(gts);
  }

  lemma PickPartial(gts: seq<Annotation>, c: int)
    requires AllAlike(gts) && c in GtClasses(gts)
    ensures Best(PARTIAL, gts, c).iou == 0.6 && Best(PARTIAL, gts, c).idx == Best(FULL, gts, c).idx
  {
    FullIou(FULL, TRUTH);
    PartialIou(PARTIAL, TRUTH);
    SamePick(PARTIAL, FULL, gts, c, |gts|);
    assert GtClasses(gts)[..|gts|] == GtClasses(gts);
  }

  lemma PickFar(gts: seq<Annotation>, c: int)
    requires AllAlike(gts)
    ensures Best(FAR, gts, c).iou == 0.0
  {
    FarIou(FAR, TRUTH);
    ApartIou(FAR, TRUTH);
    NoPick(FAR, gts, c, |gts|);
  }

  lemma WitnessPick(gts: seq<Annotation>, c: int, i: int, x: int, y: int)
    requires AllAlike(gts) && c in GtClasses(gts)
    ensures var o := Best(WitnessBox(i, x, y), gts, c);
      && o.iou == (if i == y then 1.0 else if i == x then 0.6 else 0.0)
      && (i == x || i == y ==> o.idx == Best(FULL, gts, c).idx)
  {
    if i == y {
      PickFull(gts, c);
    } else if i == x {
      PickPartial(gts, c);
    } else {
      PickFar(gts, c);
    }
  }

  // --------------------------------------------------- Marks of the witness

  /** One mark at `z`, none elsewhere; none at all when `z` is outside. */
  ghost predicate UnitAt(marks: seq<nat>, z: int) {
    forall m :: 0 <= m < |marks| ==> marks[m] == if m == z then 1 else 0
  }

  lemma UnitAppend(a: seq<nat>, b: seq<nat>, z: int)
    requires UnitAt(a, z) && UnitAt(b, z - |a|)
    ensures UnitAt(a + b, z)
  {
  }

  lemma WitnessOverlap(image: Image, c: int, x: int, y: int, k: nat)
    requires Sorted(image) && c in GtClasses(image.gts) && k < |OfClass(image.d, image.order, c)|
    ensures var (w, list) := (WitnessImage(image, x, y), OfClass(image.d, image.order, c));
      && InRange(list, |w.d|) && OfClass(w.d, w.order, c) == list
      && Overlaps(w.d, w.gts, c, list)[k] == Best(WitnessBox(list[k], x, y), w.gts, c)
      && AllAlike(w.gts) && GtClasses(w.gts) == GtClasses(image.gts)
  {
    var w := WitnessImage(image, x, y);
    WitnessSketch(image, x, y);
    SameList(w.d, image.d, image.order, c);
    assert GtClasses(w.gts) == GtClasses(image.gts);
  }

  /** In the image with the pair, only one entry is right: the partial one while it reaches the
      threshold, the full one afterwards. */
  lemma WitnessBlock(image: Image, c: int, i: nat, j: nat, t: real)
    requires Sorted(image) && c in GtClasses(image.gts) && i < j < |OfClass(image.d, image.order, c)| && 0.0 < t <= 1.0
    ensures var list := OfClass(image.d, image.order, c);
      var w := WitnessImage(image, list[i], list[j]);
      var marks := CategoryStats(w.d, w.gts, w.order, c, t).truePositive;
      |marks| == |list| && UnitAt(marks, if t <= 0.6 then i else j)
  {
    var list := OfClass(image.d, image.order, c);
    var w := WitnessImage(image, list[i], list[j]);
    OfClassMembers(image.d, image.order, c);
    WitnessOverlap(image, c, list[i], list[j], i);
    var overlaps := Overlaps(w.d, w.gts, c, list);
    forall k | 0 <= k < |list|
      ensures overlaps[k].iou == if k == j then 1.0 else if k == i then 0.6 else 0.0
      ensures k == i || k == j ==> overlaps[k].idx == Best(FULL, w.gts, c).idx
    {
      WitnessOverlap(image, c, list[i], list[j], k);
      WitnessPick(w.gts, c, list[k], list[i], list[j]);
    }
    PairMarks(overlaps, i, j, t);
  }

  lemma QuietMarks(overlaps: seq<Overlap>, t: real)
    requires t > 0.0 && forall k :: 0 <= k < |overlaps| ==> overlaps[k].iou == 0.0
    ensures UnitAt(TruePositives(overlaps, t), -1)
  {
  }

  /** No entry of the class is one of the pair. */
  ghost predicate Spared(image: Image, c: int, x: int, y: int)
    requires Sorted(image)
  {
    var list := OfClass(image.d, image.order, c);
    forall k :: 0 <= k < |list| ==> list[k] != x && list[k] != y
  }

  lemma WitnessQuietClass(image: Image, c: int, x: int, y: int, t: real)
    requires Sorted(image) && t > 0.0 && Spared(image, c, x, y) && c in GtClasses(image.gts)
    ensures var (w, list) := (WitnessImage(image, x, y), OfClass(image.d, image.order, c));
      && InRange(list, |w.d|) && OfClass(w.d, w.order, c) == list
      && UnitAt(TruePositives(Overlaps(w.d, w.gts, c, list), t), -1)
  {
    var w, list := WitnessImage(image, x, y), OfClass(image.d, image.order, c);
    WitnessSketch(image, x, y);
    SameList(w.d, image.d, image.order, c);
    var overlaps := Overlaps(w.d, w.gts, c, list);
    forall k | 0 <= k < |list| ensures overlaps[k].iou == 0.0 {
      WitnessOverlap(image, c, x, y, k);
      WitnessPick(w.gts, c, list[k], x, y);
    }
    QuietMarks(overlaps, t);
  }

  /** Then nothing is right. */
  lemma WitnessQuiet(image: Image, c: int, x: int, y: int, t: real)
    requires Sorted(image) && t > 0.0 && Spared(image, c, x, y)
    ensures var w := WitnessImage(image, x, y);
      Sorted(w) && UnitAt(CategoryStats(w.d, w.gts, w.order, c, t).truePositive, -1)
  {
    var w := WitnessImage(image, x, y);
    WitnessSketch(image, x, y);
    assert GtClasses(w.gts) == GtClasses(image.gts);
    if c in GtClasses(image.gts) {
      WitnessQuietClass(image, c, x, y, t);
    }
  }

  // ---------------------------------------------------- The witness batch

  /** The entry of the batch list that is right, if the batch holds image `b` at all. */
  ghost function RightEntry(images: seq<Image>, c: int, b: nat, i: nat, j: nat, t: real): int
    requires AllSorted(images)
  {
    if b < |images| then Offset(images, c, b) + (if t <= 0.6 then i else j) else -1
  }

  /** The pair stands at `i` and `j` of the block of image `b`. */
  ghost predicate IsPair(images: seq<Image>, c: int, b: nat, i: nat, j: nat, x: int, y: int)
    requires AllSorted(images)
  {
    b < |images| ==>
      && c in GtClasses(images[b].gts) && i < j < BlockSize(images[b], c)
      && x == OfClass(images[b].d, images[b].order, c)[i] && y == OfClass(images[b].d, images[b].order, c)[j]
  }

  lemma UnitOutside(marks: seq<nat>, z: int)
    requires UnitAt(marks, -1) && z < 0
    ensures UnitAt(marks, z)
  {
  }

  lemma {:induction false} RightBefore(images: seq<Image>, c: int, b: nat, i: nat, j: nat, t: real, n: nat)
    requires AllSorted(images) && n < |images| && b != n && n == |images| - 1
    requires b < |images| ==> i < j < BlockSize(images[b], c)
    ensures RightEntry(images, c, b, i, j, t) < Offset(images, c, n)
  {
    if b < n { BlockBelow(images, c, b, n); }
  }

  /** What the last image adds to the witness batch. */
  lemma {:induction false} WitnessLast(images: seq<Image>, c: int, b: nat, i: nat, j: nat, x: int, y: int, t: real)
    requires AllSorted(images) && images != [] && IsPair(images, c, b, i, j, x, y) && 0.0 < t <= 1.0
    ensures var (n, w) := (|images| - 1, WitnessImages(images, b, x, y)[|images| - 1]);
      && Sorted(w)
      && var marks := CategoryStats(w.d, w.gts, w.order, c, t).truePositive;
      UnitAt(marks, RightEntry(images, c, b, i, j, t) - Offset(images, c, n))
  {
    var n := |images| - 1;
    if b == n {
      WitnessSketch(images[n], x, y);
      WitnessBlock(images[n], c, i, j, t);
    } else {
      var w := WitnessImage(images[n], -1, -1);
      WitnessQuiet(images[n], c, -1, -1, t);
      RightBefore(images, c, b, i, j, t, n);
      UnitOutside(CategoryStats(w.d, w.gts, w.order, c, t).truePositive, RightEntry(images, c, b, i, j, t) - Offset(images, c, n));
    }
  }

  lemma {:induction false} RightEntryOfPrefix(images: seq<Image>, c: int, b: nat, i: nat, j: nat, t: real, n: nat)
    requires AllSorted(images) && n <= |images|
    ensures b < n ==> RightEntry(images[..n], c, b, i, j, t) == RightEntry(images, c, b, i, j, t)
    ensures b >= n ==> RightEntry(images[..n], c, b, i, j, t) == -1
    ensures b >= n && b < |images| ==> RightEntry(images, c, b, i, j, t) >= Offset(images, c, n)
    ensures b >= |images| ==> RightEntry(images, c, b, i, j, t) == -1
  {
    if b < n {
      OffsetOfPrefix(images, c, n, b);
    } else if b < |images| {
      OffsetsGrow(images, c, n, b);
    }
  }

  lemma {:induction false} WitnessLength(images: seq<Image>, c: int, b: nat, x: int, y: int, t: real)
    requires AllSorted(images)
    ensures AllSorted(WitnessImages(images, b, x, y))
    ensures |BatchStats(WitnessImages(images, b, x, y), c, t).truePositive| == Offset(images, c, |images|)
  {
    var w := WitnessImages(images, b, x, y);
    WitnessOutline(images, b, x, y);
    BatchLength(w, c, t);
    SameOffsets(w, images, c, |images|);
  }

  lemma {:induction false} WitnessBatch(images: seq<Image>, c: int, b: nat, i: nat, j: nat, x: int, y: int, t: real)
    requires AllSorted(images) && IsPair(images, c, b, i, j, x, y) && 0.0 < t <= 1.0
    ensures AllSorted(WitnessImages(images, b, x, y))
    ensures UnitAt(BatchStats(WitnessImages(images, b, x, y), c, t).truePositive, RightEntry(images, c, b, i, j, t))
  {
    WitnessLength(images, c, b, x, y, t);
    if images == [] {
      assert WitnessImages(images, b, x, y) == [];
    } else {
      WitnessBatch(images[..|images| - 1], c, b, i, j, x, y, t);
      WitnessStep(images, c, b, i, j, x, y, t);
    }
  }

  lemma {:induction false} WitnessStep(images: seq<Image>, c: int, b: nat, i: nat, j: nat, x: int, y: int, t: real)
    requires AllSorted(images) && images != [] && IsPair(images, c, b, i, j, x, y) && 0.0 < t <= 1.0
    requires AllSorted(WitnessImages(images, b, x, y)) && AllSorted(WitnessImages(images[..|images| - 1], b, x, y))
    requires var before := images[..|images| - 1];
      UnitAt(BatchStats(WitnessImages(before, b, x, y), c, t).truePositive, RightEntry(before, c, b, i, j, t))
    ensures UnitAt(BatchStats(WitnessImages(images, b, x, y), c, t).truePositive, RightEntry(images, c, b, i, j, t))
  {
    var n := |images| - 1;
    var w, w' := WitnessImages(images, b, x, y), WitnessImages(images[..n], b, x, y);
    assert w[..n] == w';
    var before, last := BatchStats(w', c, t).truePositive, CategoryStats(w[n].d, w[n].gts, w[n].order, c, t).truePositive;
    WitnessLast(images, c, b, i, j, x, y, t);
    WitnessLength(images[..n], c, b, x, y, t);
    OffsetOfPrefix(images, c, n, n);
    RightEntryOfPrefix(images, c, b, i, j, t, n);
    UnitBeyond(before, RightEntry(images[..n], c, b, i, j, t), RightEntry(images, c, b, i, j, t));
    UnitAppend(before, last, RightEntry(images, c, b, i, j, t));
    MarksAppended(w, c, t);
  }

  lemma MarksAppended(images: seq<Image>, c: int, t: real)
    requires AllSorted(images) && images != []
    ensures var (n, last) := (|images| - 1, images[|images| - 1]);
      BatchStats(images, c, t).truePositive ==
        BatchStats(images[..n], c, t).truePositive + CategoryStats(last.d, last.gts, last.order, c, t).truePositive
  {
  }

  lemma UnitBeyond(marks: seq<nat>, z: int, z': int)
    requires UnitAt(marks, z) && (z' == z || (z == -1 && z' >= |marks|))
    ensures UnitAt(marks, z')
  {
  }

  lemma {:induction false} BlockBelow(images: seq<Image>, c: int, b: nat, n: nat)
    requires AllSorted(images) && b < n <= |images|
    ensures Offset(images, c, b) + BlockSize(images[b], c) <= Offset(images, c, n)
  {
    OffsetsGrow(images, c, b + 1, n);
  }

  // ----------------------------------------------- An earlier hit is better

  lemma {:induction false} UnitCumulative(marks: seq<nat>, order: seq<nat>, pos: nat, k: nat)
    requires IsPermutation(order, |marks|) && pos < |order| && k <= |order| && UnitAt(marks, order[pos])
    ensures Cumulative(marks, order, k) == if pos < k then 1 else 0
  {
    if k > 0 { UnitCumulative(marks, order, pos, k - 1); }
  }

  lemma {:induction false} MaxPrecisionAtMost(p: seq<real>, r: seq<real>, point: real, n: nat, bound: real)
    requires |p| == |r| && n <= |p| && bound >= 0.0 && forall k :: 0 <= k < |p| ==> p[k] <= bound
    ensures MaxPrecision(p, r, point, n) <= bound
  {
    if n > 0 { MaxPrecisionAtMost(p, r, point, n - 1, bound); }
  }

  lemma {:induction false} MaxPrecisionAtLeast(p: seq<real>, r: seq<real>, point: real, n: nat, k: nat)
    requires |p| == |r| && k < n <= |p| && r[k] >= point
    ensures MaxPrecision(p, r, point, n) >= p[k]
  {
    if k < n - 1 { MaxPrecisionAtLeast(p, r, point, n - 1, k); }
  }

  /** Nowhere worse, and better at the first sample, is better. */
  lemma {:induction false} InterpolationStrict(p: seq<real>, r: seq<real>, p': seq<real>, r': seq<real>, interval: nat, n: nat)
    requires |p| == |r| == |p'| == |r'| && interval >= 2 && n > 0
    requires forall k :: 0 <= k < |p| ==> p[k] <= p'[k] && r[k] <= r'[k]
    requires MaxPrecision(p, r, SamplePoint(0, interval), |p|) < MaxPrecision(p', r', SamplePoint(0, interval), |p'|)
    ensures InterpolatedSum(p, r, interval, n) < InterpolatedSum(p', r', interval, n)
  {
    var point := SamplePoint(n - 1, interval);
    MaxPrecisionMonotone(p, r, p', r', point, |p|);
    QuotientMonotone(MaxPrecision(p, r, point, |p|), MaxPrecision(p', r', point, |p|), interval as real);
    if n > 1 { InterpolationStrict(p, r, p', r', interval, n - 1); }
  }

  lemma RankQuotients(p: nat, q: nat)
    requires p < q
    ensures 0.0 <= 1.0 / (q + 1) as real < 1.0 / (p + 1) as real
  {
    DivideLarger(1.0, (p + 1) as real, (q + 1) as real);
  }

  lemma UnitPrecisions(s: Stats, order: seq<nat>, pos: nat, k: nat)
    requires IsPermutation(order, |s.truePositive|) && pos < |order| && UnitAt(s.truePositive, order[pos]) && k < |order|
    ensures Precisions(s, order)[k] == if pos <= k then 1.0 / (k + 1) as real else 0.0
    ensures Precisions(s, order)[k] <= 1.0 / (pos + 1) as real
  {
    UnitCumulative(s.truePositive, order, pos, k + 1);
    if pos < k { RankQuotients(pos, k); } else { RankQuotients(pos, pos + 1); }
  }

  /** Of two classes with one hit each, the one that ranks it earlier scores more. */
  lemma EarlierHitWins(s: Stats, t: Stats, order: seq<nat>, p: nat, q: nat, interval: nat)
    requires IsPermutation(order, |s.truePositive|) && |s.truePositive| == |t.truePositive| && s.numGt == t.numGt > 0
    requires p < q < |order| && UnitAt(s.truePositive, order[q]) && UnitAt(t.truePositive, order[p]) && interval >= 2
    ensures ClassAp(s, order, interval) < ClassAp(t, order, interval)
  {
    forall k | 0 < k <= |order|
      ensures Cumulative(s.truePositive, order, k) <= Cumulative(t.truePositive, order, k)
    {
      UnitCumulative(s.truePositive, order, q, k);
      UnitCumulative(t.truePositive, order, p, k);
    }
    CurveMonotone(s, t, order);
    FirstSampleDiffers(s, t, order, p, q, interval);
    InterpolationStrict(Precisions(s, order), Recalls(s, order), Precisions(t, order), Recalls(t, order), interval, interval);
  }

  lemma LateHitAtMost(s: Stats, order: seq<nat>, q: nat, point: real)
    requires IsPermutation(order, |s.truePositive|) && s.numGt > 0 && q < |order| && UnitAt(s.truePositive, order[q])
    ensures MaxPrecision(Precisions(s, order), Recalls(s, order), point, |order|) <= 1.0 / (q + 1) as real
  {
    RankQuotients(q, q + 1);
    forall k | 0 <= k < |order| ensures Precisions(s, order)[k] <= 1.0 / (q + 1) as real {
      UnitPrecisions(s, order, q, k);
    }
    MaxPrecisionAtMost(Precisions(s, order), Recalls(s, order), point, |order|, 1.0 / (q + 1) as real);
  }

  lemma EarlyHitAtLeast(t: Stats, order: seq<nat>, p: nat)
    requires IsPermutation(order, |t.truePositive|) && t.numGt > 0 && p < |order| && UnitAt(t.truePositive, order[p])
    ensures MaxPrecision(Precisions(t, order), Recalls(t, order), 0.0, |order|) >= 1.0 / (p + 1) as real
  {
    UnitPrecisions(t, order, p, p);
    QuotientMonotone(0.0, Cumulative(t.truePositive, order, p + 1) as real, t.numGt as real);
    MaxPrecisionAtLeast(Precisions(t, order), Recalls(t, order), 0.0, |order|, p);
  }

  lemma FirstSampleDiffers(s: Stats, t: Stats, order: seq<nat>, p: nat, q: nat, interval: nat)
    requires IsPermutation(order, |s.truePositive|) && |s.truePositive| == |t.truePositive| && s.numGt == t.numGt > 0
    requires p < q < |order| && UnitAt(s.truePositive, order[q]) && UnitAt(t.truePositive, order[p]) && interval >= 2
    ensures MaxPrecision(Precisions(s, order), Recalls(s, order), SamplePoint(0, interval), |order|)
          < MaxPrecision(Precisions(t, order), Recalls(t, order), SamplePoint(0, interval), |order|)
  {
    assert SamplePoint(0, interval) == 0.0;
    RankQuotients(p, q);
    LateHitAtMost(s, order, q, 0.0);
    EarlyHitAtLeast(t, order, p);
  }

  // ---------------------------------------------------------------- Results

  lemma {:induction false} PresentCounts(images: seq<Image>, c: int, threshold: real, b: nat)
    requires AllSorted(images) && b < |images| && c in GtClasses(images[b].gts)
    ensures BatchStats(images, c, threshold).numGt > 0
  {
    var n := |images| - 1;
    if b < n {
      PresentCounts(images[..n], c, threshold, b);
    } else {
      CountPositive(GtClasses(images[n].gts), c);
    }
  }

  /** A reversed pair: two entries of one image that the batch order lists against the matching order. */
  ghost predicate Reversed(images: seq<Image>, c: int, order: seq<nat>, b: nat, p: nat, q: nat)
    requires AllSorted(images)
  {
    && b < |images| && p < q < |order| && InBlock(images, c, b, order[p]) && InBlock(images, c, b, order[q])
    && order[q] < order[p]
  }

  /** The two predictions behind a reversed pair. */
  lemma {:induction false} PairBehind(base: seq<Image>, c: int, order: seq<nat>, b: nat, p: nat, q: nat)
    returns (i: nat, j: nat, x: nat, y: nat)
    requires AllSorted(base) && Reversed(base, c, order, b, p, q)
    ensures i == order[q] - Offset(base, c, b) && j == order[p] - Offset(base, c, b)
    ensures IsPair(base, c, b, i, j, x, y)
    ensures x < |base[b].d| && y < |base[b].d| && base[b].d[x].cls == base[b].d[y].cls == c
  {
    var start, list := Offset(base, c, b), OfClass(base[b].d, base[b].order, c);
    i, j := order[q] - start, order[p] - start;
    x, y := list[i], list[j];
    OfClassMembers(base[b].d, base[b].order, c);
    assert x in list && y in list;
  }

  /** Placing the pair there makes the higher threshold the better one. */
  lemma {:induction false} ReversedPairRaises(base: seq<Image>, c: int, order: seq<nat>, interval: nat, b: nat, p: nat, q: nat)
    returns (images: seq<Image>, x: nat, y: nat)
    requires AllSorted(base) && Evaluable(BatchStats(base, c, 0.0), order) && interval >= 2
    requires Reversed(base, c, order, b, p, q)
    ensures images == WitnessImages(base, b, x, y) && SameOutline(images, base)
    ensures x < |base[b].d| && y < |base[b].d| && base[b].d[x].cls == base[b].d[y].cls == c
    ensures |BatchStats(images, c, 0.5).scores| > 0
    ensures Evaluable(BatchStats(images, c, 0.5), order) && Evaluable(BatchStats(images, c, 0.8), order)
    ensures ClassAp(BatchStats(images, c, 0.5), order, interval) < ClassAp(BatchStats(images, c, 0.8), order, interval)
  {
    var i, j;
    i, j, x, y := PairBehind(base, c, order, b, p, q);
    images := WitnessImages(base, b, x, y);
    WitnessOutline(base, b, x, y);
    WitnessBatch(base, c, b, i, j, x, y, 0.5);
    WitnessBatch(base, c, b, i, j, x, y, 0.8);
    PresentCounts(base, c, 0.0, b);
    LowLoses(images, base, c, order, interval, p, q);
  }

  lemma LowLoses(images: seq<Image>, base: seq<Image>, c: int, order: seq<nat>, interval: nat, p: nat, q: nat)
    requires SameOutline(images, base) && Evaluable(BatchStats(base, c, 0.0), order) && BatchStats(base, c, 0.0).numGt > 0
    requires interval >= 2 && p < q < |order|
    requires UnitAt(BatchStats(images, c, 0.5).truePositive, order[q])
    requires UnitAt(BatchStats(images, c, 0.8).truePositive, order[p])
    ensures |BatchStats(images, c, 0.5).scores| > 0
    ensures Evaluable(BatchStats(images, c, 0.5), order) && Evaluable(BatchStats(images, c, 0.8), order)
    ensures ClassAp(BatchStats(images, c, 0.5), order, interval) < ClassAp(BatchStats(images, c, 0.8), order, interval)
  {
    SameEvaluable(images, base, c, order, 0.5, 0.0);
    SameEvaluable(images, base, c, order, 0.8, 0.0);
    ThresholdKeepsScores(images, c, 0.5, 0.8);
    SameBatchScores(images, base, c, 0.5, 0.0);
    var s, t := BatchStats(images, c, 0.5), BatchStats(images, c, 0.8);
    assert IsPermutation(order, |s.truePositive|);
    EarlierHitWins(s, t, order, p, q, interval);
  }

  /** For all boxes and ground truths a higher threshold never raises the average precision. */
  ghost predicate ApAntitone(base: seq<Image>, c: int, order: seq<nat>, interval: nat) {
    forall images: seq<Image>, lo: real, hi: real :: SameOutline(images, base) && lo <= hi ==>
      ApFalls(images, c, order, interval, lo, hi)
  }

  /** Given the scores, classes, matching orders and annotated classes of a batch and the order
      its evaluation uses: for all boxes and ground truths a higher threshold never raises the
      average precision of the class, if and only if the evaluation lists the predictions of every
      image in matching order. Ties between images are harmless, and so are ties within an image
      that both sorts break alike. A single sample makes every score zero. */
  lemma ApAntitoneExactly(base: seq<Image>, c: int, order: seq<nat>, interval: nat)
    requires AllSorted(base) && Evaluable(BatchStats(base, c, 0.0), order)
    ensures ApAntitone(base, c, order, interval) <==> interval < 2 || Aligned(base, c, order)
  {
    if interval < 2 || Aligned(base, c, order) {
      forall images: seq<Image>, lo: real, hi: real | SameOutline(images, base) && lo <= hi
        ensures ApFalls(images, c, order, interval, lo, hi)
      {
        SameEvaluable(images, base, c, order, lo, 0.0);
        SameEvaluable(images, base, c, order, hi, 0.0);
        if Aligned(base, c, order) {
          SameAlignment(images, base, c, order);
          AlignedApFalls(images, c, order, interval, lo, hi);
        }
      }
    } else {
      var b: nat, p, q :| b < |base| && 0 <= p < q < |order|
        && InBlock(base, c, b, order[p]) && InBlock(base, c, b, order[q]) && order[p] >= order[q];
      EntryDiffers(order, |BatchStats(base, c, 0.0).scores|, p, q, base, c, b);
      var images, x, y := ReversedPairRaises(base, c, order, interval, b, p, q);
      assert !ApFalls(images, c, order, interval, 0.5, 0.8);
    }
  }

  lemma EntryDiffers(order: seq<nat>, n: nat, p: nat, q: nat, base: seq<Image>, c: int, b: nat)
    requires AllSorted(base) && b < |base| && p < q < |order| && InBlock(base, c, b, order[p])
    requires Evaluable(BatchStats(base, c, 0.0), order)
    ensures order[p] != order[q]
  {
    PresentCounts(base, c, 0.0, b);
  }

  // ---------------------------------------------------- The whole score

  lemma NoneAppend(a: seq<nat>, b: seq<nat>)
    requires UnitAt(a, -1) && UnitAt(b, -1)
    ensures UnitAt(a + b, -1)
  {
  }

  lemma {:induction false} OtherClassLast(images: seq<Image>, c: int, b: nat, x: int, y: int, t: real)
    requires AllSorted(images) && images != [] && t > 0.0 && (b < |images| ==> Spared(images[b], c, x, y))
    ensures var w := WitnessImages(images, b, x, y)[|images| - 1];
      Sorted(w) && UnitAt(CategoryStats(w.d, w.gts, w.order, c, t).truePositive, -1)
  {
    var n := |images| - 1;
    if b == n {
      WitnessQuiet(images[n], c, x, y, t);
    } else {
      WitnessQuiet(images[n], c, -1, -1, t);
    }
  }

  /** In every class but the pair's own, nothing in the witness is right. */
  lemma {:induction false} OtherClassQuiet(images: seq<Image>, c: int, b: nat, x: int, y: int, t: real)
    requires AllSorted(images) && t > 0.0
    requires b < |images| ==> Spared(images[b], c, x, y)
    ensures AllSorted(WitnessImages(images, b, x, y))
    ensures UnitAt(BatchStats(WitnessImages(images, b, x, y), c, t).truePositive, -1)
  {
    var w := WitnessImages(images, b, x, y);
    WitnessOutline(images, b, x, y);
    if images != [] {
      var n := |images| - 1;
      assert w[..n] == WitnessImages(images[..n], b, x, y);
      OtherClassQuiet(images[..n], c, b, x, y, t);
      OtherClassLast(images, c, b, x, y, t);
      NoneAppend(BatchStats(w[..n], c, t).truePositive, CategoryStats(w[n].d, w[n].gts, w[n].order, c, t).truePositive);
    }
  }

  lemma {:induction false} NothingCounted(marks: seq<nat>, order: seq<nat>, k: nat)
    requires InRange(order, |marks|) && k <= |order| && UnitAt(marks, -1)
    ensures Cumulative(marks, order, k) == 0
  {
    if k > 0 { NothingCounted(marks, order, k - 1); }
  }

  lemma {:induction false} ZeroInterpolation(p: seq<real>, r: seq<real>, interval: nat, n: nat)
    requires |p| == |r| && forall k :: 0 <= k < |p| ==> p[k] == 0.0
    ensures InterpolatedSum(p, r, interval, n) == 0.0
  {
    if n > 0 && interval >= 2 {
      var point := SamplePoint(n - 1, interval);
      ZeroInterpolation(p, r, interval, n - 1);
      MaxPrecisionAtMost(p, r, point, |p|, 0.0);
      MaxPrecisionMonotone(p, r, p, r, point, |p|);
    }
  }

  lemma NothingRightScoresZero(s: Stats, order: seq<nat>, interval: nat)
    requires Evaluable(s, order) && UnitAt(s.truePositive, -1)
    ensures ClassAp(s, order, interval) == 0.0
  {
    if s.numGt > 0 {
      forall k | 0 <= k < |order| ensures Precisions(s, order)[k] == 0.0 {
        NothingCounted(s.truePositive, order, k + 1);
      }
      ZeroInterpolation(Precisions(s, order), Recalls(s, order), interval, interval);
    }
  }

  lemma {:induction false} OtherClassSpared(image: Image, c: int, e: int, x: nat, y: nat)
    requires Sorted(image) && x < |image.d| && y < |image.d| && image.d[x].cls == image.d[y].cls == c && e != c
    ensures Spared(image, e, x, y)
  {
    OfClassMembers(image.d, image.order, e);
    var list := OfClass(image.d, image.order, e);
    forall k | 0 <= k < |list| ensures list[k] != x && list[k] != y {
      assert list[k] in list;
    }
  }

  /** Every class but one stays at zero and that one rises, so the score does. */
  lemma WitnessScoreRises(base: seq<Image>, n: nat, orders: seq<seq<nat>>, interval: nat, c: nat, b: nat, p: nat, q: nat)
    returns (images: seq<Image>)
    requires AllSorted(base) && Orders(AllClasses(base, n, 0.0), orders) && interval >= 2
    requires c < n && Reversed(base, c, orders[c], b, p, q)
    ensures SameOutline(images, base) && !ScoreFalls(images, n, orders, interval, 0.5, 0.8)
  {
    assert Evaluable(AllClasses(base, n, 0.0)[c], orders[c]);
    var x, y;
    images, x, y := ReversedPairRaises(base, c, orders[c], interval, b, p, q);
    forall e | 0 <= e < n
      ensures NoBetterClass(BatchStats(images, e, 0.5), BatchStats(images, e, 0.8), orders[e], orders[e], interval)
    {
      WitnessClass(base, images, n, orders, interval, c, b, x, y, e);
    }
    OneClassRises(images, n, orders, interval, c);
  }

  lemma OneClassRises(images: seq<Image>, n: nat, orders: seq<seq<nat>>, interval: nat, c: nat)
    requires AllSorted(images) && |orders| == n && c < n
    requires forall e :: 0 <= e < n ==>
      NoBetterClass(BatchStats(images, e, 0.5), BatchStats(images, e, 0.8), orders[e], orders[e], interval)
    requires WorseClass(BatchStats(images, c, 0.5), BatchStats(images, c, 0.8), orders[c], orders[c], interval)
    ensures !ScoreFalls(images, n, orders, interval, 0.5, 0.8)
  {
    var s, t := AllClasses(images, n, 0.5), AllClasses(images, n, 0.8);
    assert NoBetter(s, t, orders, orders, interval);
    EvaluateStrict(s, t, orders, orders, interval, c);
  }

  lemma WitnessClass(base: seq<Image>, images: seq<Image>, n: nat, orders: seq<seq<nat>>, interval: nat,
                     c: nat, b: nat, x: nat, y: nat, e: nat)
    requires AllSorted(base) && Orders(AllClasses(base, n, 0.0), orders) && c < n && e < n && b < |base|
    requires images == WitnessImages(base, b, x, y) && SameOutline(images, base)
    requires x < |base[b].d| && y < |base[b].d| && base[b].d[x].cls == base[b].d[y].cls == c
    requires Evaluable(BatchStats(images, c, 0.5), orders[c]) && Evaluable(BatchStats(images, c, 0.8), orders[c])
    requires ClassAp(BatchStats(images, c, 0.5), orders[c], interval) < ClassAp(BatchStats(images, c, 0.8), orders[c], interval)
    ensures NoBetterClass(BatchStats(images, e, 0.5), BatchStats(images, e, 0.8), orders[e], orders[e], interval)
  {
    ThresholdKeepsScores(images, e, 0.5, 0.8);
    if e != c {
      assert Evaluable(AllClasses(base, n, 0.0)[e], orders[e]);
      SameEvaluable(images, base, e, orders[e], 0.5, 0.0);
      SameEvaluable(images, base, e, orders[e], 0.8, 0.0);
      OtherClassSpared(base[b], c, e, x, y);
      OtherClassQuiet(base, e, b, x, y, 0.5);
      OtherClassQuiet(base, e, b, x, y, 0.8);
      NothingRightScoresZero(BatchStats(images, e, 0.5), orders[e], interval);
      NothingRightScoresZero(BatchStats(images, e, 0.8), orders[e], interval);
    }
  }

  /** For all boxes and ground truths a higher threshold never raises the score. */
  ghost predicate ScoreAntitone(base: seq<Image>, n: nat, orders: seq<seq<nat>>, interval: nat) {
    forall images: seq<Image>, lo: real, hi: real :: SameOutline(images, base) && lo <= hi ==>
      ScoreFalls(images, n, orders, interval, lo, hi)
  }

  /** The same for the score of the whole batch: for all boxes and ground truths a higher
      threshold never raises it, if and only if every class is listed in matching order. */
  lemma ScoreAntitoneExactly(base: seq<Image>, n: nat, orders: seq<seq<nat>>, interval: nat)
    requires AllSorted(base) && Orders(AllClasses(base, n, 0.0), orders)
    ensures ScoreAntitone(base, n, orders, interval)
            <==> interval < 2 || forall c :: 0 <= c < n ==> Aligned(base, c, orders[c])
  {
    if interval < 2 || forall c :: 0 <= c < n ==> Aligned(base, c, orders[c]) {
      forall images: seq<Image>, lo: real, hi: real | SameOutline(images, base) && lo <= hi
        ensures ScoreFalls(images, n, orders, interval, lo, hi)
      {
        ScoreFallsForAll(base, images, n, orders, interval, lo, hi);
      }
    } else {
      var c: nat :| c < n && !Aligned(base, c, orders[c]);
      assert Evaluable(AllClasses(base, n, 0.0)[c], orders[c]);
      var b: nat, p, q :| b < |base| && 0 <= p < q < |orders[c]|
        && InBlock(base, c, b, orders[c][p]) && InBlock(base, c, b, orders[c][q]) && orders[c][p] >= orders[c][q];
      EntryDiffers(orders[c], |BatchStats(base, c, 0.0).scores|, p, q, base, c, b);
      var images := WitnessScoreRises(base, n, orders, interval, c, b, p, q);
    }
  }

  lemma ScoreFallsForAll(base: seq<Image>, images: seq<Image>, n: nat, orders: seq<seq<nat>>, interval: nat, lo: real, hi: real)
    requires AllSorted(base) && Orders(AllClasses(base, n, 0.0), orders) && SameOutline(images, base) && lo <= hi
    requires interval < 2 || forall c :: 0 <= c < n ==> Aligned(base, c, orders[c])
    ensures ScoreFalls(images, n, orders, interval, lo, hi)
  {
    var s, t := AllClasses(images, n, hi), AllClasses(images, n, lo);
    forall c | 0 <= c < n ensures NoBetterClass(s[c], t[c], orders[c], orders[c], interval) {
      assert Evaluable(AllClasses(base, n, 0.0)[c], orders[c]);
      SameEvaluable(images, base, c, orders[c], lo, 0.0);
      SameEvaluable(images, base, c, orders[c], hi, 0.0);
      ThresholdKeepsScores(images, c, lo, hi);
      if Aligned(base, c, orders[c]) {
        SameAlignment(images, base, c, orders[c]);
        AlignedApFalls(images, c, orders[c], interval, lo, hi);
      }
    }
    EvaluateCompares(s, t, orders, orders, interval);
  }

  /** One sort that turns ties round is enough: both sorts get the same two keys and answer alike. */
  lemma TiesCanRaiseTheScore(base: Image, c: int, order: seq<nat>, interval: nat) returns (images: seq<Image>)
    requires |base.d| == 2 && base.d[0].score == base.d[1].score && base.d[0].cls == base.d[1].cls == c
    requires c in GtClasses(base.gts) && base.order == order == [1, 0] && interval >= 2
    ensures Sorted(base) && SameOutline(images, [base])
    ensures images[0].order == order && DetectionScores(images[0].d) == DetectionScores(base.d)
         == BatchStats(images, c, 0.5).scores == BatchStats(images, c, 0.8).scores
    ensures Evaluable(BatchStats(images, c, 0.5), order) && Evaluable(BatchStats(images, c, 0.8), order)
    ensures ClassAp(BatchStats(images, c, 0.5), order, interval) < ClassAp(BatchStats(images, c, 0.8), order, interval)
  {
    TiedPair(base, c, order);
    var x, y;
    images, x, y := ReversedPairRaises([base], c, order, interval, 0, 0, 1);
    SameBatchScores(images, [base], c, 0.5, 0.0);
    SameBatchScores(images, [base], c, 0.8, 0.0);
    assert SameInput(images[0], [base][0]);
  }

  lemma TiedOrder(order: seq<nat>, scores: seq<real>)
    requires |scores| == 2 && scores[0] == scores[1] && order == [1, 0]
    ensures IsArgsort(order, scores)
  {
    forall i: nat | i < 2 ensures i in order { assert order[0] == i || order[1] == i; }
  }

  lemma TiedList(d: seq<Detection>, order: seq<nat>, c: int)
    requires |d| == 2 && d[0].cls == d[1].cls == c && order == [1, 0]
    ensures OfClass(d, order, c) == order
  {
    var first := order[..1];
    assert first[..0] == [] && OfClass(d, first, c) == [1];
  }

  lemma OneImage(base: Image, c: int, t: real)
    requires Sorted(base) && c in GtClasses(base.gts)
    ensures BatchStats([base], c, t).scores == ScoresOf(base.d, OfClass(base.d, base.order, c))
    ensures Offset([base], c, 0) == 0 && BlockSize([base][0], c) == |OfClass(base.d, base.order, c)|
  {
    assert [base][..0] == [];
  }

  lemma TiedPair(base: Image, c: int, order: seq<nat>)
    requires |base.d| == 2 && base.d[0].score == base.d[1].score && base.d[0].cls == base.d[1].cls == c
    requires c in GtClasses(base.gts) && base.order == order == [1, 0]
    ensures Sorted(base) && AllSorted([base])
    ensures BatchStats([base], c, 0.0).scores == DetectionScores(base.d)
    ensures Evaluable(BatchStats([base], c, 0.0), order) && Reversed([base], c, order, 0, 0, 1)
  {
    TiedOrder(base.order, DetectionScores(base.d));
    TiedList(base.d, base.order, c);
    OneImage(base, c, 0.0);
    BatchWellFormed([base], c, 0.0);
    TiedOrder(order, BatchStats([base], c, 0.0).scores);
  }
}
