/** The parallel arrays of one image's predictions, and suppression on them in place. */
module Predictions {
  import opened Boxes
  import opened Lists
  import opened Sorting
  import opened Suppression

  class PredictionEntry {
    var xMax: seq<real>
    var xMin: seq<real>
    var yMax: seq<real>
    var yMin: seq<real>
    var clsScore: seq<real>
    var cls: seq<int>
    var size: nat

    /** All six arrays have `size` entries. */
    ghost predicate Valid()
      reads this
    {
      size == |xMax| == |xMin| == |yMax| == |yMin| == |clsScore| == |cls|
    }

    function BoxAt(idx: nat): (b: Box)
      requires idx < |xMax| && idx < |xMin| && idx < |yMax| && idx < |yMin|
      reads this
    {
      Box(xMax[idx], xMin[idx], yMax[idx], yMin[idx])
    }

    ghost function Detections(): (d: seq<Detection>)
      requires Valid()
      reads this
      ensures |d| == size
    {
      Zip(xMax, xMin, yMax, yMin, clsScore, cls)
    }

    lemma DetectionFields(i: nat)
      requires Valid() && i < size
      ensures var d := Detections()[i];
        && d.box.xMin == xMin[i] && d.box.xMax == xMax[i] && d.box.yMin == yMin[i] && d.box.yMax == yMax[i]
        && d.score == clsScore[i] && d.cls == cls[i]
    {
    }
  }

  function Zip(xMax: seq<real>, xMin: seq<real>, yMax: seq<real>, yMin: seq<real>,
               clsScore: seq<real>, cls: seq<int>): (d: seq<Detection>)
    requires |xMax| == |xMin| == |yMax| == |yMin| == |clsScore| == |cls|
  {
    seq(|cls|, i requires 0 <= i < |cls| => Detection(Box(xMax[i], xMin[i], yMax[i], yMin[i]), clsScore[i], cls[i]))
  }

  lemma PickZip(xMax: seq<real>, xMin: seq<real>, yMax: seq<real>, yMin: seq<real>,
                clsScore: seq<real>, cls: seq<int>, at: seq<nat>)
    requires |xMax| == |xMin| == |yMax| == |yMin| == |clsScore| == |cls| && InRange(at, |cls|)
    ensures Pick(Zip(xMax, xMin, yMax, yMin, clsScore, cls), at)
         == Zip(Pick(xMax, at), Pick(xMin, at), Pick(yMax, at), Pick(yMin, at), Pick(clsScore, at), Pick(cls, at))
  {
  }

  function Complement(n: nat, drop: seq<nat>): set<nat> {
    set i: nat | i < n && i !in drop
  }

  lemma PickErase<T>(s: seq<T>, at: seq<nat>, p: nat)
    requires InRange(at, |s|) && p < |at|
    ensures Pick(s, at)[..p] + Pick(s, at)[p + 1..] == Pick(s, at[..p] + at[p + 1..])
  {
  }

  /** Erases the listed positions from the back to the front. */
  method ReduceByIndex<T>(vec: seq<T>, indices: seq<nat>) returns (r: seq<T>)
    requires Distinct(indices) && InRange(indices, |vec|)
    ensures r == Pick(vec, Positions(|vec|, Complement(|vec|, indices)))
  {
    var sorted := SortAscending(indices);
    forall k | 0 <= k < |sorted| ensures sorted[k] < |vec| { assert sorted[k] in sorted; }
    r := vec;
    var k := |sorted|;
    PositionsOfAll(|vec|, Complement(|vec|, sorted[k..]));
    while k > 0
      invariant 0 <= k <= |sorted|
      invariant r == Pick(vec, Positions(|vec|, Complement(|vec|, sorted[k..])))
    {
      k := k - 1;
      ghost var at := Positions(|vec|, Complement(|vec|, sorted[k + 1..]));
      EraseListed(|vec|, sorted, k);
      PickErase(vec, at, sorted[k]);
      r := r[..sorted[k]] + r[sorted[k] + 1..];
    }
    PositionsAgree(|vec|, Complement(|vec|, sorted[0..]), Complement(|vec|, indices));
  }

  lemma EraseListed(n: nat, sorted: seq<nat>, k: nat)
    requires Ascending(sorted) && InRange(sorted, n) && k < |sorted|
    ensures var at := Positions(n, Complement(n, sorted[k + 1..]));
            && |at| > sorted[k]
            && at[..sorted[k]] + at[sorted[k] + 1..] == Positions(n, Complement(n, sorted[k..]))
  {
    var keep := Complement(n, sorted[k + 1..]);
    EraseOne(n, keep, sorted[k]);
    assert sorted[k..] == [sorted[k]] + sorted[k + 1..];
    PositionsAgree(n, keep - {sorted[k]}, Complement(n, sorted[k..]));
  }

  /** The entries of `order` from `from` on that are not flagged. */
  function Alive(order: seq<nat>, flags: seq<bool>): (r: seq<nat>)
    requires InRange(order, |flags|)
    ensures InRange(r, |flags|)
  {
    if order == [] then []
    else (if flags[order[0]] then [] else [order[0]]) + Alive(order[1..], flags)
  }

  lemma {:induction false} AliveUnflagged(order: seq<nat>, flags: seq<bool>)
    requires InRange(order, |flags|) && forall k :: 0 <= k < |order| ==> !flags[order[k]]
    ensures Alive(order, flags) == order
  {
    if order != [] { AliveUnflagged(order[1..], flags); }
  }

  /** Flagging what `best` suppresses filters the entries still alive. */
  lemma {:induction false} AliveAfterFlagging(d: seq<Detection>, threshold: real, best: nat, order: seq<nat>,
                                               before: seq<bool>, after: seq<bool>)
    requires best < |d| && |before| == |after| == |d| && InRange(order, |d|)
    requires forall k :: 0 <= k < |order| ==>
               (after[order[k]] <==> before[order[k]] || Suppresses(d[best], d[order[k]], threshold))
    ensures Alive(order, after) == Survivors(d, threshold, best, Alive(order, before))
  {
    if order != [] {
      var tail := Alive(order[1..], before);
      AliveAfterFlagging(d, threshold, best, order[1..], before, after);
      if before[order[0]] {
        assert Alive(order, before) == tail;
      } else {
        assert Alive(order, before) == [order[0]] + tail;
        assert ([order[0]] + tail)[1..] == tail;
      }
    }
  }

  /** Keeping the box at `order[i]` and flagging what it suppresses is one greedy step. */
  lemma GreedyStep(d: seq<Detection>, threshold: real, order: seq<nat>, i: nat, before: seq<bool>, after: seq<bool>)
    requires |before| == |after| == |d| && InRange(order, |d|) && i < |order|
    requires !before[order[i]]
    requires forall k :: i < k < |order| ==>
               (after[order[k]] <==> before[order[k]] || Suppresses(d[order[i]], d[order[k]], threshold))
    ensures Greedy(d, threshold, Alive(order[i..], before))
         == [order[i]] + Greedy(d, threshold, Alive(order[i + 1..], after))
  {
    var rest := order[i + 1..];
    AliveAfterFlagging(d, threshold, order[i], rest, before, after);
    assert order[i..][1..] == rest;
    var alive := Alive(order[i..], before);
    assert alive == [order[i]] + Alive(rest, before);
    assert alive[1..] == Alive(rest, before);
  }

  /** The inner loop: flags what the box at `order[i]` suppresses further down the list. */
  method FlagOverlaps(prediction: PredictionEntry, order: seq<nat>, i: nat, threshold: real, before: seq<bool>)
    returns (suppressed: seq<bool>)
    requires prediction.Valid() && IsPermutation(order, prediction.size)
    requires |before| == prediction.size && i < |order| && !before[order[i]]
    ensures |suppressed| == |before|
    ensures forall k :: 0 <= k <= i ==> suppressed[order[k]] == before[order[k]]
    ensures Greedy(prediction.Detections(), threshold, Alive(order[i..], before))
         == [order[i]] + Greedy(prediction.Detections(), threshold, Alive(order[i + 1..], suppressed))
  {
    suppressed := before;
    var idx := order[i];
    for j := i + 1 to |order|
      invariant |suppressed| == |before|
      invariant forall k :: 0 <= k < |order| ==>
                  (suppressed[order[k]] <==>
                   before[order[k]]
                   || (i < k < j && Suppresses(prediction.Detections()[idx], prediction.Detections()[order[k]], threshold)))
    {
      var other := order[j];
      if !suppressed[other] && prediction.cls[idx] == prediction.cls[other] {
        var iou := Iou(prediction.BoxAt(idx), prediction.BoxAt(other));
        if iou > threshold {
          suppressed := suppressed[other := true];
        }
      }
    }
    GreedyStep(prediction.Detections(), threshold, order, i, before, suppressed);
  }

  /** After `order[..i]`: what is flagged was not kept, and the marks name what was kept. */
  ghost predicate MarksAgree(order: seq<nat>, i: nat, keep: seq<nat>, isKeep: seq<bool>, suppressed: seq<bool>)
    requires i <= |order| && |suppressed| == |isKeep| && IsPermutation(order, |isKeep|)
  {
    && InRange(keep, |isKeep|)
    && (forall k :: 0 <= k < i ==> (suppressed[order[k]] <==> !isKeep[order[k]]))
    && (forall k :: i <= k < |order| ==> !isKeep[order[k]])
    && (forall x: nat :: x < |isKeep| ==> (isKeep[x] <==> x in keep))
  }

  lemma MarkOne(order: seq<nat>, i: nat, keep: seq<nat>, isKeep: seq<bool>, before: seq<bool>, after: seq<bool>)
    requires i < |order| && |before| == |after| == |isKeep| && IsPermutation(order, |isKeep|)
    requires MarksAgree(order, i, keep, isKeep, before) && !before[order[i]]
    requires forall k :: 0 <= k <= i ==> after[order[k]] == before[order[k]]
    ensures MarksAgree(order, i + 1, keep + [order[i]], isKeep[order[i] := true], after)
  {
    var marks := isKeep[order[i] := true];
    forall x: nat | x < |marks| ensures marks[x] <==> x in keep + [order[i]] {}
    forall k | 0 <= k < |order| && k != i ensures marks[order[k]] == isKeep[order[k]] {}
  }

  /** The scan has dealt with `order[..i]`. */
  ghost predicate Scanned(d: seq<Detection>, threshold: real, order: seq<nat>, i: nat,
                          keep: seq<nat>, isKeep: seq<bool>, suppressed: seq<bool>)
    requires IsPermutation(order, |d|) && i <= |order|
  {
    && |suppressed| == |isKeep| == |d|
    && MarksAgree(order, i, keep, isKeep, suppressed)
    && Greedy(d, threshold, order) == keep + Greedy(d, threshold, Alive(order[i..], suppressed))
  }

  lemma ScanSkips(d: seq<Detection>, threshold: real, order: seq<nat>, i: nat,
                  keep: seq<nat>, isKeep: seq<bool>, suppressed: seq<bool>)
    requires IsPermutation(order, |d|) && i < |order|
    requires Scanned(d, threshold, order, i, keep, isKeep, suppressed) && suppressed[order[i]]
    ensures Scanned(d, threshold, order, i + 1, keep, isKeep, suppressed)
  {
    assert order[i..][1..] == order[i + 1..];
    assert Alive(order[i..], suppressed) == Alive(order[i + 1..], suppressed);
  }

  /** Keeping `order[i]` moves it from what is still to come to what is kept. */
  lemma ScanKeeps(order: seq<nat>, i: nat, keep: seq<nat>, isKeep: seq<bool>, before: seq<bool>, after: seq<bool>,
                  all: seq<nat>, rest: seq<nat>)
    requires |before| == |after| == |isKeep| && IsPermutation(order, |isKeep|) && i < |order|
    requires MarksAgree(order, i, keep, isKeep, before) && !before[order[i]]
    requires forall k :: 0 <= k <= i ==> after[order[k]] == before[order[k]]
    requires all == keep + ([order[i]] + rest)
    ensures MarksAgree(order, i + 1, keep + [order[i]], isKeep[order[i] := true], after)
    ensures all == (keep + [order[i]]) + rest
  {
    MarkOne(order, i, keep, isKeep, before, after);
  }

  lemma ScanEnds(d: seq<Detection>, threshold: real, order: seq<nat>,
                 keep: seq<nat>, isKeep: seq<bool>, suppressed: seq<bool>)
    requires IsPermutation(order, |d|)
    requires Scanned(d, threshold, order, |order|, keep, isKeep, suppressed)
    ensures keep == Greedy(d, threshold, order)
    ensures forall i: nat :: i < |d| ==> (isKeep[i] <==> i in keep) && (suppressed[i] <==> i !in keep)
  {
    assert Alive(order[|order|..], suppressed) == [];
    assert keep + [] == keep;
    forall i: nat | i < |d| ensures suppressed[i] <==> i !in keep {
      assert i in order;
      var k :| 0 <= k < |order| && order[k] == i;
    }
  }

  /** The scan over the sorted list: what is kept, and what ends up flagged. */
  method Scan(prediction: PredictionEntry, order: seq<nat>, threshold: real)
    returns (keep: seq<nat>, isKeep: seq<bool>, suppressed: seq<bool>)
    requires prediction.Valid() && IsPermutation(order, prediction.size)
    ensures keep == Greedy(prediction.Detections(), threshold, order)
    ensures |suppressed| == |isKeep| == prediction.size
    ensures forall i: nat :: i < prediction.size ==> (isKeep[i] <==> i in keep) && (suppressed[i] <==> i !in keep)
  {
    ghost var d := prediction.Detections();
    keep := [];
    isKeep := seq(prediction.size, _ => false);
    suppressed := seq(prediction.size, _ => false);
    AliveUnflagged(order[0..], suppressed);
    assert order[0..] == order;
    assert keep + Greedy(d, threshold, order) == Greedy(d, threshold, order);
    for i := 0 to |order|
      invariant Scanned(d, threshold, order, i, keep, isKeep, suppressed)
    {
      var idx := order[i];
      if suppressed[idx] {
        ScanSkips(d, threshold, order, i, keep, isKeep, suppressed);
      } else {
        var flagged := FlagOverlaps(prediction, order, i, threshold, suppressed);
        ScanKeeps(order, i, keep, isKeep, suppressed, flagged, Greedy(d, threshold, order),
                  Greedy(d, threshold, Alive(order[i + 1..], flagged)));
        keep, isKeep, suppressed := keep + [idx], isKeep[idx := true], flagged;
      }
    }
    ScanEnds(d, threshold, order, keep, isKeep, suppressed);
  }

  /** Unmarks what the cap cuts off. */
  method Limit(keep: seq<nat>, isKeep: seq<bool>, cap: nat) returns (capped: seq<nat>, marks: seq<bool>)
    requires Distinct(keep) && InRange(keep, |isKeep|)
    requires forall i: nat :: i < |isKeep| ==> (isKeep[i] <==> i in keep)
    ensures capped == Capped(keep, cap)
    ensures |marks| == |isKeep| && forall i: nat :: i < |marks| ==> (marks[i] <==> i in capped)
  {
    capped, marks := keep, isKeep;
    if |keep| > cap {
      for k := cap to |keep|
        invariant |marks| == |isKeep|
        invariant forall i: nat :: i < |marks| ==> (marks[i] <==> i in keep && i !in keep[cap..k])
      {
        assert keep[cap..k + 1] == keep[cap..k] + [keep[k]];
        marks := marks[keep[k] := false];
      }
      capped := keep[..cap];
      assert keep[cap..|keep|] == keep[cap..];
      assert keep == capped + keep[cap..];
      forall i: nat | i in capped ensures i !in keep[cap..] {}
    }
  }

  method Discarded(suppressed: seq<bool>, isKeep: seq<bool>) returns (discard: seq<nat>)
    requires |suppressed| == |isKeep|
    ensures Ascending(discard) && InRange(discard, |suppressed|)
    ensures forall k: nat :: k in discard <==> k < |suppressed| && (suppressed[k] || !isKeep[k])
  {
    discard := [];
    for i := 0 to |suppressed|
      invariant Ascending(discard) && InRange(discard, i)
      invariant forall k: nat :: k in discard <==> k < i && (suppressed[k] || !isKeep[k])
    {
      if suppressed[i] {
        discard := discard + [i];
      } else if !isKeep[i] {
        discard := discard + [i];
      }
    }
  }

  /** Suppression in place: which order the sort chose is the ghost result. */
  method Nms(prediction: PredictionEntry, threshold: real, maxDetections: nat) returns (ghost order: seq<nat>)
    requires prediction.Valid()
    modifies prediction
    ensures prediction.Valid()
    ensures IsArgsort(order, old(prediction.clsScore))
    ensures prediction.Detections() == Suppressed(old(prediction.Detections()), threshold, maxDetections, order)
  {
    ghost var d := prediction.Detections();
    if prediction.size == 0 {
      order := [];
      return;
    }
    var byScore := ArgsortDescending(prediction.clsScore);
    order := byScore;
    var keep, isKeep, suppressed := Scan(prediction, byScore, threshold);
    GreedySubsequence(d, threshold, order);
    keep, isKeep := Limit(keep, isKeep, maxDetections);
    var discard := Discarded(suppressed, isKeep);
    Erase(prediction, discard);
    PositionsAgree(|d|, Complement(|d|, discard), set i | i in keep);
  }

  /** The same positions leave all six arrays. */
  method Erase(prediction: PredictionEntry, discard: seq<nat>)
    requires prediction.Valid()
    requires Ascending(discard) && InRange(discard, prediction.size)
    modifies prediction
    ensures prediction.Valid()
    ensures prediction.Detections()
         == Pick(old(prediction.Detections()), Positions(old(prediction.size), Complement(old(prediction.size), discard)))
  {
    PositionCount(prediction.size, discard);
    ghost var at := Positions(prediction.size, Complement(prediction.size, discard));
    PickZip(prediction.xMax, prediction.xMin, prediction.yMax, prediction.yMin, prediction.clsScore, prediction.cls, at);
    var xMax := ReduceByIndex(prediction.xMax, discard);
    var xMin := ReduceByIndex(prediction.xMin, discard);
    var yMax := ReduceByIndex(prediction.yMax, discard);
    var yMin := ReduceByIndex(prediction.yMin, discard);
    var clsScore := ReduceByIndex(prediction.clsScore, discard);
    var cls := ReduceByIndex(prediction.cls, discard);
    prediction.xMax, prediction.xMin, prediction.yMax, prediction.yMin := xMax, xMin, yMax, yMin;
    prediction.clsScore, prediction.cls := clsScore, cls;
    prediction.size := prediction.size - |discard|;
  }

  lemma LargestDropped(n: nat, drop: seq<nat>)
    requires Ascending(drop) && InRange(drop, n + 1) && n in drop
    ensures |drop| > 0 && Ascending(drop[..|drop| - 1]) && InRange(drop[..|drop| - 1], n)
    ensures forall i: nat :: i < n ==> (i in drop <==> i in drop[..|drop| - 1])
  {
    var last := |drop| - 1;
    var k :| 0 <= k < |drop| && drop[k] == n;
    assert drop[k] <= drop[last];
    assert drop == drop[..last] + [n];
  }

  lemma {:induction false} PositionCount(n: nat, drop: seq<nat>)
    requires Ascending(drop) && InRange(drop, n)
    ensures |Positions(n, Complement(n, drop))| + |drop| == n
  {
    if drop == [] {
      PositionsOfAll(n, Complement(n, drop));
    } else {
      assert drop[0] < n;
      var drop' := if n - 1 in drop then drop[..|drop| - 1] else drop;
      if n - 1 in drop {
        LargestDropped(n - 1, drop);
      } else {
        forall k | 0 <= k < |drop| ensures drop[k] < n - 1 { assert drop[k] in drop; }
      }
      PositionCount(n - 1, drop');
      PositionsAgree(n - 1, Complement(n, drop), Complement(n - 1, drop'));
    }
  }
}
