/** Top-1 and top-5 hits of a classification batch. */
module TopResults {
  import opened Arithmetic
  import opened Lists
  import opened Sorting

  datatype Guess = Guess(id: nat, score: real)

  const TOP: nat := 5

  function TopCount(classes: nat): nat { if TOP < classes then TOP else classes }

  // ------------------------------------------------------------ Specification

  /** Distinct labels below `n`, each with its own score. */
  ghost predicate Guesses(top: seq<Guess>, scores: seq<real>, n: nat) {
    && n <= |scores|
    && (forall j :: 0 <= j < |top| ==> top[j].id < n && top[j].score == scores[top[j].id])
    && forall j, k :: 0 <= j < k < |top| ==> top[j].id != top[k].id
  }

  ghost predicate Selected(top: seq<Guess>, id: nat) {
    exists j :: 0 <= j < |top| && top[j].id == id
  }

  /** As many guesses as asked for, and nothing left out scores more than anything taken. */
  ghost predicate IsTop(top: seq<Guess>, scores: seq<real>, n: nat, k: nat) {
    && Guesses(top, scores, n) && |top| == k
    && forall i: nat, j :: i < n && 0 <= j < |top| && !Selected(top, i) ==> scores[i] <= top[j].score
  }

  ghost predicate Descends(top: seq<Guess>) {
    forall j, k :: 0 <= j < k < |top| ==> top[j].score >= top[k].score
  }

  // ---------------------------------------------------------------- Selection

  /** The position of the first smallest score. */
  method FirstMinimum(top: seq<Guess>) returns (at: nat)
    requires |top| > 0
    ensures at < |top|
    ensures forall j :: 0 <= j < |top| ==> top[at].score <= top[j].score
    ensures forall j :: 0 <= j < at ==> top[at].score < top[j].score
  {
    at := 0;
    for j := 1 to |top|
      invariant at < j
      invariant forall i :: 0 <= i < j ==> top[at].score <= top[i].score
      invariant forall i :: 0 <= i < at ==> top[at].score < top[i].score
    {
      if top[j].score < top[at].score {
        at := j;
      }
    }
  }

  /** Replacing a smallest guess by a new, better id keeps the selection a top selection. */
  lemma ReplaceKeepsTop(top: seq<Guess>, scores: seq<real>, n: nat, at: nat)
    requires n < |scores| && at < |top| && IsTop(top, scores, n, |top|)
    requires forall j :: 0 <= j < |top| ==> top[at].score <= top[j].score
    requires scores[n] > top[at].score
    ensures IsTop(top[at := Guess(n, scores[n])], scores, n + 1, |top|)
  {
    var top' := top[at := Guess(n, scores[n])];
    forall i: nat, j | i < n + 1 && 0 <= j < |top'| && !Selected(top', i) ensures scores[i] <= top'[j].score {
      assert forall m :: 0 <= m < |top'| ==> top'[m].id != i;
      assert top'[at].id == n;
      assert forall m :: 0 <= m < |top| && m != at ==> top'[m] == top[m];
      if Selected(top, i) {
        var m :| 0 <= m < |top| && top[m].id == i;
        assert scores[i] == top[at].score;
      } else {
        assert scores[i] <= top[at].score;
      }
    }
  }

  /** The selection loop: start with the first labels, then let each later one push out a smallest. */
  method SelectTop(scores: seq<real>) returns (top: seq<Guess>)
    ensures IsTop(top, scores, |scores|, TopCount(|scores|))
  {
    top := [];
    for i := 0 to TopCount(|scores|)
      invariant Guesses(top, scores, i) && |top| == i
      invariant forall l: nat :: l < i ==> Selected(top, l)
    {
      ghost var before := top;
      top := top + [Guess(i, scores[i])];
      forall l: nat | l < i + 1 ensures Selected(top, l) {
        if l < i {
          assert Selected(before, l);
          var j :| 0 <= j < |before| && before[j].id == l;
          assert top[j].id == l;
        } else {
          assert top[i].id == l;
        }
      }
    }
    if TOP < |scores| {
      for i := TOP to |scores|
        invariant IsTop(top, scores, i, TOP)
      {
        var e := scores[i];
        var at := FirstMinimum(top);
        if e > top[at].score {
          ReplaceKeepsTop(top, scores, i, at);
          top := top[at := Guess(i, e)];
        } else {
          forall l: nat, j | l < i + 1 && 0 <= j < |top| && !Selected(top, l) ensures scores[l] <= top[j].score {}
        }
      }
    }
  }

  function ScoresOfGuesses(top: seq<Guess>): (r: seq<real>)
    ensures |r| == |top|
  {
    seq(|top|, j requires 0 <= j < |top| => top[j].score)
  }

  lemma PickSelects(top: seq<Guess>, order: seq<nat>, id: nat)
    requires Selected(top, id) && IsPermutation(order, |top|)
    ensures Selected(Pick(top, order), id)
  {
    var m :| 0 <= m < |top| && top[m].id == id;
    assert m in order;
    var k :| 0 <= k < |order| && order[k] == m;
    assert Pick(top, order)[k].id == id;
  }

  /** Any reordering of a top selection is one. */
  lemma ReorderKeepsTop(top: seq<Guess>, scores: seq<real>, n: nat, order: seq<nat>)
    requires IsTop(top, scores, n, |top|) && IsPermutation(order, |top|)
    ensures IsTop(Pick(top, order), scores, n, |top|)
  {
    var sorted := Pick(top, order);
    forall i: nat, j | i < n && 0 <= j < |sorted| && !Selected(sorted, i) ensures scores[i] <= sorted[j].score {
      assert Selected(top, i) ==> Selected(sorted, i) by {
        if Selected(top, i) { PickSelects(top, order, i); }
      }
      assert sorted[j] == top[order[j]];
    }
    forall j, k | 0 <= j < k < |sorted| ensures sorted[j].id != sorted[k].id {
      assert order[j] != order[k];
      assert order[j] < order[k] ==> top[order[j]].id != top[order[k]].id;
      assert order[k] < order[j] ==> top[order[k]].id != top[order[j]].id;
    }
  }

  method SortGuesses(top: seq<Guess>, ghost scores: seq<real>) returns (sorted: seq<Guess>)
    requires IsTop(top, scores, |scores|, |top|)
    ensures IsTop(sorted, scores, |scores|, |top|) && Descends(sorted)
  {
    var order := ArgsortDescending(ScoresOfGuesses(top));
    ReorderKeepsTop(top, scores, |scores|, order);
    sorted := Pick(top, order);
    forall j, k | 0 <= j < k < |sorted| ensures sorted[j].score >= sorted[k].score {
      assert ScoresOfGuesses(top)[order[j]] >= ScoresOfGuesses(top)[order[k]];
    }
  }

  /** Selection by replacing the smallest, then sorting. */
  method Rank(scores: seq<real>) returns (ranking: seq<Guess>)
    ensures IsTop(ranking, scores, |scores|, TopCount(|scores|)) && Descends(ranking)
  {
    var top := SelectTop(scores);
    ranking := SortGuesses(top, scores);
  }

  /** Sorting all labels and keeping the first ones, as the spatial mode does. */
  method RankByPartialSort(scores: seq<real>) returns (ranking: seq<Guess>)
    ensures IsTop(ranking, scores, |scores|, TopCount(|scores|)) && Descends(ranking)
  {
    var order := ArgsortDescending(scores);
    var k := TopCount(|scores|);
    ranking := seq(k, j requires 0 <= j < k => Guess(order[j], scores[order[j]]));
    forall i: nat, j | i < |scores| && 0 <= j < k && !Selected(ranking, i) ensures scores[i] <= ranking[j].score {
      assert i in order;
      var m :| 0 <= m < |order| && order[m] == i;
      assert forall p :: 0 <= p < k ==> ranking[p].id == order[p] != i;
    }
  }

  ghost function IdSet(top: seq<Guess>, n: nat): set<nat>
    requires n <= |top|
  {
    set j | 0 <= j < n :: top[j].id
  }

  lemma {:induction false} IdCount(top: seq<Guess>, n: nat)
    requires n <= |top| && forall j, k :: 0 <= j < k < |top| ==> top[j].id != top[k].id
    ensures |IdSet(top, n)| == n
  {
    if n > 0 {
      IdCount(top, n - 1);
      assert top[n - 1].id !in IdSet(top, n - 1);
      assert IdSet(top, n) == IdSet(top, n - 1) + {top[n - 1].id};
    }
  }

  /** A label that scores more than the guess at `j` stands before it. */
  lemma RanksEarly(b: seq<Guess>, scores: seq<real>, k: nat, l: nat, j: nat)
    requires IsTop(b, scores, |scores|, k) && Descends(b)
    requires j < k && l < |scores| && scores[l] > b[j].score
    ensures l in IdSet(b, j)
  {
    assert Selected(b, l);
    var i :| 0 <= i < |b| && b[i].id == l;
    assert b[i].score == scores[l];
    assert i < j;
  }

  /** Of two sorted top selections neither is better at any position. */
  lemma NoBetterTop(a: seq<Guess>, b: seq<Guess>, scores: seq<real>, k: nat, j: nat)
    requires IsTop(a, scores, |scores|, k) && IsTop(b, scores, |scores|, k) && Descends(a) && Descends(b)
    requires j < k
    ensures a[j].score <= b[j].score
  {
    if a[j].score > b[j].score {
      forall l | l in IdSet(a, j + 1) ensures l in IdSet(b, j) {
        var m :| 0 <= m < j + 1 && a[m].id == l;
        RanksEarly(b, scores, k, l, j);
      }
      IdCount(a, j + 1);
      IdCount(b, j);
      CardinalityMonotone(IdSet(a, j + 1), IdSet(b, j));
    }
  }

  /** Both ways of ranking yield the same scores, position by position, whatever they do with ties. */
  lemma RankingScoresUnique(a: seq<Guess>, b: seq<Guess>, scores: seq<real>, k: nat)
    requires IsTop(a, scores, |scores|, k) && IsTop(b, scores, |scores|, k) && Descends(a) && Descends(b)
    ensures ScoresOfGuesses(a) == ScoresOfGuesses(b)
  {
    forall j | 0 <= j < k ensures a[j].score == b[j].score {
      NoBetterTop(a, b, scores, k, j);
      NoBetterTop(b, a, scores, k, j);
    }
  }

  // ---------------------------------------------------------------- Counting

  predicate HitsFirst(ranking: seq<Guess>, truth: int)
    requires |ranking| > 0
  {
    ranking[0].id == truth
  }

  /** The truth is among the guesses, but not in the last place of all classes. */
  predicate HitsTop(ranking: seq<Guess>, truth: int, classes: nat) {
    exists j :: 0 <= j < |ranking| && j + 1 < classes && ranking[j].id == truth
  }

  method TopHit(ranking: seq<Guess>, truth: int, classes: nat) returns (hit: bool)
    requires forall j, k :: 0 <= j < k < |ranking| ==> ranking[j].id != ranking[k].id
    ensures hit <==> HitsTop(ranking, truth, classes)
  {
    for j := 0 to |ranking|
      invariant forall i :: 0 <= i < j && i + 1 < classes ==> ranking[i].id != truth
    {
      if ranking[j].id == truth && j + 1 < classes {
        return true;
      }
    }
    return false;
  }

  /** The outcome; `NoGuess` is the out-of-range access on an empty result. */
  datatype Report = BadSize | NoGuess | Report(top1: nat, top5: nat, passed: bool)

  /** The scores of image `img`. */
  function ImageScores(results: seq<real>, classes: nat, img: nat): (r: seq<real>)
    requires img * classes + classes <= |results|
    ensures |r| == classes
  {
    results[img * classes..img * classes + classes]
  }

  ghost function FirstHits(rankings: seq<seq<Guess>>, truths: seq<int>, n: nat): nat
    requires n <= |rankings| && n <= |truths| && forall i :: 0 <= i < n ==> |rankings[i]| > 0
  {
    if n == 0 then 0 else FirstHits(rankings, truths, n - 1) + if HitsFirst(rankings[n - 1], truths[n - 1]) then 1 else 0
  }

  ghost function TopHits(rankings: seq<seq<Guess>>, truths: seq<int>, classes: nat, n: nat): nat
    requires n <= |rankings| && n <= |truths|
  {
    if n == 0 then 0 else TopHits(rankings, truths, classes, n - 1) + if HitsTop(rankings[n - 1], truths[n - 1], classes) then 1 else 0
  }

  /** The first `n` images have been ranked. */
  ghost predicate Ranked(results: seq<real>, classes: nat, rankings: seq<seq<Guess>>, n: nat) {
    && |rankings| == n
    && forall i :: 0 <= i < n ==>
         && BatchFits(results, classes, i)
         && |rankings[i]| > 0 && Descends(rankings[i])
         && IsTop(rankings[i], ImageScores(results, classes, i), classes, TopCount(classes))
  }

  /** Ranks every image of a batch and counts the hits; `rankings` are the rankings its sorts produced. */
  method CountHits(results: seq<real>, truths: seq<int>, batchSize: nat, classes: nat)
    returns (top1: nat, top5: nat, ghost rankings: seq<seq<Guess>>)
    requires |truths| == batchSize && |results| == batchSize * classes && classes > 0
    ensures Ranked(results, classes, rankings, batchSize)
    ensures top1 == FirstHits(rankings, truths, batchSize) && top5 == TopHits(rankings, truths, classes, batchSize)
  {
    rankings := [];
    top1, top5 := 0, 0;
    for img := 0 to batchSize
      invariant Ranked(results, classes, rankings, img)
      invariant top1 == FirstHits(rankings, truths, img) && top5 == TopHits(rankings, truths, classes, img)
    {
      FitsBatch(results, classes, batchSize, img);
      var ranking := Rank(ImageScores(results, classes, img));
      HitsExtend(rankings, ranking, truths, classes, img);
      rankings := rankings + [ranking];
      if ranking[0].id == truths[img] {
        top1 := top1 + 1;
      }
      var hit := TopHit(ranking, truths[img], classes);
      if hit {
        top5 := top5 + 1;
      }
    }
  }

  /** The report on a batch: the hits, and whether both accuracies reach the threshold. */
  method GetTopResults(results: seq<real>, truths: seq<int>, batchSize: nat)
    returns (report: Report, ghost rankings: seq<seq<Guess>>)
    requires batchSize > 0 && |truths| == batchSize
    ensures report.BadSize? <==> |results| % batchSize != 0
    ensures report.NoGuess? <==> |results| == 0
    ensures report.Report? ==>
              var classes := |results| / batchSize;
              && classes > 0 && Ranked(results, classes, rankings, batchSize)
              && report.top1 == FirstHits(rankings, truths, batchSize)
              && report.top5 == TopHits(rankings, truths, classes, batchSize)
              && (report.passed <==> 100 * report.top1 >= 20 * batchSize && 100 * report.top5 >= 20 * batchSize)
  {
    if |results| % batchSize != 0 {
      return BadSize, [];
    }
    if |results| == 0 {
      return NoGuess, [];
    }
    var classes := |results| / batchSize;
    assert |results| == batchSize * classes;
    assert classes > 0;
    var top1, top5;
    top1, top5, rankings := CountHits(results, truths, batchSize, classes);
    var accuracy1, accuracy5 := (top1 as real * 100.0) / batchSize as real, (top5 as real * 100.0) / batchSize as real;
    var threshold := 20.0;
    PercentBelow(top1, batchSize);
    PercentBelow(top5, batchSize);
    if accuracy1 < threshold {
      return Report(top1, top5, false), rankings;
    }
    if accuracy5 < threshold {
      return Report(top1, top5, false), rankings;
    }
    return Report(top1, top5, true), rankings;
  }

  lemma PercentBelow(hits: nat, batch: nat)
    requires batch > 0
    ensures (hits as real * 100.0) / batch as real < 20.0 <==> 100 * hits < 20 * batch
  {
    QuotientBelow(hits as real * 100.0, batch as real, 20.0);
  }

  lemma QuotientBelow(x: real, d: real, bound: real)
    requires d > 0.0
    ensures x / d < bound <==> x < bound * d
  {
    var q := x / d;
    assert q * d == x;
    assert q * d - bound * d == (q - bound) * d;
    SameSign(q - bound, d);
  }

  lemma SameSign(a: real, d: real)
    requires d > 0.0
    ensures a * d < 0.0 <==> a < 0.0
  {
  }

  ghost predicate BatchFits(results: seq<real>, classes: nat, i: nat) {
    i * classes + classes <= |results|
  }

  lemma FitsBatch(results: seq<real>, classes: nat, batch: nat, i: nat)
    requires |results| == batch * classes && i < batch
    ensures BatchFits(results, classes, i)
  {
    MulMonotone(i + 1, batch, classes);
    TimesNext(i, classes);
  }

  lemma {:induction false} HitsPrefix(before: seq<seq<Guess>>, ranking: seq<Guess>, truths: seq<int>, classes: nat, n: nat)
    requires n <= |before| && n <= |truths| && |ranking| > 0 && forall i :: 0 <= i < |before| ==> |before[i]| > 0
    ensures FirstHits(before + [ranking], truths, n) == FirstHits(before, truths, n)
    ensures TopHits(before + [ranking], truths, classes, n) == TopHits(before, truths, classes, n)
  {
    if n > 0 { HitsPrefix(before, ranking, truths, classes, n - 1); }
  }

  lemma HitsExtend(before: seq<seq<Guess>>, ranking: seq<Guess>, truths: seq<int>, classes: nat, n: nat)
    requires n == |before| < |truths| && |ranking| > 0 && forall i :: 0 <= i < |before| ==> |before[i]| > 0
    ensures FirstHits(before + [ranking], truths, n + 1)
         == FirstHits(before, truths, n) + if HitsFirst(ranking, truths[n]) then 1 else 0
    ensures TopHits(before + [ranking], truths, classes, n + 1)
         == TopHits(before, truths, classes, n) + if HitsTop(ranking, truths[n], classes) then 1 else 0
  {
    HitsPrefix(before, ranking, truths, classes, n);
  }

  /** With two classes or more, a top-1 hit is a top-5 hit, so the counts are ordered. */
  lemma {:induction false} FirstHitsWithinTopHits(rankings: seq<seq<Guess>>, truths: seq<int>, classes: nat, n: nat)
    requires n <= |rankings| && n <= |truths| && forall i :: 0 <= i < n ==> |rankings[i]| > 0
    requires classes >= 2
    ensures FirstHits(rankings, truths, n) <= TopHits(rankings, truths, classes, n)
  {
    if n > 0 {
      FirstHitsWithinTopHits(rankings, truths, classes, n - 1);
      assert HitsFirst(rankings[n - 1], truths[n - 1]) ==> HitsTop(rankings[n - 1], truths[n - 1], classes);
    }
  }

  /** With a single class the only guess is in the last place, so nothing is ever a top-5 hit. */
  lemma {:induction false} OneClassNeverHits(rankings: seq<seq<Guess>>, truths: seq<int>, n: nat)
    requires n <= |rankings| && n <= |truths|
    ensures TopHits(rankings, truths, 1, n) == 0
  {
    if n > 0 { OneClassNeverHits(rankings, truths, n - 1); }
  }

  /** On every batch that is ranked, the top-1 count is within the top-5 count. */
  ghost predicate HitsOrdered(classes: nat) {
    forall results: seq<real>, rankings: seq<seq<Guess>>, truths: seq<int> ::
      |results| == |truths| * classes && Ranked(results, classes, rankings, |truths|) ==>
        FirstHits(rankings, truths, |truths|) <= TopHits(rankings, truths, classes, |truths|)
  }

  /** The one ranking of one score. */
  lemma SingleGuess(score: real)
    ensures Ranked([score], 1, [[Guess(0, score)]], 1)
  {
    assert ImageScores([score], 1, 0) == [score];
    assert IsTop([Guess(0, score)], [score], 1, 1);
  }

  /** The counts are ordered on all ranked batches exactly from two classes on. */
  lemma HitsOrderedExactly(classes: nat)
    requires classes >= 1
    ensures HitsOrdered(classes) <==> classes >= 2
  {
    if classes >= 2 {
      forall results: seq<real>, rankings: seq<seq<Guess>>, truths: seq<int>
        | |results| == |truths| * classes && Ranked(results, classes, rankings, |truths|)
        ensures FirstHits(rankings, truths, |truths|) <= TopHits(rankings, truths, classes, |truths|)
      {
        FirstHitsWithinTopHits(rankings, truths, classes, |truths|);
      }
    } else {
      var results, rankings, truths: seq<int> := [1.0], [[Guess(0, 1.0)]], [0];
      SingleGuess(1.0);
      OneClassNeverHits(rankings, truths, 1);
      assert |results| == |truths| * classes && Ranked(results, classes, rankings, |truths|);
      assert FirstHits(rankings, truths, 0) == 0;
      assert FirstHits(rankings, truths, |truths|) == 1;
    }
  }
}
