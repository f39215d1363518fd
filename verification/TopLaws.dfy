/** When an image counts as a top-1 or top-5 hit, in terms of its scores alone. */
module TopLaws {
  import opened Lists
  import opened TopResults

  function ScoreOf(results: seq<real>, base: nat, c: nat): real
    requires base + c < |results|
  {
    results[base + c]
  }

  /** The classes that score more than class `t`; the image's scores start at `base`. */
  ghost function Above(results: seq<real>, base: nat, classes: nat, t: nat): set<nat>
    requires base + classes <= |results| && t < classes
  {
    set c: nat | c < classes && ScoreOf(results, base, c) > ScoreOf(results, base, t)
  }

  /** The other classes that score at least as much. */
  ghost function Rivals(results: seq<real>, base: nat, classes: nat, t: nat): set<nat>
    requires base + classes <= |results| && t < classes
  {
    set c: nat | c < classes && c != t && ScoreOf(results, base, c) >= ScoreOf(results, base, t)
  }

  ghost predicate CanBeFirst(results: seq<real>, base: nat, classes: nat, truth: int)
    requires base + classes <= |results|
  {
    0 <= truth < classes && Above(results, base, classes, truth) == {}
  }

  ghost predicate MustBeFirst(results: seq<real>, base: nat, classes: nat, truth: int)
    requires base + classes <= |results|
  {
    0 <= truth < classes && Rivals(results, base, classes, truth) == {}
  }

  /** Fewer than five classes score more, and not all the other ones do. */
  ghost predicate CanHitTop(results: seq<real>, base: nat, classes: nat, truth: int)
    requires base + classes <= |results|
  {
    0 <= truth < classes && |Above(results, base, classes, truth)| < 5 && |Above(results, base, classes, truth)| + 1 < classes
  }

  ghost predicate MustHitTop(results: seq<real>, base: nat, classes: nat, truth: int)
    requires base + classes <= |results|
  {
    0 <= truth < classes && |Rivals(results, base, classes, truth)| < 5 && |Rivals(results, base, classes, truth)| + 1 < classes
  }

  /** No other class has the score of class `truth`. */
  ghost predicate Untied(results: seq<real>, base: nat, classes: nat, truth: int)
    requires base + classes <= |results|
  {
    0 <= truth < classes ==> forall c: nat :: c < classes && c != truth ==> ScoreOf(results, base, c) != ScoreOf(results, base, truth)
  }

  lemma UntiedIsExact(results: seq<real>, base: nat, classes: nat, truth: int)
    requires base + classes <= |results| && Untied(results, base, classes, truth)
    ensures CanBeFirst(results, base, classes, truth) == MustBeFirst(results, base, classes, truth)
    ensures CanHitTop(results, base, classes, truth) == MustHitTop(results, base, classes, truth)
  {
    if 0 <= truth < classes {
      forall c: nat | c < classes
        ensures c in Above(results, base, classes, truth) <==> c in Rivals(results, base, classes, truth)
      {
        assert c != truth ==> ScoreOf(results, base, c) != ScoreOf(results, base, truth);
      }
      assert Above(results, base, classes, truth) == Rivals(results, base, classes, truth);
    }
  }

  // ---------------------------------------------------------------- One image

  /** The scores ranked are those at `base`. */
  ghost predicate ScoresAt(scores: seq<real>, results: seq<real>, base: nat) {
    base + |scores| <= |results| && forall c :: 0 <= c < |scores| ==> scores[c] == ScoreOf(results, base, c)
  }

  /** A class stands behind all that score more and before all that score less. */
  lemma PlaceOf(ranking: seq<Guess>, scores: seq<real>, results: seq<real>, base: nat, k: nat, j: nat)
    requires IsTop(ranking, scores, |scores|, k) && Descends(ranking) && ScoresAt(scores, results, base) && j < k
    ensures |Above(results, base, |scores|, ranking[j].id)| <= j <= |Rivals(results, base, |scores|, ranking[j].id)|
  {
    var t := ranking[j].id;
    forall c | c in Above(results, base, |scores|, t) ensures c in IdSet(ranking, j) { RanksEarly(ranking, scores, k, c, j); }
    IdCount(ranking, j);
    CardinalityMonotone(Above(results, base, |scores|, t), IdSet(ranking, j));
    CardinalityMonotone(IdSet(ranking, j), Rivals(results, base, |scores|, t));
  }

  /** A class with fewer rivals than there are guesses is among the guesses. */
  lemma FewRivalsSelected(ranking: seq<Guess>, scores: seq<real>, results: seq<real>, base: nat, k: nat, t: nat)
    requires IsTop(ranking, scores, |scores|, k) && ScoresAt(scores, results, base) && t < |scores|
    requires |Rivals(results, base, |scores|, t)| < k
    ensures Selected(ranking, t)
  {
    if !Selected(ranking, t) {
      IdCount(ranking, k);
      CardinalityMonotone(IdSet(ranking, k), Rivals(results, base, |scores|, t));
    }
  }

  /** Whatever the ranking does with ties: a hit can be one, and what must be a hit is one. */
  lemma HitsDecided(ranking: seq<Guess>, scores: seq<real>, results: seq<real>, base: nat, truth: int)
    requires IsTop(ranking, scores, |scores|, TopCount(|scores|)) && Descends(ranking) && ScoresAt(scores, results, base)
    requires |scores| > 0
    ensures MustBeFirst(results, base, |scores|, truth) ==> HitsFirst(ranking, truth)
    ensures HitsFirst(ranking, truth) ==> CanBeFirst(results, base, |scores|, truth)
    ensures MustHitTop(results, base, |scores|, truth) ==> HitsTop(ranking, truth, |scores|)
    ensures HitsTop(ranking, truth, |scores|) ==> CanHitTop(results, base, |scores|, truth)
  {
    var n := |scores|;
    if HitsFirst(ranking, truth) { PlaceOf(ranking, scores, results, base, TopCount(n), 0); }
    if HitsTop(ranking, truth, n) {
      var j :| 0 <= j < |ranking| && j + 1 < n && ranking[j].id == truth;
      PlaceOf(ranking, scores, results, base, TopCount(n), j);
    }
    if MustBeFirst(results, base, n, truth) || MustHitTop(results, base, n, truth) {
      FewRivalsSelected(ranking, scores, results, base, TopCount(n), truth);
      var j :| 0 <= j < |ranking| && ranking[j].id == truth;
      PlaceOf(ranking, scores, results, base, TopCount(n), j);
    }
  }

  // --------------------------------------------------------------- A whole batch

  ghost predicate FirstAt(rankings: seq<seq<Guess>>, truths: seq<int>, i: nat) {
    i < |rankings| && i < |truths| && |rankings[i]| > 0 && HitsFirst(rankings[i], truths[i])
  }

  ghost predicate TopAt(rankings: seq<seq<Guess>>, truths: seq<int>, classes: nat, i: nat) {
    i < |rankings| && i < |truths| && HitsTop(rankings[i], truths[i], classes)
  }

  ghost function FirstSet(rankings: seq<seq<Guess>>, truths: seq<int>, n: nat): set<nat> {
    set i: nat | i < n && FirstAt(rankings, truths, i)
  }

  ghost function TopSet(rankings: seq<seq<Guess>>, truths: seq<int>, classes: nat, n: nat): set<nat> {
    set i: nat | i < n && TopAt(rankings, truths, classes, i)
  }

  lemma {:induction false} FirstHitsCounted(rankings: seq<seq<Guess>>, truths: seq<int>, n: nat)
    requires n <= |rankings| && n <= |truths| && forall i :: 0 <= i < n ==> |rankings[i]| > 0
    ensures FirstHits(rankings, truths, n) == |FirstSet(rankings, truths, n)|
  {
    if n > 0 {
      var m := n - 1;
      FirstHitsCounted(rankings, truths, m);
      var hit := FirstAt(rankings, truths, m);
      assert FirstSet(rankings, truths, n) == FirstSet(rankings, truths, m) + if hit then {m} else {};
    }
  }

  lemma {:induction false} TopHitsCounted(rankings: seq<seq<Guess>>, truths: seq<int>, classes: nat, n: nat)
    requires n <= |rankings| && n <= |truths|
    ensures TopHits(rankings, truths, classes, n) == |TopSet(rankings, truths, classes, n)|
  {
    if n > 0 {
      var m := n - 1;
      TopHitsCounted(rankings, truths, classes, m);
      var hit := TopAt(rankings, truths, classes, m);
      assert TopSet(rankings, truths, classes, n) == TopSet(rankings, truths, classes, m) + if hit then {m} else {};
    }
  }

  /** Image `i` can, or must, be a hit by its own scores. */
  ghost predicate FirstPossible(results: seq<real>, classes: nat, truths: seq<int>, i: nat) {
    i < |truths| && i * classes + classes <= |results| && CanBeFirst(results, i * classes, classes, truths[i])
  }

  ghost predicate FirstCertain(results: seq<real>, classes: nat, truths: seq<int>, i: nat) {
    i < |truths| && i * classes + classes <= |results| && MustBeFirst(results, i * classes, classes, truths[i])
  }

  ghost predicate TopPossible(results: seq<real>, classes: nat, truths: seq<int>, i: nat) {
    i < |truths| && i * classes + classes <= |results| && CanHitTop(results, i * classes, classes, truths[i])
  }

  ghost predicate TopCertain(results: seq<real>, classes: nat, truths: seq<int>, i: nat) {
    i < |truths| && i * classes + classes <= |results| && MustHitTop(results, i * classes, classes, truths[i])
  }

  lemma ImageDecided(results: seq<real>, classes: nat, rankings: seq<seq<Guess>>, truths: seq<int>, i: nat)
    requires classes > 0 && i < |truths| == |rankings| && Ranked(results, classes, rankings, |rankings|)
    ensures FirstCertain(results, classes, truths, i) ==> FirstAt(rankings, truths, i)
    ensures FirstAt(rankings, truths, i) ==> FirstPossible(results, classes, truths, i)
    ensures TopCertain(results, classes, truths, i) ==> TopAt(rankings, truths, classes, i)
    ensures TopAt(rankings, truths, classes, i) ==> TopPossible(results, classes, truths, i)
  {
    HitsDecided(rankings[i], ImageScores(results, classes, i), results, i * classes, truths[i]);
  }

  /** The hits of a batch lie between the certain and the possible ones; without ties among an
      image's scores these are the same (see UntiedIsExact). */
  lemma HitsOfBatch(results: seq<real>, classes: nat, rankings: seq<seq<Guess>>, truths: seq<int>)
    requires classes > 0 && |truths| == |rankings| && Ranked(results, classes, rankings, |rankings|)
    ensures |set i: nat | i < |truths| && FirstCertain(results, classes, truths, i)| <= FirstHits(rankings, truths, |truths|)
         <= |set i: nat | i < |truths| && FirstPossible(results, classes, truths, i)|
    ensures |set i: nat | i < |truths| && TopCertain(results, classes, truths, i)| <= TopHits(rankings, truths, classes, |truths|)
         <= |set i: nat | i < |truths| && TopPossible(results, classes, truths, i)|
  {
    var n := |truths|;
    forall i: nat | i < n
      ensures FirstCertain(results, classes, truths, i) ==> FirstAt(rankings, truths, i)
      ensures FirstAt(rankings, truths, i) ==> FirstPossible(results, classes, truths, i)
      ensures TopCertain(results, classes, truths, i) ==> TopAt(rankings, truths, classes, i)
      ensures TopAt(rankings, truths, classes, i) ==> TopPossible(results, classes, truths, i)
    {
      ImageDecided(results, classes, rankings, truths, i);
    }
    FirstHitsCounted(rankings, truths, n);
    TopHitsCounted(rankings, truths, classes, n);
    var first, top := FirstSet(rankings, truths, n), TopSet(rankings, truths, classes, n);
    CardinalityMonotone((set i: nat | i < n && FirstCertain(results, classes, truths, i)), first);
    CardinalityMonotone(first, set i: nat | i < n && FirstPossible(results, classes, truths, i));
    CardinalityMonotone((set i: nat | i < n && TopCertain(results, classes, truths, i)), top);
    CardinalityMonotone(top, set i: nat | i < n && TopPossible(results, classes, truths, i));
  }
}
