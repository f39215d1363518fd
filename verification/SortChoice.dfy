/** When no choice among equal scores can turn a higher threshold into a higher score. */
module SortChoice {
  import opened Lists
  import opened Sorting
  import opened Suppression
  import opened Matching
  import opened BatchMetrics
  import opened TieOrders
  import opened TieWitness

  // ------------------------------------------------------- Ties in one image

  /** No image with ground truth of the class has two predictions of the class with equal scores.
      Equal scores in different images do not matter. */
  ghost predicate TieFree(images: seq<Image>, c: int) {
    forall b :: 0 <= b < |images| && c in GtClasses(images[b].gts) ==> TieFreeIn(images[b].d, c)
  }

  ghost predicate TieFreeIn(d: seq<Detection>, c: int) {
    forall x, y :: 0 <= x < y < |d| && d[x].cls == d[y].cls == c ==> d[x].score != d[y].score
  }

  /** The block of an image holds the scores of its list. */
  lemma {:induction false} BlockScores(images: seq<Image>, c: int, t: real, b: nat)
    requires AllSorted(images) && b < |images|
    ensures Shows(BatchStats(images, c, t).scores, Offset(images, c, b),
                  CategoryStats(images[b].d, images[b].gts, images[b].order, c, t).scores)
  {
    var n := |images| - 1;
    BatchAt(images, c, t);
    OffsetOfPrefix(images, c, n, b);
    if b < n {
      BlockScores(images[..n], c, t, b);
    }
    ShownAppended(BatchStats(images[..n], c, t).scores,
                  CategoryStats(images[n].d, images[n].gts, images[n].order, c, t).scores, Offset(images, c, b),
                  CategoryStats(images[b].d, images[b].gts, images[b].order, c, t).scores);
  }

  lemma ShownAt(scores: seq<real>, at: nat, part: seq<real>, k: nat)
    requires Shows(scores, at, part) && k < |part|
    ensures scores[at + k] == part[k]
  {
    assert scores[at..at + |part|][k] == scores[at + k];
  }

  lemma ShownDiffer(scores: seq<real>, at: nat, part: seq<real>, x: nat, y: nat)
    requires Shows(scores, at, part) && Distinct(part)
    requires at <= x < at + |part| && at <= y < at + |part| && x != y
    ensures scores[x] != scores[y]
  {
    ShownAt(scores, at, part, x - at);
    ShownAt(scores, at, part, y - at);
  }

  /** What an image adds to the list of a class. */
  ghost function BlockList(image: Image, c: int): (part: seq<real>)
    requires Sorted(image)
    ensures |part| == BlockSize(image, c)
  {
    CategoryStats(image.d, image.gts, image.order, c, 0.0).scores
  }

  lemma TieFreeList(d: seq<Detection>, order: seq<nat>, c: int)
    requires IsPermutation(order, |d|) && TieFreeIn(d, c)
    ensures Distinct(ScoresOf(d, OfClass(d, order, c)))
  {
    var list := OfClass(d, order, c);
    OfClassMembers(d, order, c);
    forall k, l | 0 <= k < l < |list| ensures d[list[k]].score != d[list[l]].score {
      assert list[k] in list && list[l] in list && list[k] != list[l];
    }
  }

  lemma TieInList(d: seq<Detection>, order: seq<nat>, c: int) returns (k: nat, l: nat)
    requires IsPermutation(order, |d|) && !TieFreeIn(d, c)
    ensures var scores := ScoresOf(d, OfClass(d, order, c)); k < l < |scores| && scores[k] == scores[l]
  {
    var list := OfClass(d, order, c);
    var i, j :| 0 <= i < j < |d| && d[i].cls == d[j].cls == c && d[i].score == d[j].score;
    OfClassMembers(d, order, c);
    k := Place(list, i);
    l := Place(list, j);
    if l < k { k, l := l, k; }
  }

  lemma Place(list: seq<nat>, i: nat) returns (k: nat)
    requires i in list
    ensures k < |list| && list[k] == i
  {
    k :| 0 <= k < |list| && list[k] == i;
  }

  lemma TieFreeBlock(image: Image, c: int)
    requires Sorted(image) && (c in GtClasses(image.gts) ==> TieFreeIn(image.d, c))
    ensures Distinct(BlockList(image, c))
  {
    if c in GtClasses(image.gts) { TieFreeList(image.d, image.order, c); }
  }

  lemma ShownTie(scores: seq<real>, at: nat, part: seq<real>, k: nat, l: nat)
    requires Shows(scores, at, part) && k < |part| && l < |part| && part[k] == part[l]
    ensures scores[at + k] == scores[at + l]
  {
    ShownAt(scores, at, part, k);
    ShownAt(scores, at, part, l);
  }

  /** Where a tie in an image is found in the batch list. */
  lemma TiedPredictions(images: seq<Image>, c: int) returns (b: nat, x: nat, y: nat)
    requires AllSorted(images) && !TieFree(images, c)
    ensures b < |images| && x < y && InBlock(images, c, b, x) && InBlock(images, c, b, y)
    ensures y < |BatchStats(images, c, 0.0).scores|
    ensures BatchStats(images, c, 0.0).scores[x] == BatchStats(images, c, 0.0).scores[y]
  {
    b :| 0 <= b < |images| && c in GtClasses(images[b].gts) && !TieFreeIn(images[b].d, c);
    var k, l := TieInList(images[b].d, images[b].order, c);
    var part, at := BlockList(images[b], c), Offset(images, c, b);
    assert k < l < |part| && part[k] == part[l];
    BlockScores(images, c, 0.0, b);
    ShownTie(BatchStats(images, c, 0.0).scores, at, part, k, l);
    x, y := at + k, at + l;
  }

  /** Without ties in an image, every sort of the batch keeps the matching orders. */
  lemma TieFreeAligned(images: seq<Image>, c: int, order: seq<nat>)
    requires AllSorted(images) && TieFree(images, c) && Evaluable(BatchStats(images, c, 0.0), order)
    ensures Aligned(images, c, order)
  {
    forall b: nat, p, q | b < |images| && 0 <= p < q < |order|
      && InBlock(images, c, b, order[p]) && InBlock(images, c, b, order[q])
      ensures order[p] < order[q]
    {
      TieFreeInTurn(images, c, order, b, p, q);
    }
  }

  lemma TieFreeInTurn(images: seq<Image>, c: int, order: seq<nat>, b: nat, p: nat, q: nat)
    requires AllSorted(images) && TieFree(images, c) && Evaluable(BatchStats(images, c, 0.0), order)
    requires b < |images| && p < q < |order| && InBlock(images, c, b, order[p]) && InBlock(images, c, b, order[q])
    ensures order[p] < order[q]
  {
    var scores := BatchStats(images, c, 0.0).scores;
    PresentCounts(images, c, 0.0, b);
    EntryDiffers(order, |scores|, p, q, images, c, b);
    TieFreeBlock(images[b], c);
    BlockScores(images, c, 0.0, b);
    ShownDiffer(scores, Offset(images, c, b), BlockList(images[b], c), order[p], order[q]);
    BlocksDescend(images, c, 0.0, b);
  }

  /** With a tie in an image, some sort of the batch turns it round. */
  lemma TieReversed(images: seq<Image>, c: int) returns (order: seq<nat>)
    requires AllSorted(images) && !TieFree(images, c)
    ensures Evaluable(BatchStats(images, c, 0.0), order) && !Aligned(images, c, order)
  {
    var b, x, y := TiedPredictions(images, c);
    var p, q;
    order, p, q := LaterFirst(BatchStats(images, c, 0.0).scores, x, y);
    BatchWellFormed(images, c, 0.0);
  }

  // ------------------------------------------------- Whatever the sort chooses

  /** Whichever of the sorted orders the evaluation uses, at both thresholds: for all boxes and
      ground truths a higher threshold never raises the average precision of the class, if and
      only if no image has two of its predictions tied. */
  lemma ApAntitoneTieFree(base: seq<Image>, c: int, interval: nat)
    requires AllSorted(base)
    ensures (forall order :: Evaluable(BatchStats(base, c, 0.0), order) ==> ApAntitone(base, c, order, interval))
            <==> interval < 2 || TieFree(base, c)
  {
    if interval < 2 || TieFree(base, c) {
      forall order | Evaluable(BatchStats(base, c, 0.0), order) ensures ApAntitone(base, c, order, interval) {
        if TieFree(base, c) { TieFreeAligned(base, c, order); }
        ApAntitoneExactly(base, c, order, interval);
      }
    } else {
      var order := TieReversed(base, c);
      ApAntitoneExactly(base, c, order, interval);
    }
  }

  /** Some order for every class, and a given one for class `c`. */
  lemma OrdersWith(base: seq<Image>, n: nat, c: nat, order: seq<nat>) returns (orders: seq<seq<nat>>)
    requires AllSorted(base) && c < n && Evaluable(BatchStats(base, c, 0.0), order)
    ensures Orders(AllClasses(base, n, 0.0), orders) && orders[c] == order
  {
    orders := seq(n, e requires 0 <= e < n =>
      if e == c then order else AnyArgsort(BatchStats(base, e, 0.0).scores));
    forall e | 0 <= e < n ensures Evaluable(AllClasses(base, n, 0.0)[e], orders[e]) {
      AnyOrderServes(base, e);
    }
  }

  lemma AnyOrderServes(base: seq<Image>, c: int)
    requires AllSorted(base)
    ensures Evaluable(BatchStats(base, c, 0.0), AnyArgsort(BatchStats(base, c, 0.0).scores))
  {
    BatchWellFormed(base, c, 0.0);
  }

  /** The same for the score of the whole batch. */
  lemma ScoreAntitoneTieFree(base: seq<Image>, n: nat, interval: nat)
    requires AllSorted(base)
    ensures (forall orders :: Orders(AllClasses(base, n, 0.0), orders) ==> ScoreAntitone(base, n, orders, interval))
            <==> interval < 2 || forall c :: 0 <= c < n ==> TieFree(base, c)
  {
    if interval < 2 || forall c :: 0 <= c < n ==> TieFree(base, c) {
      forall orders | Orders(AllClasses(base, n, 0.0), orders) ensures ScoreAntitone(base, n, orders, interval) {
        TieFreeFalls(base, n, orders, interval);
      }
    } else {
      var c :| 0 <= c < n && !TieFree(base, c);
      var order := TieReversed(base, c);
      var orders := OrdersWith(base, n, c, order);
      ScoreAntitoneExactly(base, n, orders, interval);
    }
  }

  lemma TieFreeFalls(base: seq<Image>, n: nat, orders: seq<seq<nat>>, interval: nat)
    requires AllSorted(base) && Orders(AllClasses(base, n, 0.0), orders)
    requires interval < 2 || forall c :: 0 <= c < n ==> TieFree(base, c)
    ensures ScoreAntitone(base, n, orders, interval)
  {
    if interval >= 2 {
      forall c | 0 <= c < n ensures Aligned(base, c, orders[c]) {
        assert Evaluable(AllClasses(base, n, 0.0)[c], orders[c]);
        TieFreeAligned(base, c, orders[c]);
      }
    }
    ScoreAntitoneExactly(base, n, orders, interval);
  }

  // ------------------------------------------------------ One sort throughout

  type Sort = seq<real> -> seq<nat>

  /** A library sort: for the same keys it always gives the same answer. */
  ghost predicate IsSort(sort: Sort) {
    forall keys: seq<real> :: IsArgsort(sort(keys), keys)
  }

  /** The images with the matching order that the sort chooses, whatever order they come with. */
  ghost function Resorted(images: seq<Image>, sort: Sort): (r: seq<Image>)
    ensures |r| == |images|
    ensures IsSort(sort) ==> AllSorted(r)
  {
    seq(|images|, k requires 0 <= k < |images| =>
      Image(images[k].d, images[k].gts, sort(DetectionScores(images[k].d))))
  }

  ghost function OrdersBy(stats: seq<Stats>, sort: Sort): (r: seq<seq<nat>>)
    ensures |r| == |stats|
  {
    seq(|stats|, c requires 0 <= c < |stats| => sort(stats[c].scores))
  }

  lemma OrdersByOrders(images: seq<Image>, n: nat, t: real, sort: Sort)
    requires AllSorted(images) && IsSort(sort)
    ensures Orders(AllClasses(images, n, t), OrdersBy(AllClasses(images, n, t), sort))
  {
    forall c | 0 <= c < n ensures Evaluable(AllClasses(images, n, t)[c], OrdersBy(AllClasses(images, n, t), sort)[c]) {
      BatchWellFormed(images, c, t);
    }
  }

  /** The score of a batch when one sort does all the sorting. */
  ghost function ScoreBy(images: seq<Image>, n: nat, t: real, interval: nat, sort: Sort): real
    requires IsSort(sort)
  {
    var stats := AllClasses(Resorted(images, sort), n, t);
    OrdersByOrders(Resorted(images, sort), n, t, sort);
    Evaluate(stats, OrdersBy(stats, sort), interval)
  }

  /** For all boxes and ground truths a higher threshold never raises the score under this sort. */
  ghost predicate AntitoneUnder(base: seq<Image>, n: nat, interval: nat, sort: Sort)
    requires IsSort(sort)
  {
    forall images: seq<Image>, lo: real, hi: real :: SameInputs(images, base) && lo <= hi ==>
      ScoreBy(images, n, hi, interval, sort) <= ScoreBy(images, n, lo, interval, sort)
  }

  lemma ResortedInputs(images: seq<Image>, base: seq<Image>, sort: Sort)
    requires IsSort(sort) && SameInputs(images, base)
    ensures SameOutline(Resorted(images, sort), Resorted(base, sort))
  {
    var v, w := Resorted(images, sort), Resorted(base, sort);
    forall k | 0 <= k < |images| ensures SameInput(v[k], w[k]) && v[k].order == w[k].order {
      assert SameInput(images[k], base[k]);
    }
  }

  /** Images that already have the orders of the sort stay as they are. */
  lemma AlreadySorted(images: seq<Image>, base: seq<Image>, sort: Sort)
    requires IsSort(sort) && SameOutline(images, Resorted(base, sort))
    ensures Resorted(images, sort) == images && SameInputs(images, base)
  {
    var w := Resorted(base, sort);
    forall k | 0 <= k < |images| ensures Resorted(images, sort)[k] == images[k] && SameInput(images[k], base[k]) {
      assert SameInput(images[k], w[k]) && images[k].order == w[k].order;
    }
  }

  lemma SameOrders(a: seq<Image>, b: seq<Image>, n: nat, s: real, t: real, sort: Sort)
    requires AllSorted(a) && AllSorted(b) && SameInputs(a, b)
    ensures OrdersBy(AllClasses(a, n, s), sort) == OrdersBy(AllClasses(b, n, t), sort)
  {
    forall c | 0 <= c < n
      ensures OrdersBy(AllClasses(a, n, s), sort)[c] == OrdersBy(AllClasses(b, n, t), sort)[c]
    {
      SameBatchScores(a, b, c, s, t);
    }
  }

  /** The orders of the evaluation, which depend on the scores alone. */
  ghost function OrdersFor(base: seq<Image>, n: nat, sort: Sort): seq<seq<nat>>
    requires IsSort(sort)
  {
    OrdersBy(AllClasses(Resorted(base, sort), n, 0.0), sort)
  }

  lemma ScoreByFalls(images: seq<Image>, base: seq<Image>, n: nat, interval: nat, sort: Sort, lo: real, hi: real)
    requires IsSort(sort) && SameInputs(images, base)
    ensures ScoreFalls(Resorted(images, sort), n, OrdersFor(base, n, sort), interval, lo, hi)
            <==> ScoreBy(images, n, hi, interval, sort) <= ScoreBy(images, n, lo, interval, sort)
  {
    var v, w := Resorted(images, sort), Resorted(base, sort);
    ResortedInputs(images, base, sort);
    SameOrders(v, w, n, lo, 0.0, sort);
    SameOrders(v, w, n, hi, 0.0, sort);
    OrdersByOrders(v, n, lo, sort);
    OrdersByOrders(v, n, hi, sort);
  }

  lemma UnderSort(base: seq<Image>, n: nat, interval: nat, sort: Sort)
    requires IsSort(sort)
    ensures Orders(AllClasses(Resorted(base, sort), n, 0.0), OrdersFor(base, n, sort))
    ensures AntitoneUnder(base, n, interval, sort)
            <==> ScoreAntitone(Resorted(base, sort), n, OrdersFor(base, n, sort), interval)
  {
    var w, orders := Resorted(base, sort), OrdersFor(base, n, sort);
    OrdersByOrders(w, n, 0.0, sort);
    if AntitoneUnder(base, n, interval, sort) {
      forall images: seq<Image>, lo: real, hi: real | SameOutline(images, w) && lo <= hi
        ensures ScoreFalls(images, n, orders, interval, lo, hi)
      {
        AlreadySorted(images, base, sort);
        ScoreByFalls(images, base, n, interval, sort, lo, hi);
      }
    }
    if ScoreAntitone(w, n, orders, interval) {
      forall images: seq<Image>, lo: real, hi: real | SameInputs(images, base) && lo <= hi
        ensures ScoreBy(images, n, hi, interval, sort) <= ScoreBy(images, n, lo, interval, sort)
      {
        ResortedInputs(images, base, sort);
        ScoreByFalls(images, base, n, interval, sort, lo, hi);
      }
    }
  }

  /** Which matching orders the images come with does not matter for ties. */
  lemma ResortedTies(base: seq<Image>, c: int, sort: Sort)
    ensures TieFree(Resorted(base, sort), c) <==> TieFree(base, c)
  {
    var w := Resorted(base, sort);
    assert forall b :: 0 <= b < |base| ==> w[b].d == base[b].d && w[b].gts == base[b].gts;
  }

  /** With a tie in an image, some library sort turns it round. */
  lemma SomeSortReverses(base: seq<Image>, n: nat, c: nat) returns (sort: Sort)
    requires c < n && !TieFree(base, c)
    ensures IsSort(sort) && !Aligned(Resorted(base, sort), c, OrdersFor(base, n, sort)[c])
  {
    var plain: Sort := keys => AnyArgsort(keys);
    var v := Resorted(base, plain);
    ResortedTies(base, c, plain);
    var b, x, y := TiedPredictions(v, c);
    var tied := BatchStats(v, c, 0.0).scores;
    var order, p, q := LaterFirst(tied, x, y);
    sort := keys => if keys == tied then order else AnyArgsort(keys);
    SortReverses(base, n, c, plain, sort, order, b, x, y, p, q);
  }

  lemma SortReverses(base: seq<Image>, n: nat, c: nat, plain: Sort, sort: Sort, order: seq<nat>,
                     b: nat, x: nat, y: nat, p: nat, q: nat)
    requires c < n && IsSort(plain) && IsSort(sort) && b < |base|
    requires InBlock(Resorted(base, plain), c, b, x) && InBlock(Resorted(base, plain), c, b, y) && x < y
    requires sort(BatchStats(Resorted(base, plain), c, 0.0).scores) == order
    requires p < q < |order| && order[p] == y && order[q] == x
    ensures !Aligned(Resorted(base, sort), c, OrdersFor(base, n, sort)[c])
  {
    var v, w := Resorted(base, plain), Resorted(base, sort);
    forall k | 0 <= k < |base| ensures SameInput(w[k], v[k]) {}
    SameBatchScores(w, v, c, 0.0, 0.0);
    SameOffsets(w, v, c, b);
    SameScores(w[b], v[b], c, 0.0, 0.0);
    assert InBlock(w, c, b, x) && InBlock(w, c, b, y);
  }

  /** One sort does all the sorting, and which one is not known: for all boxes and ground truths a
      higher threshold never raises the score, if and only if no image has two predictions of a
      class tied. */
  lemma AnySortAntitoneExactly(base: seq<Image>, n: nat, interval: nat)
    ensures (forall sort: Sort :: IsSort(sort) ==> AntitoneUnder(base, n, interval, sort))
            <==> interval < 2 || forall c :: 0 <= c < n ==> TieFree(base, c)
  {
    if interval < 2 || forall c :: 0 <= c < n ==> TieFree(base, c) {
      forall sort: Sort | IsSort(sort) ensures AntitoneUnder(base, n, interval, sort) {
        forall c | 0 <= c < n ensures TieFree(base, c) ==> TieFree(Resorted(base, sort), c) {
          ResortedTies(base, c, sort);
        }
        UnderSort(base, n, interval, sort);
        TieFreeFalls(Resorted(base, sort), n, OrdersFor(base, n, sort), interval);
      }
    } else {
      var c :| 0 <= c < n && !TieFree(base, c);
      var sort := SomeSortReverses(base, n, c);
      UnderSort(base, n, interval, sort);
      ScoreAntitoneExactly(Resorted(base, sort), n, OrdersFor(base, n, sort), interval);
    }
  }

  // ------------------------------------------------------------ Stable sorts

  lemma StableIsAligned(images: seq<Image>, c: int, order: seq<nat>)
    requires AllSorted(images) && StableOrder(order, BatchStats(images, c, 0.0).scores)
    ensures Aligned(images, c, order)
  {
    var scores := BatchStats(images, c, 0.0).scores;
    forall b: nat, p, q | b < |images| && 0 <= p < q < |order|
      && InBlock(images, c, b, order[p]) && InBlock(images, c, b, order[q])
      ensures order[p] < order[q]
    {
      BlocksDescend(images, c, 0.0, b);
      assert order[p] != order[q];
    }
  }

  /** A stable sort is always safe, with any number of ties. */
  lemma StableSortIsSafe(base: seq<Image>, n: nat, interval: nat, sort: Sort)
    requires forall keys: seq<real> :: StableOrder(sort(keys), keys)
    ensures IsSort(sort) && AntitoneUnder(base, n, interval, sort)
  {
    assert IsSort(sort) by { forall keys: seq<real> ensures IsArgsort(sort(keys), keys) { assert StableOrder(sort(keys), keys); } }
    var w := Resorted(base, sort);
    forall c | 0 <= c < n ensures Aligned(w, c, OrdersFor(base, n, sort)[c]) {
      assert StableOrder(sort(BatchStats(w, c, 0.0).scores), BatchStats(w, c, 0.0).scores);
      StableIsAligned(w, c, sort(BatchStats(w, c, 0.0).scores));
    }
    UnderSort(base, n, interval, sort);
    ScoreAntitoneExactly(w, n, OrdersFor(base, n, sort), interval);
  }
}
