/** Which image file fills which slot of which request, and which annotation its result meets. */
module InputFiles {
  import opened Arithmetic
  import opened Lists

  /** The images asked for, counted over requests, batch slots and inputs in that order. */
  function Number(request: nat, slot: nat, input: nat, batch: nat, inputs: nat): nat {
    (request * batch + slot) * inputs + input
  }

  function FileFor(files: nat, request: nat, slot: nat, input: nat, batch: nat, inputs: nat): (f: nat)
    requires files > 0
    ensures f < files
  {
    Number(request, slot, input, batch, inputs) % files
  }

  /** The files asked for by the slots of one request, in slot order. */
  function Wanted(files: nat, request: nat, input: nat, batch: nat, inputs: nat): (w: seq<nat>)
    requires files > 0
    ensures |w| == batch && InRange(w, files)
  {
    seq(batch, slot requires 0 <= slot < batch => FileFor(files, request, slot, input, batch, inputs))
  }

  /** The readable ones: an unreadable file leaves no gap, so those after it move down. */
  function ReadableOf(wanted: seq<nat>, readable: seq<bool>): (r: seq<nat>)
    requires InRange(wanted, |readable|)
    ensures |r| <= |wanted| && InRange(r, |readable|)
  {
    if wanted == [] then []
    else
      var before, last := ReadableOf(wanted[..|wanted| - 1], readable), wanted[|wanted| - 1];
      if readable[last] then before + [last] else before
  }

  lemma NextNumber(files: nat, x: nat, request: nat, slot: nat, input: nat, batch: nat, inputs: nat)
    requires files > 0 && x == FileFor(files, request, slot, input, batch, inputs)
    ensures (x + inputs) % files == FileFor(files, request, slot + 1, input, batch, inputs)
  {
    TimesNext(request * batch + slot, inputs);
    ModOfSum(Number(request, slot, input, batch, inputs), inputs, files);
  }

  /** The batch loop: steps through the files by `inputs`, wrapping at every step. */
  method CollectBatch(readable: seq<bool>, request: nat, input: nat, batch: nat, inputs: nat) returns (images: seq<nat>)
    requires |readable| > 0
    ensures images == ReadableOf(Wanted(|readable|, request, input, batch, inputs), readable)
  {
    images := [];
    ghost var wanted := Wanted(|readable|, request, input, batch, inputs);
    var at := request * batch * inputs + input;
    for i := 0 to batch
      invariant at % |readable| == FileFor(|readable|, request, i, input, batch, inputs)
      invariant images == ReadableOf(wanted[..i], readable)
    {
      at := at % |readable|;
      if readable[at] {
        images := images + [at];
      }
      assert wanted[..i + 1][..i] == wanted[..i] && wanted[i] == at;
      NextNumber(|readable|, at, request, i, input, batch, inputs);
      at := at + inputs;
    }
    assert wanted[..batch] == wanted;
  }

  lemma DigitsOrdered(q: nat, r: nat, q': nat, r': nat, d: nat)
    requires r < d && r' < d
    ensures q * d + r < q' * d + r' <==> q < q' || (q == q' && r < r')
  {
    if q < q' {
      MulMonotone(q + 1, q', d);
      TimesNext(q, d);
    } else if q' < q {
      MulMonotone(q' + 1, q, d);
      TimesNext(q', d);
    }
  }

  /** Files are taken request by request, then slot by slot, then input by input. */
  lemma NumbersInOrder(request: nat, slot: nat, input: nat, request': nat, slot': nat, input': nat, batch: nat, inputs: nat)
    requires slot < batch && slot' < batch && input < inputs && input' < inputs
    ensures Number(request, slot, input, batch, inputs) < Number(request', slot', input', batch, inputs) <==>
      request < request' || (request == request' && (slot < slot' || (slot == slot' && input < input')))
  {
    DigitsOrdered(request, slot, request', slot', batch);
    DigitsOrdered(request', slot', request, slot, batch);
    DigitsOrdered(request * batch + slot, input, request' * batch + slot', input', inputs);
  }

  /** `slots` lists the readable ones of `wanted`, and `left` what stands there. */
  ghost predicate ReadableSlots(wanted: seq<nat>, readable: seq<bool>, slots: seq<nat>, left: seq<nat>)
    requires InRange(wanted, |readable|)
  {
    && Ascending(slots) && |slots| == |left|
    && (forall s: nat :: s in slots <==> s < |wanted| && readable[wanted[s]])
    && (forall k :: 0 <= k < |slots| ==> slots[k] < |wanted| && left[k] == wanted[slots[k]])
  }

  lemma OneMoreSlot(wanted: seq<nat>, readable: seq<bool>, slots: seq<nat>, left: seq<nat>)
    requires wanted != [] && InRange(wanted, |readable|)
    requires ReadableSlots(wanted[..|wanted| - 1], readable, slots, left)
    ensures var n := |wanted| - 1;
      if readable[wanted[n]] then ReadableSlots(wanted, readable, slots + [n], left + [wanted[n]])
      else ReadableSlots(wanted, readable, slots, left)
  {
    assert forall s :: 0 <= s < |wanted| - 1 ==> wanted[..|wanted| - 1][s] == wanted[s];
  }

  /** What is left over are the readable ones in order. */
  lemma {:induction false} ReadablesInOrder(wanted: seq<nat>, readable: seq<bool>) returns (slots: seq<nat>)
    requires InRange(wanted, |readable|)
    ensures ReadableSlots(wanted, readable, slots, ReadableOf(wanted, readable))
  {
    if wanted == [] {
      slots := [];
    } else {
      var n := |wanted| - 1;
      var before := ReadablesInOrder(wanted[..n], readable);
      OneMoreSlot(wanted, readable, before, ReadableOf(wanted[..n], readable));
      slots := if readable[wanted[n]] then before + [n] else before;
    }
  }

  /** The images of a batch: from the `inputs`-th file on for every slot, wrapping, the unreadable
      ones left out. */
  lemma {:induction false} BatchImages(readable: seq<bool>, request: nat, input: nat, batch: nat, inputs: nat)
    returns (slots: seq<nat>)
    requires |readable| > 0
    ensures var images := ReadableOf(Wanted(|readable|, request, input, batch, inputs), readable);
      && Ascending(slots) && |slots| == |images|
      && (forall s: nat :: s in slots <==> s < batch && readable[((request * batch + s) * inputs + input) % |readable|])
      && (forall k :: 0 <= k < |slots| ==> images[k] == ((request * batch + slots[k]) * inputs + input) % |readable|)
  {
    slots := ReadablesInOrder(Wanted(|readable|, request, input, batch, inputs), readable);
  }

  lemma {:induction false} NoneMissing(wanted: seq<nat>, readable: seq<bool>)
    requires InRange(wanted, |readable|)
    ensures |ReadableOf(wanted, readable)| == |wanted| <==> forall j :: 0 <= j < |wanted| ==> readable[wanted[j]]
  {
    if wanted != [] {
      var before := wanted[..|wanted| - 1];
      NoneMissing(before, readable);
      assert forall j :: 0 <= j < |before| ==> before[j] == wanted[j];
    }
  }

  /** A slot holds its own file exactly when neither that file nor one before it is unreadable. */
  lemma {:induction false} SlotExactly(wanted: seq<nat>, readable: seq<bool>, slot: nat)
    requires InRange(wanted, |readable|) && Distinct(wanted) && slot < |wanted|
    ensures var r := ReadableOf(wanted, readable);
      (slot < |r| && r[slot] == wanted[slot]) <==> forall j :: 0 <= j <= slot ==> readable[wanted[j]]
  {
    var last := |wanted| - 1;
    var before := wanted[..last];
    var r, r' := ReadableOf(wanted, readable), ReadableOf(before, readable);
    if slot < last {
      SlotExactly(before, readable, slot);
      assert forall j :: 0 <= j <= slot ==> before[j] == wanted[j];
    } else {
      NoneMissing(before, readable);
      assert forall j :: 0 <= j < last ==> before[j] == wanted[j];
    }
  }

  // ------------------------------------------------- One list, two readings

  /** An input file: whether inference takes its extension, whether it decodes as an image, and
      whether there is an annotation for it. */
  datatype File = File(supported: bool, readable: bool, annotated: bool)

  /** The positions of the supported files among the first `n` of the sorted list. */
  function SupportedBelow(all: seq<File>, n: nat): (s: seq<nat>)
    requires n <= |all|
    ensures InRange(s, n) && |s| <= n
  {
    if n == 0 then []
    else SupportedBelow(all, n - 1) + if all[n - 1].supported then [n - 1] else []
  }

  /** The filtered list. */
  function SupportedIn(all: seq<File>): (s: seq<nat>)
    ensures InRange(s, |all|)
  {
    SupportedBelow(all, |all|)
  }

  /** How many of the first `k` files are supported. */
  function Rank(all: seq<File>, k: nat): (r: nat)
    requires k <= |all|
    ensures r <= k
  {
    |SupportedBelow(all, k)|
  }

  /** Inference keeps the files with a supported extension; both lists are in sorted order. */
  method FilterSupported(all: seq<File>) returns (files: seq<nat>)
    ensures files == SupportedIn(all)
  {
    files := [];
    for i := 0 to |all|
      invariant files == SupportedBelow(all, i)
    {
      if all[i].supported {
        files := files + [i];
      }
    }
  }

  /** The filtered list holds exactly the supported files, ascending. */
  lemma {:induction false} SupportedExactly(all: seq<File>, n: nat)
    requires n <= |all|
    ensures Ascending(SupportedBelow(all, n))
    ensures forall i: nat :: i in SupportedBelow(all, n) <==> i < n && all[i].supported
  {
    if n > 0 { SupportedExactly(all, n - 1); }
  }

  function ReadableFlags(all: seq<File>, files: seq<nat>): (r: seq<bool>)
    requires InRange(files, |all|)
    ensures |r| == |files|
  {
    seq(|files|, k requires 0 <= k < |files| => all[files[k]].readable)
  }

  /** The files behind the images of one request, by their position in the whole list; without
      any supported file the request gets random data instead. */
  function Inferred(all: seq<File>, request: nat, batch: nat): (r: seq<nat>)
    ensures InRange(r, |all|)
  {
    var files := SupportedIn(all);
    if files == [] then []
    else Pick(files, ReadableOf(Wanted(|files|, request, 0, batch, 1), ReadableFlags(all, files)))
  }

  /** Scoring takes the first files of the whole list, whatever their extension, and gives up on
      the first one without annotation or without image. */
  method CollectDataset(all: seq<File>, annotations: nat, wanted: nat) returns (ok: bool, scored: seq<nat>)
    ensures ok <==> Scorable(all, annotations, wanted)
    ensures ok ==> scored == seq(wanted, i => i)
  {
    scored := [];
    if |all| < wanted || annotations < wanted {
      return false, scored;
    }
    for i := 0 to wanted
      invariant scored == seq(i, k => k)
      invariant forall k :: 0 <= k < i ==> all[k].annotated && all[k].readable
    {
      if !all[i].annotated {
        return false, scored;
      }
      if !all[i].readable {
        return false, scored;
      }
      scored := scored + [i];
    }
    return true, scored;
  }

  predicate Scorable(all: seq<File>, annotations: nat, wanted: nat) {
    && wanted <= |all| && wanted <= annotations
    && forall k :: 0 <= k < wanted ==> all[k].annotated && all[k].readable
  }

  /** The file whose annotation the result of a slot is compared with. */
  function AnnotationFor(request: nat, slot: nat, batch: nat): nat {
    slot + request * batch
  }

  lemma AnnotationBelow(niter: nat, request: nat, slot: nat, batch: nat)
    requires request < niter && slot < batch
    ensures AnnotationFor(request, slot, batch) < niter * batch
  {
    LastBlock(request, niter, batch);
  }

  /** With one image input, both sides count alike; only inference wraps. */
  lemma WrappedAnnotation(files: nat, request: nat, slot: nat, batch: nat)
    requires files > 0
    ensures FileFor(files, request, slot, 0, batch, 1) == AnnotationFor(request, slot, batch) % files
  {
  }

  /** The image in the slot comes from the file its result is scored against. */
  predicate MeetsItsOwn(all: seq<File>, request: nat, slot: nat, batch: nat) {
    var r := Inferred(all, request, batch);
    slot < |r| && r[slot] == AnnotationFor(request, slot, batch)
  }

  lemma {:induction false} RankExactly(all: seq<File>, k: nat)
    requires k <= |all|
    ensures Rank(all, k) == k <==> forall i :: 0 <= i < k ==> all[i].supported
  {
    if k > 0 { RankExactly(all, k - 1); }
  }

  lemma {:induction false} SupportedExtends(all: seq<File>, k: nat, n: nat)
    requires k <= n <= |all|
    ensures SupportedBelow(all, k) <= SupportedBelow(all, n)
  {
    if k < n { SupportedExtends(all, k, n - 1); }
  }

  /** A supported file stands in the filtered list behind the supported ones before it. */
  lemma RankIsPosition(all: seq<File>, k: nat)
    requires k < |all| && all[k].supported
    ensures var s := SupportedIn(all); Rank(all, k) < |s| && s[Rank(all, k)] == k
  {
    SupportedExtends(all, k + 1, |all|);
    assert SupportedBelow(all, k + 1) == SupportedBelow(all, k) + [k];
  }

  /** The filtered list never runs ahead of the whole one. */
  lemma {:induction false} NotAhead(s: seq<nat>, i: nat)
    requires Ascending(s) && i < |s|
    ensures i <= s[i]
  {
    if i > 0 { NotAhead(s, i - 1); }
  }

  lemma {:induction false} AllReadable(wanted: seq<nat>, readable: seq<bool>)
    requires InRange(wanted, |readable|) && forall k :: 0 <= k < |wanted| ==> readable[wanted[k]]
    ensures ReadableOf(wanted, readable) == wanted
  {
    if wanted != [] {
      var before := wanted[..|wanted| - 1];
      AllReadable(before, readable);
      assert wanted == before + [wanted[|wanted| - 1]];
    }
  }

  /** When every supported file can be read, the slot's result comes from the file it is scored
      against exactly when that file is supported and as many supported files stand before it as
      the wrapped index says. */
  lemma OwnWhenAllRead(all: seq<File>, request: nat, slot: nat, batch: nat)
    requires slot < batch && AnnotationFor(request, slot, batch) < |all| && SupportedIn(all) != []
    requires forall i :: 0 <= i < |all| && all[i].supported ==> all[i].readable
    ensures var k := AnnotationFor(request, slot, batch);
      MeetsItsOwn(all, request, slot, batch) <==> all[k].supported && Rank(all, k) == k % |SupportedIn(all)|
  {
    var s, k := SupportedIn(all), AnnotationFor(request, slot, batch);
    MeetsAtWrapped(all, request, slot, batch);
    SupportedExactly(all, |all|);
    if all[k].supported {
      RankIsPosition(all, k);
      AscendingPositions(s, Rank(all, k), k % |s|);
    } else {
      assert s[k % |s|] in s;
    }
  }

  lemma MeetsAtWrapped(all: seq<File>, request: nat, slot: nat, batch: nat)
    requires slot < batch && SupportedIn(all) != []
    requires forall i :: 0 <= i < |all| && all[i].supported ==> all[i].readable
    ensures var s, k := SupportedIn(all), AnnotationFor(request, slot, batch);
      MeetsItsOwn(all, request, slot, batch) <==> s[k % |s|] == k
  {
    NothingSkipped(all, request, batch);
    WrappedAnnotation(|SupportedIn(all)|, request, slot, batch);
  }

  lemma NothingSkipped(all: seq<File>, request: nat, batch: nat)
    requires SupportedIn(all) != [] && forall i :: 0 <= i < |all| && all[i].supported ==> all[i].readable
    ensures var s := SupportedIn(all); Inferred(all, request, batch) == Pick(s, Wanted(|s|, request, 0, batch, 1))
  {
    var s := SupportedIn(all);
    SupportedExactly(all, |all|);
    forall k | 0 <= k < |s| ensures ReadableFlags(all, s)[k] { assert s[k] in s; }
    AllReadable(Wanted(|s|, request, 0, batch, 1), ReadableFlags(all, s));
  }

  lemma AscendingPositions(s: seq<nat>, i: nat, j: nat)
    requires Ascending(s) && i < |s| && j < |s|
    ensures s[i] == s[j] <==> i == j
  {
  }

  /** Once the first files are all supported, the filtered list starts with them. */
  lemma StartsAlike(all: seq<File>, k: nat)
    requires k < |all| && Rank(all, k + 1) == k + 1
    ensures var s := SupportedIn(all); k < |s| && forall i :: 0 <= i <= k ==> s[i] == i
  {
    RankExactly(all, k + 1);
    RankExactly(all, k);
    RankIsPosition(all, k);
    forall i | 0 <= i <= k ensures i < |SupportedIn(all)| && SupportedIn(all)[i] == i {
      RankExactly(all, i);
      RankIsPosition(all, i);
    }
  }

  lemma OwnFile(files: nat, niter: nat, request: nat, slot: nat, batch: nat)
    requires request < niter && slot < batch && 0 < niter * batch <= files
    ensures FileFor(files, request, slot, 0, batch, 1) == AnnotationFor(request, slot, batch) < niter * batch
  {
    AnnotationBelow(niter, request, slot, batch);
    WrappedAnnotation(files, request, slot, batch);
    ModSmall(AnnotationFor(request, slot, batch), files);
  }

  /** With one image input and a file for every image, no file is asked for twice. */
  lemma WantedInTurn(files: nat, niter: nat, request: nat, batch: nat)
    requires request < niter && 0 < niter * batch <= files
    ensures var w := Wanted(files, request, 0, batch, 1);
      Distinct(w) && forall j :: 0 <= j < batch ==> w[j] == AnnotationFor(request, j, batch)
  {
    forall j: nat | j < batch
      ensures Wanted(files, request, 0, batch, 1)[j] == AnnotationFor(request, j, batch)
    {
      OwnFile(files, niter, request, j, batch);
    }
  }

  /** What a slot holds was asked for at or after its position. */
  lemma {:induction false} ReadableFrom(wanted: seq<nat>, readable: seq<bool>, k: nat)
    requires InRange(wanted, |readable|) && k < |ReadableOf(wanted, readable)|
    ensures exists j :: k <= j < |wanted| && ReadableOf(wanted, readable)[k] == wanted[j]
  {
    var before := wanted[..|wanted| - 1];
    if k < |ReadableOf(before, readable)| {
      ReadableFrom(before, readable, k);
      var j :| k <= j < |before| && ReadableOf(before, readable)[k] == before[j];
      assert wanted[j] == before[j];
    } else {
      assert ReadableOf(wanted, readable)[k] == wanted[|wanted| - 1];
    }
  }

  /** A run that is scored at all, with one image input and a supported file for every image:
      a result comes from the very file it is scored against exactly when all files up to that one
      in the whole list are supported. */
  lemma ScoredAgainstItsOwn(all: seq<File>, annotations: nat, niter: nat, request: nat, slot: nat, batch: nat)
    requires request < niter && slot < batch && Scorable(all, annotations, niter * batch)
    requires niter * batch <= |SupportedIn(all)|
    ensures AnnotationFor(request, slot, batch) < niter * batch <= |all|
    ensures MeetsItsOwn(all, request, slot, batch) <==> SupportedUpTo(all, AnnotationFor(request, slot, batch))
  {
    AnnotationBelow(niter, request, slot, batch);
    OwnByRank(all, annotations, niter, request, slot, batch);
    SupportedByRank(all, AnnotationFor(request, slot, batch));
  }

  predicate SupportedUpTo(all: seq<File>, k: nat)
    requires k < |all|
  {
    forall i :: 0 <= i <= k ==> all[i].supported
  }

  lemma SupportedByRank(all: seq<File>, k: nat)
    requires k < |all|
    ensures SupportedUpTo(all, k) <==> Rank(all, k + 1) == k + 1
  {
    RankExactly(all, k + 1);
  }

  lemma OwnByRank(all: seq<File>, annotations: nat, niter: nat, request: nat, slot: nat, batch: nat)
    requires request < niter && slot < batch && Scorable(all, annotations, niter * batch)
    requires niter * batch <= |SupportedIn(all)| && AnnotationFor(request, slot, batch) < niter * batch
    ensures var k := AnnotationFor(request, slot, batch);
      MeetsItsOwn(all, request, slot, batch) <==> Rank(all, k + 1) == k + 1
  {
    var k := AnnotationFor(request, slot, batch);
    if Rank(all, k + 1) == k + 1 {
      OwnIfSupported(all, annotations, niter, request, slot, batch);
    } else if MeetsItsOwn(all, request, slot, batch) {
      SupportedIfOwn(all, niter, request, slot, batch);
    }
  }

  lemma OwnIfSupported(all: seq<File>, annotations: nat, niter: nat, request: nat, slot: nat, batch: nat)
    requires request < niter && slot < batch && Scorable(all, annotations, niter * batch)
    requires 0 < niter * batch <= |SupportedIn(all)|
    requires var k := AnnotationFor(request, slot, batch); k < niter * batch && Rank(all, k + 1) == k + 1
    ensures MeetsItsOwn(all, request, slot, batch)
  {
    var s, k := SupportedIn(all), AnnotationFor(request, slot, batch);
    var w, flags := Wanted(|s|, request, 0, batch, 1), ReadableFlags(all, s);
    WantedInTurn(|s|, niter, request, batch);
    StartsAlike(all, k);
    forall j | 0 <= j <= slot ensures flags[w[j]] {
      assert s[w[j]] == w[j] <= k;
    }
    SlotExactly(w, flags, slot);
  }

  lemma SupportedIfOwn(all: seq<File>, niter: nat, request: nat, slot: nat, batch: nat)
    requires request < niter && slot < batch && 0 < niter * batch <= |SupportedIn(all)|
    requires AnnotationFor(request, slot, batch) < |all| && MeetsItsOwn(all, request, slot, batch)
    ensures var k := AnnotationFor(request, slot, batch); Rank(all, k + 1) == k + 1
  {
    var s, k := SupportedIn(all), AnnotationFor(request, slot, batch);
    var w := Wanted(|s|, request, 0, batch, 1);
    WantedInTurn(|s|, niter, request, batch);
    ReadableFrom(w, ReadableFlags(all, s), slot);
    var j :| slot <= j < |w| && ReadableOf(w, ReadableFlags(all, s))[slot] == w[j];
    assert s[w[j]] == k && k <= w[j];
    SupportedExactly(all, |all|);
    NotAhead(s, w[j]);
    assert k in s;
    RankIsPosition(all, k);
    AscendingPositions(s, Rank(all, k), w[j]);
  }

  /** A first file that scoring reads and inference does not, such as `a.tif` before `b.jpg` and
      `c.jpg`: every result is scored against the file before its own. */
  lemma UnsupportedFileShifts(all: seq<File>, niter: nat, request: nat, slot: nat, batch: nat)
    requires request < niter && slot < batch && |all| == niter * batch + 1
    requires !all[0].supported && forall i :: 1 <= i < |all| ==> all[i].supported
    requires forall i :: 0 <= i < |all| ==> all[i].readable && all[i].annotated
    ensures Scorable(all, |all|, niter * batch)
    ensures AnnotationFor(request, slot, batch) < niter * batch
    ensures var r := Inferred(all, request, batch); slot < |r| && r[slot] == AnnotationFor(request, slot, batch) + 1
    ensures !MeetsItsOwn(all, request, slot, batch)
  {
    var s, k := SupportedIn(all), AnnotationFor(request, slot, batch);
    AnnotationBelow(niter, request, slot, batch);
    AllButFirst(all, k);
    NothingSkipped(all, request, batch);
    OwnFile(|s|, niter, request, slot, batch);
  }

  lemma AllButFirst(all: seq<File>, k: nat)
    requires k + 1 < |all| && !all[0].supported && forall i :: 1 <= i < |all| ==> all[i].supported
    ensures var s := SupportedIn(all); |s| == |all| - 1 && s[k] == k + 1
  {
    RanksAfterFirst(all, k + 1);
    RanksAfterFirst(all, |all|);
    RankIsPosition(all, k + 1);
  }

  lemma {:induction false} RanksAfterFirst(all: seq<File>, k: nat)
    requires 1 <= k <= |all| && !all[0].supported && forall i :: 1 <= i < |all| ==> all[i].supported
    ensures Rank(all, k) == k - 1
  {
    if k > 1 { RanksAfterFirst(all, k - 1); } else { assert SupportedBelow(all, 0) == []; }
  }

  /** The filtered list is also too short here, so it wraps: the second result comes
      from the file it is scored against although the first file is not supported. */
  lemma WrappingHidesTheShift(all: seq<File>)
    requires |all| == 2 && !all[0].supported && all[1].supported
    requires forall i :: 0 <= i < |all| ==> all[i].readable && all[i].annotated
    ensures Scorable(all, 2, 2)
    ensures !MeetsItsOwn(all, 0, 0, 2) && MeetsItsOwn(all, 0, 1, 2)
  {
    assert SupportedBelow(all, 1) == [];
    assert SupportedIn(all) == [1];
    assert Rank(all, 0) == 0 && Rank(all, 1) == 0;
    OwnWhenAllRead(all, 0, 0, 2);
    OwnWhenAllRead(all, 0, 1, 2);
  }

  // -------------------------------------------------------- Classification

  /** Classification has no such guard: line by line, the truths follow the supported files. With
      a file for every image, a result meets the truth of its own file exactly when every file of
      its batch up to its own is readable. */
  lemma ClassifiedAgainstItsOwn(readable: seq<bool>, niter: nat, request: nat, slot: nat, batch: nat)
    requires request < niter && slot < batch && 0 < niter * batch <= |readable|
    ensures forall j :: 0 <= j < batch ==> AnnotationFor(request, j, batch) < |readable|
    ensures var r := ReadableOf(Wanted(|readable|, request, 0, batch, 1), readable);
      (slot < |r| && r[slot] == AnnotationFor(request, slot, batch)) <==>
        forall j :: 0 <= j <= slot ==> readable[AnnotationFor(request, j, batch)]
  {
    WantedInTurn(|readable|, niter, request, batch);
    SlotExactly(Wanted(|readable|, request, 0, batch, 1), readable, slot);
  }

  // ----------------------------------------------------------------- Usage

  /** How often file `f` is among the first `total` numbers. */
  function Uses(files: nat, total: nat, f: nat): nat
    requires files > 0
  {
    if total == 0 then 0 else Uses(files, total - 1, f) + if (total - 1) % files == f then 1 else 0
  }

  /** The files are used evenly: the ones at the front at most once more than the others. */
  lemma {:induction false} UsesExactly(files: nat, total: nat, f: nat)
    requires f < files
    ensures Uses(files, total, f) == total / files + if f < total % files then 1 else 0
  {
    if total == 0 {
      DivModUnique(0, files, 0, 0);
    } else {
      UsesExactly(files, total - 1, f);
      NextShare(files, total - 1, f);
    }
  }

  lemma NextShare(files: nat, x: nat, f: nat)
    requires f < files
    ensures (x + 1) / files + (if f < (x + 1) % files then 1 else 0)
         == x / files + (if f < x % files then 1 else 0) + (if x % files == f then 1 else 0)
  {
    NextDigits(x, files);
  }

  lemma NextDigits(x: nat, d: nat)
    requires d > 0
    ensures x % d + 1 < d ==> (x + 1) / d == x / d && (x + 1) % d == x % d + 1
    ensures x % d + 1 == d ==> (x + 1) / d == x / d + 1 && (x + 1) % d == 0
  {
    var q, r := x / d, x % d;
    assert x == d * q + r;
    if r + 1 < d {
      DivModUnique(x + 1, d, q, r + 1);
    } else {
      TimesNext(q, d);
      DivModUnique(x + 1, d, q + 1, 0);
    }
  }

  /** Every number below the total belongs to exactly one request, slot and input. */
  lemma NumbersBijective(requests: nat, batch: nat, inputs: nat, k: nat)
    requires k < requests * batch * inputs
    ensures exists request: nat, slot: nat, input: nat {:trigger Number(request, slot, input, batch, inputs)} ::
      request < requests && slot < batch && input < inputs && Number(request, slot, input, batch, inputs) == k
    ensures forall r1: nat, s1: nat, i1: nat, r2: nat, s2: nat, i2: nat
      {:trigger Number(r1, s1, i1, batch, inputs), Number(r2, s2, i2, batch, inputs)} ::
      (s1 < batch && i1 < inputs && s2 < batch && i2 < inputs
        && Number(r1, s1, i1, batch, inputs) == k == Number(r2, s2, i2, batch, inputs)) ==>
      r1 == r2 && s1 == s2 && i1 == i2
  {
    var high := Split2(k, inputs, requests * batch);
    var low := Split2(high.0, batch, requests);
    assert Number(low.0, low.1, high.1, batch, inputs) == k;
    forall r1: nat, s1: nat, i1: nat | s1 < batch && i1 < inputs && Number(r1, s1, i1, batch, inputs) == k
      ensures i1 == high.1 && s1 == low.1 && r1 == low.0
    {
      DivModUnique(k, inputs, r1 * batch + s1, i1);
      DivModUnique(k, inputs, high.0, high.1);
      DivModUnique(high.0, batch, r1, s1);
      DivModUnique(high.0, batch, low.0, low.1);
    }
  }
}
