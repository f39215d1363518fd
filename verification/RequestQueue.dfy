/** The pool of inference requests: who is idle, who is running, who failed. */
module RequestQueue {
  import opened Arithmetic
  import opened Lists

  // ------------------------------------------------------------- As a value

  /** Idle ids in hand-out order; running and broken ids; one latency for each completed request. */
  datatype Pool = Pool(requests: nat, idle: seq<nat>, running: set<nat>, broken: set<nat>,
                       latencies: seq<real>, dispatched: nat)

  datatype Event = Take | Complete(id: nat, latency: real) | Fail(id: nat)

  predicate Excepted(p: Pool) { p.broken != {} }

  /** An event that can happen: a request can be taken while one is idle and none has failed;
      only a running request ends. */
  predicate Enabled(p: Pool, e: Event) {
    match e
    case Take => |p.idle| > 0 && !Excepted(p)
    case Complete(id, _) => id in p.running
    case Fail(id) => id in p.running
  }

  function After(p: Pool, e: Event): Pool
    requires Enabled(p, e)
  {
    match e
    case Take => p.(idle := p.idle[1..], running := p.running + {p.idle[0]}, dispatched := p.dispatched + 1)
    case Complete(id, latency) =>
      p.(idle := p.idle + [id], running := p.running - {id}, latencies := p.latencies + [latency])
    case Fail(id) => p.(running := p.running - {id}, broken := p.broken + {id})
  }

  function Fresh(requests: nat): Pool {
    Pool(requests, seq(requests, i => i), {}, {}, [], 0)
  }

  /** The ids below `n`. */
  ghost function Below(n: nat): (ids: set<nat>)
    ensures forall i: nat :: i in ids <==> i < n
    ensures |ids| == n
  {
    if n == 0 then {} else Below(n - 1) + {n - 1}
  }

  /** Three disjoint sets that make up the ids below `n`. */
  ghost predicate Splits(a: set<nat>, b: set<nat>, c: set<nat>, n: nat) {
    && (forall i: nat :: i < n <==> i in a || i in b || i in c)
    && (forall i :: i in a ==> i !in b)
    && (forall i :: i in c ==> i !in a && i !in b)
  }

  lemma SplitsCardinality(a: set<nat>, b: set<nat>, c: set<nat>, n: nat)
    requires Splits(a, b, c, n)
    ensures |a| + |b| + |c| == n
  {
    var ab := a + b;
    assert a * b == {} && |ab| == |a| + |b|;
    assert ab * c == {} && |ab + c| == |ab| + |c|;
    assert ab + c == Below(n);
  }

  /** Every id is in exactly one of the three places, and the latencies count what completed. */
  ghost predicate Consistent(p: Pool) {
    && Distinct(p.idle)
    && Splits(Members(p.idle), p.running, p.broken, p.requests)
    && |p.latencies| + |p.running| + |p.broken| == p.dispatched
  }

  lemma FreshConsistent(requests: nat)
    ensures Consistent(Fresh(requests))
  {
    var p := Fresh(requests);
    forall i: nat | i < requests ensures i in p.idle { assert p.idle[i] == i; }
    assert Members(p.idle) == Below(requests);
  }

  lemma EventMoves(p: Pool, e: Event)
    requires Distinct(p.idle) && Members(p.idle) !! p.running && Enabled(p, e)
    ensures var q := After(p, e);
      match e
      case Take => Members(q.idle) == Members(p.idle) - {p.idle[0]}
      case Complete(id, _) => Members(q.idle) == Members(p.idle) + {id}
      case Fail(_) => q.idle == p.idle
    ensures Distinct(After(p, e).idle)
  {
    match e
    case Take =>
      assert p.idle == [p.idle[0]] + p.idle[1..];
    case Complete(id, _) =>
      assert id !in Members(p.idle);
    case Fail(_) =>
  }

  lemma EventKeepsConsistent(p: Pool, e: Event)
    requires Consistent(p) && Enabled(p, e)
    ensures Consistent(After(p, e))
  {
    EventMoves(p, e);
    match e
    case Take =>
      assert p.idle[0] in Members(p.idle);
    case Complete(_, _) =>
    case Fail(_) =>
  }

  /** The events can happen one after the other from `p` and lead to `q`. */
  ghost predicate IsRunOf(p: Pool, events: seq<Event>, q: Pool)
    decreases |events|
  {
    if events == [] then p == q
    else Enabled(p, events[0]) && IsRunOf(After(p, events[0]), events[1..], q)
  }

  lemma {:induction false} RunKeepsConsistent(p: Pool, events: seq<Event>, q: Pool)
    requires Consistent(p) && IsRunOf(p, events, q)
    ensures Consistent(q) && q.requests == p.requests
    decreases |events|
  {
    if events != [] {
      EventKeepsConsistent(p, events[0]);
      RunKeepsConsistent(After(p, events[0]), events[1..], q);
    }
  }

  /** When the wait for all requests can return normally. */
  predicate AllIdle(p: Pool) { !Excepted(p) && |p.idle| == p.requests }

  lemma IdleCount(p: Pool)
    requires Consistent(p)
    ensures |p.idle| + |p.running| + |p.broken| == p.requests
  {
    DistinctCardinality(p.idle);
    SplitsCardinality(Members(p.idle), p.running, p.broken, p.requests);
  }

  /** A normal return of the wait means that nothing runs, nothing failed, and every dispatched
      request left a latency. */
  lemma WaitAllMeansDone(requests: nat, events: seq<Event>, p: Pool)
    requires IsRunOf(Fresh(requests), events, p) && AllIdle(p)
    ensures p.running == {} && p.broken == {} && |p.latencies| == p.dispatched
  {
    FreshConsistent(requests);
    RunKeepsConsistent(Fresh(requests), events, p);
    IdleCount(p);
    assert p.running == {};
  }

  // ------------------------------------------------- The pool, from its events

  /** The ids that came back, in the order in which they did. */
  function Returned(events: seq<Event>): seq<nat> {
    if events == [] then []
    else (if events[0].Complete? then [events[0].id] else []) + Returned(events[1..])
  }

  function Latencies(events: seq<Event>): seq<real> {
    if events == [] then []
    else (if events[0].Complete? then [events[0].latency] else []) + Latencies(events[1..])
  }

  function Takes(events: seq<Event>): nat {
    if events == [] then 0 else (if events[0].Take? then 1 else 0) + Takes(events[1..])
  }

  ghost function Failed(events: seq<Event>): set<nat> {
    set e | e in events && e.Fail? :: e.id
  }

  lemma FailedFirst(events: seq<Event>)
    requires events != []
    ensures Failed(events) == (if events[0].Fail? then {events[0].id} else {}) + Failed(events[1..])
  {
    assert events == [events[0]] + events[1..];
  }

  lemma {:induction false} LineMoves(p: Pool, events: seq<Event>)
    requires events != [] && Enabled(p, events[0])
    ensures var (line, next) := (p.idle + Returned(events), After(p, events[0]).idle + Returned(events[1..]));
      if events[0].Take? then line != [] && next == line[1..] && Takes(events) == Takes(events[1..]) + 1
      else next == line && Takes(events) == Takes(events[1..])
  {
    match events[0]
    case Take =>
      assert Returned(events) == Returned(events[1..]);
      assert p.idle[1..] + Returned(events) == (p.idle + Returned(events))[1..];
    case Complete(id, _) =>
      assert (p.idle + [id]) + Returned(events[1..]) == p.idle + ([id] + Returned(events[1..]));
    case Fail(_) =>
      assert Returned(events) == Returned(events[1..]);
  }

  lemma {:induction false} QueueOfRun(p: Pool, events: seq<Event>, q: Pool)
    requires IsRunOf(p, events, q)
    ensures Takes(events) <= |p.idle + Returned(events)| && q.idle == (p.idle + Returned(events))[Takes(events)..]
    decreases |events|
  {
    if events == [] {
      assert p.idle + [] == p.idle;
    } else {
      LineMoves(p, events);
      QueueOfRun(After(p, events[0]), events[1..], q);
    }
  }

  lemma {:induction false} CountsOfRun(p: Pool, events: seq<Event>, q: Pool)
    requires IsRunOf(p, events, q)
    ensures q.latencies == p.latencies + Latencies(events)
    ensures q.dispatched == p.dispatched + Takes(events)
    ensures q.broken == p.broken + Failed(events) && q.requests == p.requests
    decreases |events|
  {
    if events != [] {
      FailedFirst(events);
      CountsOfRun(After(p, events[0]), events[1..], q);
    }
  }

  /** Ids are handed out first in, first out: line up all ids and then those that came back, and
      strike out as many as were taken. Latencies are kept in the order of the completions, and a
      failed request never comes back. */
  lemma PoolIsFifo(requests: nat, events: seq<Event>, p: Pool)
    requires IsRunOf(Fresh(requests), events, p)
    ensures var line := seq(requests, i => i) + Returned(events);
            Takes(events) <= |line| && p.idle == line[Takes(events)..]
    ensures p.latencies == Latencies(events) && p.dispatched == Takes(events) && p.broken == Failed(events)
    ensures Splits(Members(p.idle), p.running, p.broken, requests)
  {
    QueueOfRun(Fresh(requests), events, p);
    CountsOfRun(Fresh(requests), events, p);
    FreshConsistent(requests);
    RunKeepsConsistent(Fresh(requests), events, p);
    assert [] + Latencies(events) == Latencies(events) && {} + Failed(events) == Failed(events);
  }

  // -------------------------------------------------------------- As a class

  datatype Handout = Rethrown | Request(id: nat)

  class InferRequestsQueue {
    const requests: nat
    var idleIds: seq<nat>
    var latencies: seq<real>
    var inferenceException: bool
    ghost var pool: Pool

    ghost predicate Valid()
      reads this
    {
      && Consistent(pool) && pool.requests == requests
      && idleIds == pool.idle && latencies == pool.latencies
      && (inferenceException <==> Excepted(pool))
    }

    constructor (nireq: nat)
      ensures Valid() && pool == Fresh(nireq)
    {
      requests := nireq;
      idleIds := [];
      latencies, inferenceException := [], false;
      pool := Fresh(nireq);
      new;
      for id := 0 to nireq
        invariant idleIds == seq(id, i => i) && latencies == [] && !inferenceException
        invariant pool == Fresh(nireq)
      {
        idleIds := idleIds + [id];
      }
      FreshConsistent(nireq);
    }

    /** The callback of a request that ended. */
    method PutIdleRequest(id: nat, latency: real, failed: bool)
      requires Valid() && id in pool.running
      modifies this
      ensures Valid() && pool == After(old(pool), if failed then Fail(id) else Complete(id, latency))
    {
      ghost var e := if failed then Fail(id) else Complete(id, latency);
      EventKeepsConsistent(pool, e);
      pool := After(pool, e);
      if failed {
        inferenceException := true;
        assert id in pool.broken;
      } else {
        latencies := latencies + [latency];
        idleIds := idleIds + [id];
      }
    }

    /** What happens once the wait for an idle request is over. */
    method GetIdleRequest() returns (r: Handout)
      requires Valid() && (inferenceException || |idleIds| > 0)
      modifies this
      ensures Valid()
      ensures old(inferenceException) ==> r == Rethrown && pool == old(pool)
      ensures !old(inferenceException) ==> r == Request(old(idleIds)[0]) && pool == After(old(pool), Take)
    {
      if inferenceException {
        return Rethrown;
      }
      EventKeepsConsistent(pool, Take);
      pool := After(pool, Take);
      r := Request(idleIds[0]);
      idleIds := idleIds[1..];
    }

    /** What happens once the wait for all requests is over; false stands for the rethrown exception. */
    method WaitAll() returns (ok: bool)
      requires Valid() && (inferenceException || |idleIds| == requests)
      ensures ok <==> !inferenceException
      ensures ok ==> pool.running == {} && pool.broken == {} && |latencies| == pool.dispatched
    {
      if inferenceException {
        return false;
      }
      IdleCount(pool);
      return true;
    }
  }

  // ---------------------------------------------------------- Dispatch loop

  /** The number of iterations, rounded up to a multiple of the number of requests. */
  function RoundUp(niter: nat, nireq: nat): nat
    requires nireq > 0
  {
    ((niter + nireq - 1) / nireq) * nireq
  }

  lemma RoundUpExactly(niter: nat, nireq: nat)
    requires nireq > 0
    ensures RoundUp(niter, nireq) % nireq == 0
    ensures niter <= RoundUp(niter, nireq) < niter + nireq
  {
    CeilDivCovers(niter, nireq);
    DivModUnique(RoundUp(niter, nireq), nireq, CeilDiv(niter, nireq), 0);
  }

  /** One dispatch: the input it reads, the output tensor it is given, and how many output
      tensors the graph has by then. */
  datatype Dispatch = Dispatch(input: nat, slot: nat, tensors: nat)

  /** The inputs in order, each with the newest tensor, which is there and which nobody else got. */
  ghost predicate InOrder(log: seq<Dispatch>) {
    forall k :: 0 <= k < |log| ==> log[k].input == k && log[k].slot == k < log[k].tensors == k + 1
  }

  /** Each graph's dispatches, its iteration counter and the length of its tensor list. */
  datatype Progress = Progress(logs: seq<seq<Dispatch>>, iterations: seq<nat>, tensors: seq<nat>)

  ghost predicate Counted(p: Progress, nets: nat) {
    && |p.logs| == |p.iterations| == |p.tensors| == nets
    && forall n :: 0 <= n < nets ==> InOrder(p.logs[n]) && |p.logs[n]| == p.iterations[n] == p.tensors[n]
  }

  /** One request for one graph. `handsOut` tells whether the queue hands out a request for this
      graph and iteration, or rethrows the exception of one that failed. */
  method DispatchOne(net: nat, before: Progress, handsOut: (nat, nat) -> bool) returns (ok: bool, p: Progress)
    requires net < |before.logs| && Counted(before, |before.logs|)
    ensures Counted(p, |before.logs|)
    ensures ok == handsOut(net, before.iterations[net])
    ensures forall n :: 0 <= n < |before.logs| ==>
              p.iterations[n] == before.iterations[n] + if ok && n == net then 1 else 0
  {
    p := before;
    var iteration := p.iterations[net];
    if !handsOut(net, iteration) {
      return false, p;
    }
    p := p.(tensors := p.tensors[net := p.tensors[net] + 1]);
    var dispatch := Dispatch(iteration, iteration, p.tensors[net]);
    p := p.(logs := p.logs[net := p.logs[net] + [dispatch]], iterations := p.iterations[net := iteration + 1]);
    ok := true;
  }

  /** One round: `nireq` requests for every graph. */
  method DispatchRound(nets: nat, nireq: nat, start: nat, before: Progress, handsOut: (nat, nat) -> bool)
    returns (ok: bool, p: Progress)
    requires Counted(before, nets) && forall n :: 0 <= n < nets ==> before.iterations[n] == start
    ensures Counted(p, nets)
    ensures ok <==> forall n: nat, i: nat :: n < nets && start <= i < start + nireq ==> handsOut(n, i)
    ensures ok ==> forall n :: 0 <= n < nets ==> p.iterations[n] == start + nireq
    ensures forall n :: 0 <= n < nets ==> p.iterations[n] <= start + nireq
  {
    p := before;
    for net := 0 to nets
      invariant Counted(p, nets)
      invariant forall n :: 0 <= n < nets ==> p.iterations[n] == if n < net then start + nireq else start
      invariant forall n: nat, i: nat :: n < net && start <= i < start + nireq ==> handsOut(n, i)
    {
      for ireq := 0 to nireq
        invariant Counted(p, nets)
        invariant forall n :: 0 <= n < nets ==>
                    p.iterations[n] == if n < net then start + nireq else if n == net then start + ireq else start
        invariant forall i: nat :: start <= i < start + ireq ==> handsOut(net, i)
      {
        ok, p := DispatchOne(net, p, handsOut);
        if !ok {
          return;
        }
      }
    }
    ok := true;
  }

  /** The dispatch loop. Whatever happens, every graph has been given its first inputs in order,
      each with an output tensor of its own that exists by then; unless a request has failed, these
      are the inputs 0 to niter-1, and no input beyond the rounded number is ever touched. */
  method DispatchAll(nets: nat, niterFlag: nat, nireq: nat, async: bool, handsOut: (nat, nat) -> bool)
    returns (ok: bool, logs: seq<seq<Dispatch>>, niter: nat)
    requires nets > 0 && nireq > 0
    ensures niter == RoundUp(niterFlag, nireq)
    ensures |logs| == nets && forall n :: 0 <= n < nets ==> InOrder(logs[n]) && |logs[n]| <= niter
    ensures ok <==> forall n: nat, i: nat :: n < nets && i < niter ==> handsOut(n, i)
    ensures ok ==> forall n :: 0 <= n < nets ==> |logs[n]| == niter
  {
    niter := niterFlag;
    if niter > 0 {
      niter := ((niter + nireq - 1) / nireq) * nireq;
    } else {
      DivModUnique(nireq - 1, nireq, 0, nireq - 1);
    }
    RoundUpExactly(niterFlag, nireq);
    var p := Progress(seq(nets, _ => []), seq(nets, _ => 0), seq(nets, _ => 0));
    while (niter != 0 && p.iterations[nets - 1] < niter) || (async && p.iterations[nets - 1] % nireq != 0)
      invariant Counted(p, nets) && p.iterations[nets - 1] <= niter && p.iterations[nets - 1] % nireq == 0
      invariant forall n :: 0 <= n < nets ==> p.iterations[n] == p.iterations[nets - 1]
      invariant forall n: nat, i: nat :: n < nets && i < p.iterations[nets - 1] ==> handsOut(n, i)
      decreases niter - p.iterations[nets - 1]
    {
      var start := p.iterations[nets - 1];
      NextMultiple(start, niter, nireq);
      ok, p := DispatchRound(nets, nireq, start, p, handsOut);
      if !ok {
        return false, p.logs, niter;
      }
    }
    return true, p.logs, niter;
  }

  lemma NextMultiple(a: nat, b: nat, d: nat)
    requires d > 0 && a % d == 0 && b % d == 0 && a < b
    ensures a + d <= b && (a + d) % d == 0
  {
    var p, q := a / d, b / d;
    assert a == p * d && b == q * d;
    if p >= q { MulMonotone(q, p, d); }
    MulMonotone(p + 1, q, d);
    TimesNext(p, d);
    DivModUnique(a + d, d, p + 1, 0);
  }
}
