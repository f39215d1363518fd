/** The dispatch loop over several graphs, each with a pool of requests that callbacks change at
    any moment. Streaming input is left to the feed through a FIFO. */
module GraphDispatch {
  import opened Arithmetic
  import opened RequestQueue

  /** Every graph has `requests` requests; `niter` is the wanted number, rounded up. */
  datatype Setup = Setup(nets: nat, requests: nat, niter: nat, async: bool)

  predicate Sound(c: Setup) {
    c.nets > 0 && c.requests > 0 && c.niter % c.requests == 0
  }

  /** The setup for a wanted number of iterations. */
  function Rounded(nets: nat, niterFlag: nat, nireq: nat, async: bool): (c: Setup)
    requires nets > 0 && nireq > 0
    ensures Sound(c) && niterFlag <= c.niter < niterFlag + nireq
  {
    RoundUpExactly(niterFlag, nireq);
    Setup(nets, nireq, RoundUp(niterFlag, nireq), async)
  }

  datatype Graph = Graph(log: seq<Dispatch>, iteration: nat, tensors: nat, pool: Pool)

  /** Where the dispatcher is. A round remembers the counter it began with; `id` is the request
      taken and not yet started, or the one the dispatcher runs itself. */
  datatype Phase = Top | Round(start: nat, net: nat, ireq: nat) | Start(start: nat, net: nat, ireq: nat, id: nat)
    | Infer(start: nat, net: nat, ireq: nat, id: nat) | Wait(net: nat) | Finished(ok: bool)

  datatype State = State(phase: Phase, graphs: seq<Graph>)

  /** One uninterrupted action of the dispatcher or of a callback. */
  datatype Step = Enter | TakeIdle | NextGraph | Throw | Launch | AllIdleNow
    | End(net: nat, id: nat, latency: real) | Break(net: nat, id: nat)

  function Initial(c: Setup): State {
    State(Top, seq(c.nets, _ => Graph([], 0, 0, Fresh(c.requests))))
  }

  /** The loop condition reads the last graph's counter. */
  predicate LoopOn(c: Setup, last: nat)
    requires c.requests > 0
  {
    (c.niter != 0 && last < c.niter) || (c.async && last % c.requests != 0)
  }

  /** The dispatcher waits for an idle request of a graph. */
  predicate Asks(c: Setup, p: Phase) {
    p.Round? && p.net < c.nets && p.ireq < c.requests
  }

  predicate Waits(c: Setup, p: Phase) { p.Wait? && p.net < c.nets }

  /** A request that works: running, and not just taken. */
  predicate AtWork(c: Setup, s: State, net: nat, id: nat) {
    && net < |s.graphs| && id in s.graphs[net].pool.running && !s.phase.Finished?
    && (if c.async then !(s.phase.Start? && s.phase.net == net && s.phase.id == id)
        else s.phase.Infer? && s.phase.net == net && s.phase.id == id)
  }

  predicate Can(c: Setup, s: State, step: Step)
    requires Sound(c) && |s.graphs| == c.nets
  {
    match step
    case Enter => s.phase.Top?
    case TakeIdle => Asks(c, s.phase) && Enabled(s.graphs[s.phase.net].pool, Take)
    case NextGraph => s.phase.Round? && s.phase.net < c.nets && s.phase.ireq == c.requests
    case Throw => (Asks(c, s.phase) || Waits(c, s.phase)) && Excepted(s.graphs[s.phase.net].pool)
    case Launch => s.phase.Start? && s.phase.net < c.nets
    case AllIdleNow => Waits(c, s.phase) && AllIdle(s.graphs[s.phase.net].pool)
    case End(net, id, _) => AtWork(c, s, net, id)
    case Break(net, id) => AtWork(c, s, net, id)
  }

  /** The input is the graph's counter, and the output tensor the newest of its list. */
  function Launched(g: Graph): Graph {
    g.(tensors := g.tensors + 1, log := g.log + [Dispatch(g.iteration, g.iteration, g.tensors + 1)])
  }

  function Advanced(g: Graph): Graph { g.(iteration := g.iteration + 1) }

  function Do(c: Setup, s: State, step: Step): (t: State)
    requires Sound(c) && |s.graphs| == c.nets && Can(c, s, step)
    ensures |t.graphs| == |s.graphs|
  {
    match step
    case Enter =>
      var last := s.graphs[c.nets - 1].iteration;
      s.(phase := if LoopOn(c, last) then Round(last, 0, 0) else Wait(0))
    case TakeIdle =>
      var p, g := s.phase, s.graphs[s.phase.net];
      State(Start(p.start, p.net, p.ireq, g.pool.idle[0]), s.graphs[p.net := g.(pool := After(g.pool, Take))])
    case NextGraph =>
      var p := s.phase;
      s.(phase := if p.net + 1 < c.nets then Round(p.start, p.net + 1, 0) else Top)
    case Throw => s.(phase := Finished(false))
    case Launch =>
      var p, g := s.phase, Launched(s.graphs[s.phase.net]);
      if c.async then State(Round(p.start, p.net, p.ireq + 1), s.graphs[p.net := Advanced(g)])
      else State(Infer(p.start, p.net, p.ireq, p.id), s.graphs[p.net := g])
    case AllIdleNow =>
      s.(phase := if s.phase.net + 1 < c.nets then Wait(s.phase.net + 1) else Finished(true))
    case End(net, id, latency) =>
      var p, g := s.phase, s.graphs[net].(pool := After(s.graphs[net].pool, Complete(id, latency)));
      if c.async then s.(graphs := s.graphs[net := g])
      else State(Round(p.start, p.net, p.ireq + 1), s.graphs[net := Advanced(g)])
    case Break(net, id) =>
      var g := s.graphs[net];
      if c.async then s.(graphs := s.graphs[net := g.(pool := After(g.pool, Fail(id)))])
      else s.(phase := Finished(false))
  }

  ghost predicate IsRun(c: Setup, s: State, steps: seq<Step>, t: State)
    requires Sound(c) && |s.graphs| == c.nets
    decreases |steps|
  {
    if steps == [] then s == t
    else Can(c, s, steps[0]) && IsRun(c, Do(c, s, steps[0]), steps[1..], t)
  }

  // ------------------------------------------------------------ Invariants

  /** A graph whose counter stands at `n`, with `taken` requests and `launched` dispatches more. */
  ghost predicate At(c: Setup, g: Graph, n: nat, taken: nat, launched: nat) {
    && Consistent(g.pool) && g.pool.requests == c.requests && InOrder(g.log)
    && g.iteration == n && |g.log| == g.tensors == n + launched && g.pool.dispatched == n + taken
  }

  ghost predicate Level(c: Setup, graphs: seq<Graph>, n: nat) {
    forall k :: 0 <= k < |graphs| ==> At(c, graphs[k], n, 0, 0)
  }

  /** How far a graph is in a round: the graphs before `net` are through, those behind have not begun. */
  function CountIn(c: Setup, start: nat, net: nat, ireq: nat, k: nat): nat {
    start + if k < net then c.requests else if k == net then ireq else 0
  }

  ghost predicate InRound(c: Setup, graphs: seq<Graph>, start: nat, net: nat, ireq: nat, taken: nat, launched: nat)
    requires Sound(c)
  {
    && net < |graphs| && ireq + taken <= c.requests && start + c.requests <= c.niter && start % c.requests == 0
    && forall k :: 0 <= k < |graphs| ==>
         At(c, graphs[k], CountIn(c, start, net, ireq, k), if k == net then taken else 0, if k == net then launched else 0)
  }

  ghost predicate Settled(g: Graph) { g.pool.running == {} && g.pool.broken == {} }

  /** Whatever happened, the inputs were dispatched in order and none beyond the rounded number. */
  ghost predicate Safe(c: Setup, g: Graph) {
    InOrder(g.log) && |g.log| <= c.niter
  }

  ghost predicate Placed(c: Setup, s: State)
    requires Sound(c) && |s.graphs| == c.nets
  {
    match s.phase
    case Top =>
      var last := s.graphs[c.nets - 1].iteration;
      last <= c.niter && last % c.requests == 0 && Level(c, s.graphs, last)
    case Round(start, net, ireq) => InRound(c, s.graphs, start, net, ireq, 0, 0)
    case Start(start, net, ireq, id) =>
      InRound(c, s.graphs, start, net, ireq, 1, 0) && id in s.graphs[net].pool.running
    case Infer(start, net, ireq, id) =>
      !c.async && InRound(c, s.graphs, start, net, ireq, 1, 1) && id in s.graphs[net].pool.running
    case Wait(net) =>
      net < c.nets && Level(c, s.graphs, c.niter) && forall k :: 0 <= k < net ==> Settled(s.graphs[k])
    case Finished(ok) =>
      if ok then Level(c, s.graphs, c.niter) && forall k :: 0 <= k < c.nets ==> Settled(s.graphs[k])
      else forall k :: 0 <= k < c.nets ==> Safe(c, s.graphs[k])
  }

  /** The request that the dispatcher itself holds of a graph. */
  function HeldOf(p: Phase, k: nat): set<nat> {
    if (p.Start? || p.Infer?) && p.net == k then {p.id} else {}
  }

  /** Without callbacks, nothing runs but what the dispatcher holds, and nothing is ever broken. */
  ghost predicate Alone(c: Setup, s: State) {
    !c.async && !s.phase.Finished? ==>
      forall k :: 0 <= k < |s.graphs| ==> s.graphs[k].pool.running == HeldOf(s.phase, k) && s.graphs[k].pool.broken == {}
  }

  ghost predicate Invariant(c: Setup, s: State)
    requires Sound(c)
  {
    |s.graphs| == c.nets && Placed(c, s) && Alone(c, s)
  }

  lemma InitialInvariant(c: Setup)
    requires Sound(c)
    ensures Invariant(c, Initial(c))
  {
    FreshConsistent(c.requests);
    DivModUnique(0, c.requests, 0, 0);
  }

  // ---------------------------------------------------------- Step by step

  lemma EnterKeeps(c: Setup, s: State)
    requires Sound(c) && Invariant(c, s) && Can(c, s, Enter)
    ensures Invariant(c, Do(c, s, Enter))
  {
    var last := s.graphs[c.nets - 1].iteration;
    if LoopOn(c, last) {
      NextMultiple(last, c.niter, c.requests);
    }
  }

  lemma TakeKeeps(c: Setup, s: State)
    requires Sound(c) && Invariant(c, s) && Can(c, s, TakeIdle)
    ensures Invariant(c, Do(c, s, TakeIdle))
  {
    EventKeepsConsistent(s.graphs[s.phase.net].pool, Take);
  }

  lemma NextKeeps(c: Setup, s: State)
    requires Sound(c) && Invariant(c, s) && Can(c, s, NextGraph)
    ensures Invariant(c, Do(c, s, NextGraph))
  {
    var p := s.phase;
    if p.net + 1 == c.nets {
      SumUnits(p.start, c.requests, c.requests);
      DivModUnique(c.requests, c.requests, 1, 0);
    }
  }

  lemma ThrowKeeps(c: Setup, s: State)
    requires Sound(c) && Invariant(c, s) && Can(c, s, Throw)
    ensures Invariant(c, Do(c, s, Throw))
  {
  }

  lemma LaunchKeeps(c: Setup, s: State)
    requires Sound(c) && Invariant(c, s) && Can(c, s, Launch)
    ensures Invariant(c, Do(c, s, Launch))
  {
  }

  lemma AllIdleKeeps(c: Setup, s: State)
    requires Sound(c) && Invariant(c, s) && Can(c, s, AllIdleNow)
    ensures Invariant(c, Do(c, s, AllIdleNow))
  {
    IdleCount(s.graphs[s.phase.net].pool);
  }

  /** A callback changes nothing but the pool of its graph. */
  lemma CallbackKeeps(c: Setup, s: State, net: nat, id: nat, pool: Pool)
    requires Sound(c) && Invariant(c, s) && c.async && AtWork(c, s, net, id)
    requires Consistent(pool) && pool.requests == c.requests && pool.dispatched == s.graphs[net].pool.dispatched
    requires pool.running == s.graphs[net].pool.running - {id}
    ensures Invariant(c, s.(graphs := s.graphs[net := s.graphs[net].(pool := pool)]))
  {
  }

  lemma EndKeeps(c: Setup, s: State, net: nat, id: nat, latency: real)
    requires Sound(c) && Invariant(c, s) && Can(c, s, End(net, id, latency))
    ensures Invariant(c, Do(c, s, End(net, id, latency)))
  {
    var pool := s.graphs[net].pool;
    EventKeepsConsistent(pool, Complete(id, latency));
    if c.async { CallbackKeeps(c, s, net, id, After(pool, Complete(id, latency))); }
  }

  lemma BreakKeeps(c: Setup, s: State, net: nat, id: nat)
    requires Sound(c) && Invariant(c, s) && Can(c, s, Break(net, id))
    ensures Invariant(c, Do(c, s, Break(net, id)))
  {
    if c.async {
      EventKeepsConsistent(s.graphs[net].pool, Fail(id));
      CallbackKeeps(c, s, net, id, After(s.graphs[net].pool, Fail(id)));
    } else {
      forall k: nat | k < c.nets ensures Safe(c, s.graphs[k]) { PlacedIsSafe(c, s, k); }
    }
  }

  lemma PlacedIsSafe(c: Setup, s: State, k: nat)
    requires Sound(c) && Invariant(c, s) && k < c.nets
    ensures Safe(c, s.graphs[k])
  {
  }

  lemma StepKeepsInvariant(c: Setup, s: State, step: Step)
    requires Sound(c) && Invariant(c, s) && Can(c, s, step)
    ensures Invariant(c, Do(c, s, step))
  {
    match step
    case Enter => EnterKeeps(c, s);
    case TakeIdle => TakeKeeps(c, s);
    case NextGraph => NextKeeps(c, s);
    case Throw => ThrowKeeps(c, s);
    case Launch => LaunchKeeps(c, s);
    case AllIdleNow => AllIdleKeeps(c, s);
    case End(net, id, latency) => EndKeeps(c, s, net, id, latency);
    case Break(net, id) => BreakKeeps(c, s, net, id);
  }

  lemma {:induction false} RunKeepsInvariant(c: Setup, s: State, steps: seq<Step>, t: State)
    requires Sound(c) && Invariant(c, s) && IsRun(c, s, steps, t)
    ensures Invariant(c, t)
    decreases |steps|
  {
    if steps != [] {
      StepKeepsInvariant(c, s, steps[0]);
      RunKeepsInvariant(c, Do(c, s, steps[0]), steps[1..], t);
    }
  }

  // --------------------------------------------------------------- Results

  /** After a normal wait on every queue, in every interleaving with the callbacks: each graph was
      given the inputs 0 to niter-1 in order, each with an output tensor of its own that existed by
      then, every request has completed, and there is a latency for every input. */
  lemma NormalEndMeansDone(c: Setup, steps: seq<Step>, s: State)
    requires Sound(c) && IsRun(c, Initial(c), steps, s) && s.phase == Finished(true)
    ensures |s.graphs| == c.nets
    ensures forall k :: 0 <= k < c.nets ==>
      && InOrder(s.graphs[k].log) && |s.graphs[k].log| == c.niter
      && s.graphs[k].pool.running == {} && s.graphs[k].pool.broken == {}
      && |s.graphs[k].pool.latencies| == c.niter
  {
    InitialInvariant(c);
    RunKeepsInvariant(c, Initial(c), steps, s);
  }

  /** At any moment, failures included, every graph has been given its first inputs in order, and
      none beyond the rounded number. */
  lemma AlwaysInOrder(c: Setup, steps: seq<Step>, s: State, k: nat)
    requires Sound(c) && IsRun(c, Initial(c), steps, s) && k < c.nets
    ensures |s.graphs| == c.nets && InOrder(s.graphs[k].log) && |s.graphs[k].log| <= c.niter
  {
    InitialInvariant(c);
    RunKeepsInvariant(c, Initial(c), steps, s);
    PlacedIsSafe(c, s, k);
  }

  /** No deadlock: short of the end some step other than a failure is possible. */
  lemma SomeStepPossible(c: Setup, s: State) returns (step: Step)
    requires Sound(c) && Invariant(c, s) && !s.phase.Finished?
    ensures Can(c, s, step) && !step.Break?
  {
    match s.phase
    case Top => step := Enter;
    case Round(start, net, ireq) =>
      if ireq == c.requests { step := NextGraph; } else { step := WhileAsking(c, s); }
    case Start(_, _, _, _) => step := Launch;
    case Infer(_, net, _, id) => step := End(net, id, 0.0);
    case Wait(net) => step := WhileWaiting(c, s);
  }

  lemma WhileAsking(c: Setup, s: State) returns (step: Step)
    requires Sound(c) && Invariant(c, s) && Asks(c, s.phase)
    ensures Can(c, s, step) && !step.Break?
  {
    var net, pool := s.phase.net, s.graphs[s.phase.net].pool;
    IdleCount(pool);
    if Excepted(pool) {
      step := Throw;
    } else if |pool.idle| > 0 {
      step := TakeIdle;
    } else {
      assert pool.running != {};
      var id :| id in pool.running;
      step := End(net, id, 0.0);
    }
  }

  lemma WhileWaiting(c: Setup, s: State) returns (step: Step)
    requires Sound(c) && Invariant(c, s) && s.phase.Wait?
    ensures Can(c, s, step) && !step.Break?
  {
    var net, pool := s.phase.net, s.graphs[s.phase.net].pool;
    IdleCount(pool);
    if Excepted(pool) {
      step := Throw;
    } else if AllIdle(pool) {
      step := AllIdleNow;
    } else {
      assert pool.running != {};
      var id :| id in pool.running;
      step := End(net, id, 0.0);
    }
  }
}
