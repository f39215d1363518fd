/** Every run of the dispatch loop ends, and without a failed request it can end normally. */
module DispatchEnds {
  import opened Arithmetic
  import opened RequestQueue
  import opened GraphDispatch

  // --------------------------------------------------------------- The work left

  /** Five units for every request still to be taken, one for every running one. */
  function Work(c: Setup, g: Graph): int {
    5 * (c.niter - g.pool.dispatched) + |g.pool.running|
  }

  function TotalWork(c: Setup, graphs: seq<Graph>): int {
    if graphs == [] then 0 else TotalWork(c, graphs[..|graphs| - 1]) + Work(c, graphs[|graphs| - 1])
  }

  lemma {:induction false} WorkChanges(c: Setup, graphs: seq<Graph>, n: nat, g: Graph)
    requires n < |graphs|
    ensures TotalWork(c, graphs[n := g]) == TotalWork(c, graphs) - Work(c, graphs[n]) + Work(c, g)
  {
    var m := |graphs| - 1;
    if n < m {
      WorkChanges(c, graphs[..m], n, g);
      assert graphs[n := g][..m] == graphs[..m][n := g];
    } else {
      assert graphs[n := g][..m] == graphs[..m];
    }
  }

  lemma {:induction false} WorkNeverNegative(c: Setup, graphs: seq<Graph>)
    requires forall k :: 0 <= k < |graphs| ==> Work(c, graphs[k]) >= 0
    ensures TotalWork(c, graphs) >= 0
  {
    if graphs != [] {
      var m := |graphs| - 1;
      forall k | 0 <= k < m ensures Work(c, graphs[..m][k]) >= 0 { assert graphs[..m][k] == graphs[k]; }
      WorkNeverNegative(c, graphs[..m]);
    }
  }

  /** A round costs at most one step for each graph and two more. */
  function Rounds(c: Setup, left: int): int { left * (c.nets + 2) }

  /** The steps of the dispatcher alone. */
  function Ahead(c: Setup, s: State): int
    requires c.nets > 0 && |s.graphs| == c.nets
  {
    match s.phase
    case Top => Rounds(c, c.niter - s.graphs[c.nets - 1].iteration) + c.nets + 1
    case Round(start, net, _) => Rounds(c, c.niter - start) + c.nets - net
    case Start(start, net, _, _) => Rounds(c, c.niter - start) + c.nets - net + 2
    case Infer(start, net, _, _) => Rounds(c, c.niter - start) + c.nets - net + 1
    case Wait(net) => c.nets - net
    case Finished(_) => 0
  }

  function Left(c: Setup, s: State): int
    requires c.nets > 0 && |s.graphs| == c.nets
  {
    if s.phase.Finished? then 0 else TotalWork(c, s.graphs) + Ahead(c, s)
  }

  lemma LeftPositive(c: Setup, s: State)
    requires Sound(c) && Invariant(c, s) && !s.phase.Finished?
    ensures Left(c, s) > 0 && TotalWork(c, s.graphs) >= 0 && Ahead(c, s) > 0
  {
    forall k | 0 <= k < |s.graphs| ensures Work(c, s.graphs[k]) >= 0 { NoneBeyond(c, s, k); }
    WorkNeverNegative(c, s.graphs);
    match s.phase
    case Top => MulMonotone(0, c.niter - s.graphs[c.nets - 1].iteration, c.nets + 2);
    case Round(start, _, _) => MulMonotone(0, c.niter - start, c.nets + 2);
    case Start(start, _, _, _) => MulMonotone(0, c.niter - start, c.nets + 2);
    case Infer(start, _, _, _) => MulMonotone(0, c.niter - start, c.nets + 2);
    case Wait(_) =>
  }

  /** No graph is asked for more than the rounded number. */
  lemma NoneBeyond(c: Setup, s: State, k: nat)
    requires Sound(c) && Invariant(c, s) && !s.phase.Finished? && k < c.nets
    ensures s.graphs[k].pool.dispatched <= c.niter
  {
  }

  // ------------------------------------------------------------- Step by step

  /** Going on to the next graph, or to the next round. */
  lemma NextLess(c: Setup, s: State)
    requires Sound(c) && Invariant(c, s) && Can(c, s, NextGraph)
    ensures Ahead(c, Do(c, s, NextGraph)) < Ahead(c, s)
  {
    var p := s.phase;
    if p.net + 1 == c.nets {
      assert s.graphs[c.nets - 1].iteration == p.start + c.requests;
      RoundsLess(c.niter - p.start, c.requests, c.nets + 2);
    }
  }

  lemma RoundsLess(left: int, requests: nat, n: nat)
    requires requests > 0
    ensures (left - requests) * n <= left * n - n
  {
    MulMonotone(left - requests, left - 1, n);
    TimesNext(left - 1, n);
  }

  lemma EnterLess(c: Setup, s: State)
    requires Sound(c) && Invariant(c, s) && Can(c, s, Enter)
    ensures Ahead(c, Do(c, s, Enter)) < Ahead(c, s)
  {
    MulMonotone(0, c.niter - s.graphs[c.nets - 1].iteration, c.nets + 2);
  }

  /** A change of one graph, and of the phase with it. */
  lemma GraphChanges(c: Setup, s: State, net: nat, g: Graph, phase: Phase)
    requires Sound(c) && |s.graphs| == c.nets && net < c.nets && !s.phase.Top? && !phase.Top?
    requires !s.phase.Finished? && !phase.Finished?
    ensures Left(c, State(phase, s.graphs[net := g])) - Left(c, s)
         == Work(c, g) - Work(c, s.graphs[net]) + Ahead(c, State(phase, s.graphs)) - Ahead(c, s)
  {
    WorkChanges(c, s.graphs, net, g);
  }

  lemma CallbackLess(c: Setup, s: State, net: nat, id: nat, pool: Pool)
    requires Sound(c) && Invariant(c, s) && AtWork(c, s, net, id)
    requires pool.dispatched == s.graphs[net].pool.dispatched && pool.running == s.graphs[net].pool.running - {id}
    ensures Work(c, s.graphs[net].(pool := pool)) < Work(c, s.graphs[net])
  {
    assert |pool.running| == |s.graphs[net].pool.running| - 1;
  }

  lemma TakeLess(c: Setup, s: State)
    requires Sound(c) && Invariant(c, s) && Can(c, s, TakeIdle)
    ensures Left(c, Do(c, s, TakeIdle)) < Left(c, s)
  {
    var p, g := s.phase, s.graphs[s.phase.net];
    var taken := g.(pool := After(g.pool, Take));
    assert |taken.pool.running| <= |g.pool.running| + 1;
    GraphChanges(c, s, p.net, taken, Start(p.start, p.net, p.ireq, g.pool.idle[0]));
  }

  lemma LaunchLess(c: Setup, s: State)
    requires Sound(c) && Invariant(c, s) && Can(c, s, Launch)
    ensures Left(c, Do(c, s, Launch)) < Left(c, s)
  {
    var p, g := s.phase, Launched(s.graphs[s.phase.net]);
    if c.async {
      GraphChanges(c, s, p.net, Advanced(g), Round(p.start, p.net, p.ireq + 1));
    } else {
      GraphChanges(c, s, p.net, g, Infer(p.start, p.net, p.ireq, p.id));
    }
  }

  lemma EndLess(c: Setup, s: State, net: nat, id: nat, latency: real)
    requires Sound(c) && Invariant(c, s) && Can(c, s, End(net, id, latency))
    ensures Left(c, Do(c, s, End(net, id, latency))) < Left(c, s)
  {
    var pool := After(s.graphs[net].pool, Complete(id, latency));
    CallbackLess(c, s, net, id, pool);
    if c.async {
      CallbackInPhase(c, s, net, pool);
    } else {
      var p := s.phase;
      GraphChanges(c, s, net, Advanced(s.graphs[net].(pool := pool)), Round(p.start, p.net, p.ireq + 1));
    }
  }

  /** A callback leaves the dispatcher where it is. */
  lemma CallbackInPhase(c: Setup, s: State, net: nat, pool: Pool)
    requires Sound(c) && |s.graphs| == c.nets && net < c.nets && !s.phase.Finished?
    requires Work(c, s.graphs[net].(pool := pool)) < Work(c, s.graphs[net])
    ensures Left(c, s.(graphs := s.graphs[net := s.graphs[net].(pool := pool)])) < Left(c, s)
  {
    WorkChanges(c, s.graphs, net, s.graphs[net].(pool := pool));
  }

  lemma BreakLess(c: Setup, s: State, net: nat, id: nat)
    requires Sound(c) && Invariant(c, s) && Can(c, s, Break(net, id))
    ensures Left(c, Do(c, s, Break(net, id))) < Left(c, s)
  {
    if c.async {
      var pool := After(s.graphs[net].pool, Fail(id));
      CallbackLess(c, s, net, id, pool);
      CallbackInPhase(c, s, net, pool);
    } else {
      LeftPositive(c, s);
    }
  }

  lemma StepLess(c: Setup, s: State, step: Step)
    requires Sound(c) && Invariant(c, s) && Can(c, s, step)
    ensures Left(c, Do(c, s, step)) < Left(c, s)
  {
    match step
    case Enter => EnterLess(c, s);
    case TakeIdle => TakeLess(c, s);
    case NextGraph => NextLess(c, s);
    case Throw => LeftPositive(c, s);
    case Launch => LaunchLess(c, s);
    case AllIdleNow => LeftPositive(c, s);
    case End(net, id, latency) => EndLess(c, s, net, id, latency);
    case Break(net, id) => BreakLess(c, s, net, id);
  }

  // ------------------------------------------------------------------ Results

  lemma {:induction false} RunShortens(c: Setup, s: State, steps: seq<Step>, t: State)
    requires Sound(c) && Invariant(c, s) && IsRun(c, s, steps, t)
    ensures Invariant(c, t) && 0 <= Left(c, t) <= Left(c, s) - |steps|
    decreases |steps|
  {
    if steps == [] {
      if !s.phase.Finished? { LeftPositive(c, s); }
    } else {
      StepKeepsInvariant(c, s, steps[0]);
      StepLess(c, s, steps[0]);
      RunShortens(c, Do(c, s, steps[0]), steps[1..], t);
    }
  }

  lemma {:induction false} FreshWork(c: Setup, graphs: seq<Graph>)
    requires forall k :: 0 <= k < |graphs| ==> graphs[k].pool == Fresh(c.requests)
    ensures TotalWork(c, graphs) == 5 * (|graphs| * c.niter)
  {
    if graphs != [] {
      FreshWork(c, graphs[..|graphs| - 1]);
      TimesNext(|graphs| - 1, c.niter);
    }
  }

  /** However callbacks interleave and requests fail, no run is longer than this. */
  lemma RunsAreBounded(c: Setup, steps: seq<Step>, s: State)
    requires Sound(c) && IsRun(c, Initial(c), steps, s)
    ensures |steps| <= 5 * (c.nets * c.niter) + c.niter * (c.nets + 2) + c.nets + 1
  {
    InitialInvariant(c);
    FreshWork(c, Initial(c).graphs);
    RunShortens(c, Initial(c), steps, s);
  }

  ghost predicate Unbroken(s: State) {
    s.phase != Finished(false) && forall k :: 0 <= k < |s.graphs| ==> s.graphs[k].pool.broken == {}
  }

  lemma UnbrokenStays(c: Setup, s: State, step: Step)
    requires Sound(c) && |s.graphs| == c.nets && Can(c, s, step) && Unbroken(s) && !step.Break?
    ensures Unbroken(Do(c, s, step))
  {
  }

  /** From everywhere a run without further failures leads to the end; if nothing has failed, to the
      normal one. */
  lemma {:induction false} CanAlwaysFinish(c: Setup, s: State) returns (steps: seq<Step>, t: State)
    requires Sound(c) && Invariant(c, s)
    ensures IsRun(c, s, steps, t) && t.phase.Finished?
    ensures forall k :: 0 <= k < |steps| ==> !steps[k].Break?
    ensures Unbroken(s) ==> t.phase == Finished(true)
    decreases Left(c, s)
  {
    if s.phase.Finished? {
      return [], s;
    }
    var step := SomeStepPossible(c, s);
    var next := Do(c, s, step);
    StepLess(c, s, step);
    LeftPositive(c, s);
    StepKeepsInvariant(c, s, step);
    if Unbroken(s) { UnbrokenStays(c, s, step); }
    var rest;
    rest, t := CanAlwaysFinish(c, next);
    steps := [step] + rest;
    assert steps[1..] == rest;
  }
}
