/** Streaming input: the dispatcher hands one buffer at a time to the feeder thread, which writes
    it to the FIFO, while the device ends requests at any moment. One graph, as streaming demands. */
module FifoFeed {
  import opened RequestQueue
  import opened Wrappers
  import Lists

  /** Where the dispatcher is; the request it has taken but not yet started, or is running itself. */
  datatype Phase = Top | Hand(id: nat) | Start(id: nat) | Infer(id: nat)
    | Stopping(ok: bool) | Joining(ok: bool) | Finished(ok: bool)

  /** `buffers` iterations over `requests` requests. An `early` device may end a request before
      that request's buffer is in the FIFO. */
  datatype Setup = Setup(buffers: nat, requests: nat, async: bool, early: bool)

  /** `active` gives the buffer of every request the device is working on. */
  datatype State = State(phase: Phase, next: nat, slot: Option<nat>, written: seq<nat>, stop: bool,
                         feederDone: bool, pool: Pool, active: map<nat, nat>)

  /** One uninterrupted action of the dispatcher, the device or the feeder. */
  datatype Step = TakeIdle | Throw | FillSlot | Launch | AllIdleNow | SetStop | Join
    | End(id: nat, latency: real) | Break(id: nat)
    | Feed | FeederExits

  function Initial(c: Setup): State {
    State(Top, 0, None, [], false, false, Fresh(c.requests), map[])
  }

  predicate Can(c: Setup, s: State, step: Step) {
    match step
    case TakeIdle => s.phase == Top && s.next < c.buffers && Enabled(s.pool, Take)
    case Throw => s.phase == Top && Excepted(s.pool)
    case FillSlot => s.phase.Hand? && s.slot == None
    case Launch => s.phase.Start?
    case AllIdleNow => s.phase == Top && s.next >= c.buffers && AllIdle(s.pool)
    case SetStop => s.phase.Stopping?
    case Join => s.phase.Joining? && s.feederDone
    case End(id, _) =>
      && id in s.active && id in s.pool.running && (c.async || s.phase == Infer(id))
      && (c.early || s.active[id] < |s.written|)
    case Break(id) => id in s.active && id in s.pool.running && (c.async || s.phase == Infer(id))
    case Feed => !s.feederDone && !s.stop && s.slot != None
    case FeederExits => !s.feederDone && s.stop
  }

  function Do(c: Setup, s: State, step: Step): State
    requires Can(c, s, step)
  {
    match step
    case TakeIdle => s.(phase := Hand(s.pool.idle[0]), pool := After(s.pool, Take))
    case Throw => s.(phase := Stopping(false))
    case FillSlot => s.(phase := Start(s.phase.id), slot := Some(s.next))
    case Launch =>
      var t := s.(active := s.active[s.phase.id := s.next]);
      if c.async then t.(phase := Top, next := s.next + 1) else t.(phase := Infer(s.phase.id))
    case AllIdleNow => s.(phase := Stopping(true))
    case SetStop => s.(phase := Joining(s.phase.ok), stop := true)
    case Join => s.(phase := Finished(s.phase.ok))
    case End(id, latency) =>
      var t := s.(active := s.active - {id}, pool := After(s.pool, Complete(id, latency)));
      if c.async then t else t.(phase := Top, next := s.next + 1)
    case Break(id) =>
      var t := s.(active := s.active - {id});
      if c.async then t.(pool := After(s.pool, Fail(id))) else t.(phase := Stopping(false))
    case Feed => s.(written := s.written + [s.slot.value], slot := None)
    case FeederExits => s.(feederDone := true)
  }

  ghost predicate IsRun(c: Setup, s: State, steps: seq<Step>, t: State)
    decreases |steps|
  {
    if steps == [] then s == t
    else Can(c, s, steps[0]) && IsRun(c, Do(c, s, steps[0]), steps[1..], t)
  }

  // ------------------------------------------------------------ Invariants

  predicate Dispatching(s: State) { s.phase == Top || Holding(s) }

  predicate Holding(s: State) { s.phase.Hand? || s.phase.Start? || s.phase.Infer? }

  function InSlot(s: State): seq<nat> {
    match s.slot
    case None => []
    case Some(b) => [b]
  }

  /** The first `n` buffers in dispatch order. */
  function FirstBuffers(n: nat): (r: seq<nat>)
    ensures |r| == n
  {
    seq(n, i => i)
  }

  /** How many buffers the dispatcher has put in the slot. */
  function Handed(s: State): nat { |s.written| + |InSlot(s)| }

  /** What is in the FIFO, then the slot: exactly the buffers handed over, in order. */
  ghost predicate InOrder(s: State) {
    s.written + InSlot(s) == FirstBuffers(Handed(s))
  }

  /** The counters agree with where the dispatcher is. */
  ghost predicate Counted(c: Setup, s: State) {
    && s.next <= c.buffers && Handed(s) <= c.buffers
    && (Holding(s) ==> s.next < c.buffers)
    && (Dispatching(s) ==>
          && s.pool.dispatched == s.next + (if Holding(s) then 1 else 0)
          && Handed(s) == s.next + (if s.phase.Start? || s.phase.Infer? then 1 else 0))
    && |s.pool.latencies| + |s.pool.broken| <= s.pool.dispatched <= c.buffers
  }

  /** Stop is set once and for all after the stopping phase, and only then does the feeder end. */
  ghost predicate Controlled(s: State) {
    && (s.stop <==> s.phase.Joining? || s.phase.Finished?)
    && (s.feederDone ==> s.stop)
    && (s.phase.Finished? ==> s.feederDone)
  }

  /** While dispatching, what runs is what the device works on and the request just taken. */
  ghost predicate Owned(c: Setup, s: State) {
    && s.pool.requests == c.requests
    && (Dispatching(s) ==> forall id :: id in s.pool.running <==>
          id in s.active || ((s.phase.Hand? || s.phase.Start?) && id == s.phase.id))
    && (s.phase.Hand? || s.phase.Start? ==> s.phase.id !in s.active)
    && (s.phase.Infer? ==> s.phase.id in s.active)
    && (!c.async && Dispatching(s) ==> forall id :: id in s.active ==> s.phase == Infer(id))
    && (c.async ==> !s.phase.Infer?)
  }

  /** Every request the device works on has had its buffer handed over. */
  ghost predicate Served(s: State) {
    forall id :: id in s.active ==> s.active[id] < Handed(s)
  }

  /** The dispatcher left its loop after a normal wait for all requests. */
  predicate EndedOk(s: State) {
    match s.phase
    case Stopping(ok) => ok
    case Joining(ok) => ok
    case Finished(ok) => ok
    case _ => false
  }

  /** Unless the device is early, the buffer in the slot belongs to a request that has not ended. */
  ghost predicate Covered(c: Setup, s: State) {
    && (!c.early && Dispatching(s) && !Excepted(s.pool) && s.slot.Some? && !s.phase.Start? ==>
          exists id :: id in s.active && s.active[id] == s.slot.value)
    && (!c.early && EndedOk(s) ==> s.slot == None)
  }

  /** A normal end has dispatched and completed everything. */
  ghost predicate Completed(c: Setup, s: State) {
    EndedOk(s) ==>
      && Handed(s) == c.buffers
      && s.active == map[] && s.pool.running == {} && s.pool.broken == {}
      && |s.pool.latencies| == s.pool.dispatched == c.buffers
  }

  ghost predicate Invariant(c: Setup, s: State) {
    && Consistent(s.pool) && InOrder(s) && Counted(c, s) && Controlled(s)
    && Owned(c, s) && Served(s) && Covered(c, s) && Completed(c, s)
  }

  lemma InitialInvariant(c: Setup)
    ensures Invariant(c, Initial(c))
  {
    FreshConsistent(c.requests);
  }

  /** The part of the state that a step may change keeps the pool consistent. */
  lemma StepKeepsPool(c: Setup, s: State, step: Step)
    requires Consistent(s.pool) && Can(c, s, step)
    ensures Consistent(Do(c, s, step).pool)
  {
    match step
    case TakeIdle => EventKeepsConsistent(s.pool, Take);
    case End(id, latency) => EventKeepsConsistent(s.pool, Complete(id, latency));
    case Break(id) => EventKeepsConsistent(s.pool, Fail(id));
    case _ =>
  }

  lemma StepKeepsOrder(c: Setup, s: State, step: Step)
    requires InOrder(s) && Counted(c, s) && Can(c, s, step)
    ensures InOrder(Do(c, s, step))
  {
    var t := Do(c, s, step);
    match step
    case FillSlot =>
      assert s.written + InSlot(s) == s.written;
      assert FirstBuffers(|s.written|) + [s.next] == FirstBuffers(|s.written| + 1);
    case Feed =>
      assert t.written + InSlot(t) == s.written + InSlot(s);
    case _ =>
  }

  /** The slot holds the buffer after the last one written. */
  lemma SlotIsNext(s: State)
    requires InOrder(s) && s.slot.Some?
    ensures s.slot.value == |s.written| == Handed(s) - 1
  {
    assert (s.written + InSlot(s))[|s.written|] == FirstBuffers(Handed(s))[|s.written|];
  }

  lemma StepKeepsCounts(c: Setup, s: State, step: Step)
    requires Consistent(s.pool) && Counted(c, s) && Owned(c, s) && Can(c, s, step)
    ensures Counted(c, Do(c, s, step))
  {
    match step
    case End(_, _) => EndKeepsCounts(c, s, step);
    case Break(_) => EndKeepsCounts(c, s, step);
    case _ =>
  }

  lemma EndKeepsCounts(c: Setup, s: State, step: Step)
    requires Consistent(s.pool) && Counted(c, s) && Owned(c, s) && Can(c, s, step) && (step.End? || step.Break?)
    ensures Counted(c, Do(c, s, step))
  {
    StepKeepsPool(c, s, step);
  }

  lemma StepKeepsControl(c: Setup, s: State, step: Step)
    requires Controlled(s) && Can(c, s, step)
    ensures Controlled(Do(c, s, step))
  {
  }

  lemma StepKeepsOwners(c: Setup, s: State, step: Step)
    requires Consistent(s.pool) && Owned(c, s) && Can(c, s, step)
    ensures Owned(c, Do(c, s, step))
  {
    match step
    case TakeIdle => TakeKeepsOwners(c, s);
    case End(id, _) => EndKeepsOwners(c, s, step, id);
    case Break(id) => EndKeepsOwners(c, s, step, id);
    case _ =>
  }

  lemma TakeKeepsOwners(c: Setup, s: State)
    requires Consistent(s.pool) && Owned(c, s) && Can(c, s, TakeIdle)
    ensures Owned(c, Do(c, s, TakeIdle))
  {
    assert s.pool.idle[0] in Lists.Members(s.pool.idle);
  }

  lemma EndKeepsOwners(c: Setup, s: State, step: Step, id: nat)
    requires Consistent(s.pool) && Owned(c, s) && Can(c, s, step) && (step == Break(id) || (step.End? && step.id == id))
    ensures Owned(c, Do(c, s, step))
  {
  }

  lemma StepKeepsServed(c: Setup, s: State, step: Step)
    requires Counted(c, s) && Served(s) && Can(c, s, step)
    ensures Served(Do(c, s, step))
  {
    var t := Do(c, s, step);
    assert Handed(s) <= Handed(t);
  }

  /** With nothing running, nothing is active. */
  lemma NothingActive(c: Setup, s: State)
    requires Owned(c, s) && s.phase == Top && s.pool.running == {}
    ensures s.active == map[]
  {
    forall id ensures id !in s.active {
      assert id !in s.pool.running;
    }
  }

  lemma StepKeepsCover(c: Setup, s: State, step: Step)
    requires Consistent(s.pool) && InOrder(s) && Counted(c, s) && Owned(c, s) && Covered(c, s) && Can(c, s, step)
    ensures Covered(c, Do(c, s, step))
  {
    var t := Do(c, s, step);
    match step
    case AllIdleNow =>
      IdleCount(s.pool);
      NothingActive(c, s);
    case Launch =>
      if s.slot.Some? { SlotIsNext(s); }
      assert s.phase.id in t.active && t.active[s.phase.id] == s.next;
    case End(_, _) =>
      if !c.early && Dispatching(s) && !Excepted(s.pool) && s.slot.Some? && !s.phase.Start? {
        SlotIsNext(s);
        var owner :| owner in s.active && s.active[owner] == s.slot.value;
        assert owner in t.active && t.active[owner] == t.slot.value;
      }
    case _ =>
  }

  lemma StepKeepsCompletion(c: Setup, s: State, step: Step)
    requires Consistent(s.pool) && Counted(c, s) && Owned(c, s) && Completed(c, s) && Can(c, s, step)
    ensures Completed(c, Do(c, s, step))
  {
    if step == AllIdleNow {
      IdleCount(s.pool);
      NothingActive(c, s);
    }
  }

  lemma StepKeepsInvariant(c: Setup, s: State, step: Step)
    requires Invariant(c, s) && Can(c, s, step)
    ensures Invariant(c, Do(c, s, step))
  {
    StepKeepsPool(c, s, step);
    StepKeepsOrder(c, s, step);
    StepKeepsCounts(c, s, step);
    StepKeepsControl(c, s, step);
    StepKeepsOwners(c, s, step);
    StepKeepsServed(c, s, step);
    StepKeepsCover(c, s, step);
    StepKeepsCompletion(c, s, step);
  }

  lemma {:induction false} RunKeepsInvariant(c: Setup, s: State, steps: seq<Step>, t: State)
    requires Invariant(c, s) && IsRun(c, s, steps, t)
    ensures Invariant(c, t)
    decreases |steps|
  {
    if steps != [] {
      StepKeepsInvariant(c, s, steps[0]);
      RunKeepsInvariant(c, Do(c, s, steps[0]), steps[1..], t);
    }
  }

  // --------------------------------------------------------------- Results

  /** Whatever the interleaving, failures included: the FIFO followed by the slot is exactly the
      buffers handed over so far, in dispatch order. */
  lemma FifoInOrder(c: Setup, steps: seq<Step>, s: State)
    requires IsRun(c, Initial(c), steps, s)
    ensures s.written + InSlot(s) == FirstBuffers(|s.written| + |InSlot(s)|)
    ensures |s.written| + |InSlot(s)| <= c.buffers
    ensures s.phase == Top ==> |s.written| + |InSlot(s)| == s.next
  {
    InitialInvariant(c);
    RunKeepsInvariant(c, Initial(c), steps, s);
  }

  /** If no request ends before its buffer is written, a normal end has written and completed
      everything, and the slot was already empty when stop was set. */
  lemma NothingLost(c: Setup, steps: seq<Step>, s: State)
    requires !c.early && IsRun(c, Initial(c), steps, s) && EndedOk(s)
    ensures s.slot == None && s.written == FirstBuffers(c.buffers)
    ensures |s.pool.latencies| == s.pool.dispatched == c.buffers
  {
    InitialInvariant(c);
    RunKeepsInvariant(c, Initial(c), steps, s);
    assert s.written + InSlot(s) == s.written;
  }

  /** Whatever the device does, a normal end can miss only the last buffer, and misses it exactly
      when the slot is still full. */
  lemma AtMostLastLost(c: Setup, steps: seq<Step>, s: State)
    requires IsRun(c, Initial(c), steps, s) && EndedOk(s)
    ensures s.written == FirstBuffers(c.buffers) <==> s.slot == None
    ensures s.slot != None ==> c.early && s.slot == Some(c.buffers - 1) && s.written == FirstBuffers(c.buffers - 1)
  {
    InitialInvariant(c);
    RunKeepsInvariant(c, Initial(c), steps, s);
    if s.slot == None {
      assert s.written + InSlot(s) == s.written;
    } else {
      SlotIsNext(s);
      assert s.written == FirstBuffers(c.buffers)[..c.buffers - 1] == FirstBuffers(c.buffers - 1) by {
        assert s.written == (s.written + InSlot(s))[..c.buffers - 1];
      }
    }
  }

  // ------------------------------------------- When the last buffer is lost

  /** Between two rounds: nothing in the slot, nothing running, the first `k` buffers written. */
  ghost predicate Quiet(c: Setup, s: State, k: nat) {
    && Invariant(c, s) && s.phase == Top && s.next == k
    && s.slot == None && |s.written| == k
    && s.pool.running == {} && s.pool.broken == {}
  }

  lemma {:induction false} Concatenate(c: Setup, s: State, a: seq<Step>, t: State, b: seq<Step>, u: State)
    requires IsRun(c, s, a, t) && IsRun(c, t, b, u)
    ensures IsRun(c, s, a + b, u)
    decreases |a|
  {
    if a == [] {
      assert a + b == b;
    } else {
      Concatenate(c, Do(c, s, a[0]), a[1..], t, b, u);
      assert (a + b)[0] == a[0] && (a + b)[1..] == a[1..] + b;
    }
  }

  /** One request at work, its buffer in the slot. */
  ghost predicate Working(c: Setup, s: State, id: nat, k: nat) {
    && Invariant(c, s) && s.phase == (if c.async then Top else Infer(id)) && s.next == k + (if c.async then 1 else 0)
    && s.slot == Some(k) && |s.written| == k
    && s.pool.running == {id} && s.pool.broken == {} && s.active == map[id := k]
  }

  /** From a quiet state the next request is started with its buffer in the slot. */
  lemma Started(c: Setup, s: State) returns (steps: seq<Step>, t: State, id: nat)
    requires c.requests > 0 && Quiet(c, s, s.next) && s.next < c.buffers
    ensures IsRun(c, s, steps, t) && Working(c, t, id, s.next)
  {
    IdleCount(s.pool);
    NothingActive(c, s);
    var taken := Do(c, s, TakeIdle);
    StepKeepsInvariant(c, s, TakeIdle);
    var filled := Do(c, taken, FillSlot);
    StepKeepsInvariant(c, taken, FillSlot);
    t := Do(c, filled, Launch);
    StepKeepsInvariant(c, filled, Launch);
    id := s.pool.idle[0];
    steps := Prepend(c, filled, Launch, [], t);
    steps := Prepend(c, taken, FillSlot, steps, t);
    steps := Prepend(c, s, TakeIdle, steps, t);
  }

  lemma FedAndEnded(c: Setup, s: State, id: nat, k: nat) returns (steps: seq<Step>, t: State)
    requires Working(c, s, id, k)
    ensures IsRun(c, s, steps, t) && Quiet(c, t, k + 1)
  {
    var fed := Do(c, s, Feed);
    StepKeepsInvariant(c, s, Feed);
    t := Do(c, fed, End(id, 0.0));
    StepKeepsInvariant(c, fed, End(id, 0.0));
    steps := Prepend(c, fed, End(id, 0.0), [], t);
    steps := Prepend(c, s, Feed, steps, t);
  }

  /** A whole round, the buffer fed before its request ends. */
  lemma Round(c: Setup, s: State) returns (steps: seq<Step>, t: State)
    requires c.requests > 0 && Quiet(c, s, s.next) && s.next < c.buffers
    ensures IsRun(c, s, steps, t) && Quiet(c, t, s.next + 1)
  {
    var first, started, id := Started(c, s);
    var rest;
    rest, t := FedAndEnded(c, started, id, s.next);
    Concatenate(c, s, first, started, rest, t);
    steps := first + rest;
  }

  lemma {:induction false} Rounds(c: Setup, k: nat) returns (steps: seq<Step>, t: State)
    requires c.requests > 0 && k <= c.buffers
    ensures IsRun(c, Initial(c), steps, t) && Quiet(c, t, k)
  {
    if k == 0 {
      InitialInvariant(c);
      return [], Initial(c);
    }
    var before, s := Rounds(c, k - 1);
    var last;
    last, t := Round(c, s);
    Concatenate(c, Initial(c), before, s, last, t);
    steps := before + last;
  }

  /** After the last request, with nothing running, everything is shut down. */
  lemma ShutDown(c: Setup, s: State) returns (steps: seq<Step>, t: State)
    requires s.phase == Top && s.next >= c.buffers && AllIdle(s.pool) && !s.feederDone
    ensures IsRun(c, s, steps, t) && t.phase == Finished(true) && t.written == s.written
  {
    var stopping := Do(c, s, AllIdleNow);
    var joining := Do(c, stopping, SetStop);
    var exited := Do(c, joining, FeederExits);
    t := Do(c, exited, Join);
    steps := Prepend(c, exited, Join, [], t);
    steps := Prepend(c, joining, FeederExits, steps, t);
    steps := Prepend(c, stopping, SetStop, steps, t);
    steps := Prepend(c, s, AllIdleNow, steps, t);
  }

  /** The request of an early device ends before the feeder moves. */
  lemma EndedUnfed(c: Setup, s: State, id: nat, k: nat) returns (t: State)
    requires c.early && Working(c, s, id, k)
    ensures Can(c, s, End(id, 0.0)) && t == Do(c, s, End(id, 0.0))
    ensures t.phase == Top && t.next == k + 1 && AllIdle(t.pool) && !t.feederDone && |t.written| == k
  {
    t := Do(c, s, End(id, 0.0));
    StepKeepsInvariant(c, s, End(id, 0.0));
    IdleCount(t.pool);
  }

  lemma UnfedEnd(c: Setup, s: State) returns (steps: seq<Step>, t: State)
    requires c.requests > 0 && c.early && Quiet(c, s, s.next) && s.next + 1 == c.buffers
    ensures IsRun(c, s, steps, t) && t.phase == Finished(true) && |t.written| == s.next
  {
    var first, started, id := Started(c, s);
    var ended := EndedUnfed(c, started, id, s.next);
    var rest;
    rest, t := ShutDown(c, ended);
    rest := Prepend(c, started, End(id, 0.0), rest, t);
    Concatenate(c, s, first, started, rest, t);
    steps := first + rest;
  }

  /** With any early device and any buffer at all, some run ends normally with its last buffer
      never written. */
  lemma LostWhenEarly(c: Setup) returns (steps: seq<Step>, s: State)
    requires c.requests > 0 && c.early && c.buffers > 0
    ensures IsRun(c, Initial(c), steps, s) && s.phase == Finished(true) && |s.written| == c.buffers - 1
  {
    var before, quiet := Rounds(c, c.buffers - 1);
    var last;
    last, s := UnfedEnd(c, quiet);
    Concatenate(c, Initial(c), before, quiet, last, s);
    steps := before + last;
  }

  /** Every run that ends normally has written everything. */
  ghost predicate NeverLoses(c: Setup) {
    forall steps: seq<Step>, s: State ::
      IsRun(c, Initial(c), steps, s) && s.phase == Finished(true) ==> s.written == FirstBuffers(c.buffers)
  }

  /** No buffer is ever lost in a normal run, if and only if the device never ends a request
      before its buffer is written, or there is nothing to write. */
  lemma NeverLosesExactly(c: Setup)
    requires c.requests > 0
    ensures NeverLoses(c) <==> !c.early || c.buffers == 0
  {
    if c.early && c.buffers > 0 {
      var steps, s := LostWhenEarly(c);
    } else {
      forall steps: seq<Step>, s: State | IsRun(c, Initial(c), steps, s) && s.phase == Finished(true)
        ensures s.written == FirstBuffers(c.buffers)
      {
        AtMostLastLost(c, steps, s);
        FifoInOrder(c, steps, s);
      }
    }
  }

  lemma Prepend(c: Setup, s: State, step: Step, rest: seq<Step>, t: State) returns (steps: seq<Step>)
    requires Can(c, s, step) && IsRun(c, Do(c, s, step), rest, t)
    ensures IsRun(c, s, steps, t)
  {
    steps := [step] + rest;
    assert steps[1..] == rest;
  }

  /** No deadlock: short of the end some step other than a failure is possible, whatever failed before. */
  lemma SomeStepPossible(c: Setup, s: State) returns (step: Step)
    requires c.requests > 0 && Invariant(c, s) && !s.phase.Finished?
    ensures Can(c, s, step) && !step.Break?
  {
    IdleCount(s.pool);
    match s.phase
    case Top =>
      if Excepted(s.pool) {
        step := Throw;
      } else if s.next < c.buffers && s.pool.idle != [] {
        step := TakeIdle;
      } else if s.next >= c.buffers && |s.pool.idle| == c.requests {
        step := AllIdleNow;
      } else {
        step := WorkLeft(c, s);
      }
    case Hand(_) => step := if s.slot == None then FillSlot else Feed;
    case Start(_) => step := Launch;
    case Infer(id) =>
      assert id in s.pool.running && id in s.active;
      step := if s.slot == None then End(id, 0.0) else Feed;
    case Stopping(_) => step := SetStop;
    case Joining(_) => step := if s.feederDone then Join else FeederExits;
  }

  /** While the dispatcher waits for an idle request, the feeder or the device can move. */
  lemma WorkLeft(c: Setup, s: State) returns (step: Step)
    requires Invariant(c, s) && s.phase == Top && !Excepted(s.pool) && |s.pool.idle| < c.requests
    ensures Can(c, s, step) && (step.Feed? || step.End?)
  {
    IdleCount(s.pool);
    assert s.pool.running != {};
    if s.slot.Some? {
      step := Feed;
    } else {
      var id :| id in s.pool.running;
      assert s.phase == Top && id in s.active;
      step := End(id, 0.0);
    }
  }

  /** How far the dispatcher is; the handed over, ended and feeder steps are counted apart. */
  function Stage(c: Setup, s: State): nat {
    match s.phase
    case Top => 4 * s.next
    case Hand(_) => 4 * s.next + 1
    case Start(_) => 4 * s.next + 2
    case Infer(_) => 4 * s.next + 3
    case Stopping(_) => 4 * c.buffers + 1
    case Joining(_) => 4 * c.buffers + 2
    case Finished(_) => 4 * c.buffers + 3
  }

  function Progress(c: Setup, s: State): nat {
    Stage(c, s) + |s.written| + |s.pool.latencies| + |s.pool.broken| + (if s.feederDone then 1 else 0)
  }

  lemma StepProgresses(c: Setup, s: State, step: Step)
    requires Consistent(s.pool) && Counted(c, s) && Can(c, s, step)
    ensures Progress(c, s) < Progress(c, Do(c, s, step))
  {
  }

  /** No run is longer than this, so no step can be repeated for ever. */
  lemma {:induction false} RunsAreBounded(c: Setup, s: State, steps: seq<Step>, t: State)
    requires Invariant(c, s) && IsRun(c, s, steps, t)
    ensures Progress(c, s) + |steps| <= Progress(c, t) <= 6 * c.buffers + 4
    decreases |steps|
  {
    if steps != [] {
      StepProgresses(c, s, steps[0]);
      StepKeepsInvariant(c, s, steps[0]);
      RunsAreBounded(c, Do(c, s, steps[0]), steps[1..], t);
    }
  }

  /** No request has failed. */
  ghost predicate Unbroken(s: State) {
    s.pool.broken == {} && s.phase != Stopping(false) && s.phase != Joining(false) && s.phase != Finished(false)
  }

  lemma UnbrokenStays(c: Setup, s: State, step: Step)
    requires Can(c, s, step) && Unbroken(s) && !step.Break?
    ensures Unbroken(Do(c, s, step))
  {
  }

  /** From everywhere a run without further failures leads to the end; if nothing has failed, to the
      normal one. */
  lemma {:induction false} CanAlwaysFinish(c: Setup, s: State) returns (steps: seq<Step>, t: State)
    requires c.requests > 0 && Invariant(c, s)
    ensures IsRun(c, s, steps, t) && t.phase.Finished?
    ensures forall k :: 0 <= k < |steps| ==> !steps[k].Break?
    ensures Unbroken(s) ==> t.phase == Finished(true)
    decreases 6 * c.buffers + 4 - Progress(c, s)
  {
    if s.phase.Finished? {
      return [], s;
    }
    var step := SomeStepPossible(c, s);
    StepProgresses(c, s, step);
    StepKeepsInvariant(c, s, step);
    RunsAreBounded(c, Do(c, s, step), [], Do(c, s, step));
    if Unbroken(s) { UnbrokenStays(c, s, step); }
    var rest;
    rest, t := CanAlwaysFinish(c, Do(c, s, step));
    steps := [step] + rest;
    assert steps[1..] == rest;
  }
}
