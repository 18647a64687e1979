/** Runs of the executor with its timer: they are runs of the machine; where `run` spins the
    hardware timer is armed; and `run` returns with no other interrupt. */
module TimedRuns {
  import opened Wrappers
  import opened Programs
  import AsyncTimers
  import DelayRuns
  import Machine
  import Ownership
  import Protocol
  import Progress
  import Termination
  import Capacity
  import Doings
  import opened Paths
  import opened TimedMachine

  // ----- runs -----

  /** The invariants of the two parts, and what ties them together. */
  ghost predicate Inv(s: System, g: Ownership.Ghosts) {
    exists c: Machine.Config :: c == s.config && Protocol.Inv(c, g) && Tracks(s)
  }

  /** The operation of the timer that a step is; none, if it does not concern the timer, or panics. */
  ghost function OpsOf(s: System, e: Event): seq<DelayRuns.Op> {
    if Step(s, e).panicked then []
    else
      match e
      case Tick => [DelayRuns.Signal]
      case Act(a) =>
        if !a.Execute? || !AtDelay(s.config) || Stops(Step(s, e)) then []
        else
          var t := s.config.phase.t;
          if HasDelay(s, t) then
            var id: nat :| Uses(s, id, t);
            [DelayRuns.Poll(id, t)]
          else [DelayRuns.Schedule(s.config.tasks[t].prog.ms)]
  }

  ghost function AllOps(s: System, events: seq<Event>): seq<DelayRuns.Op>
    decreases |events|
  {
    if events == [] then [] else OpsOf(s, events[0]) + AllOps(Step(s, events[0]), events[1..])
  }

  /** The steps of the machine that a step is: an action is itself, and a tick ends the delays due. */
  ghost function ActsOf(s: System, e: Event): seq<Machine.Action> {
    if Step(s, e).panicked then []
    else
      match e
      case Tick => EndsOf(s, |s.owners|)
      case Act(a) => [a]
  }

  ghost function AllActs(s: System, events: seq<Event>): seq<Machine.Action>
    decreases |events|
  {
    if events == [] then [] else ActsOf(s, events[0]) + AllActs(Step(s, events[0]), events[1..])
  }

  /** From s to s' the configuration is moved by a legal run of the machine, and the timer by a
      legal run of its own. */
  ghost predicate Refines(s: System, acts: seq<Machine.Action>, ops: seq<DelayRuns.Op>, s': System) {
    && Machine.LegalRun(s.config, acts) && s'.config == Machine.Run(s.config, acts)
    && DelayRuns.LegalRun(s.world, ops) && DelayRuns.Run(s.world, ops) == Ok(s'.world)
  }

  /** The steps of the machine that a step is; none, if the timer panics or has panicked. */
  lemma {:induction false} MachineStep(s: System, e: Event) returns (acts: seq<Machine.Action>)
    requires Tracks(s) && Legal(s, e)
    ensures acts == ActsOf(s, e)
    ensures Machine.LegalRun(s.config, acts) && Step(s, e).config == Machine.Run(s.config, acts)
  {
    if s.panicked || (e.Tick? && !CanTick(s)) {
      return [];
    }
    match e
    case Tick =>
      TickRefines(s);
      acts := EndsOf(s, |s.owners|);
    case Act(a) =>
      if a.Execute? && AtDelay(s.config) {
        DelayRefines(s);
        if Step(s, e).panicked {
          return [];
        }
      }
      acts := [a];
      Progress.RunOne(s.config, a);
  }

  lemma {:induction false} TimerStep(s: System, e: Event)
    requires Tracks(s) && Legal(s, e)
    ensures DelayRuns.LegalRun(s.world, OpsOf(s, e)) && DelayRuns.Run(s.world, OpsOf(s, e)) == Ok(Step(s, e).world)
  {
    if !s.panicked {
      match e
      case Tick =>
        if CanTick(s) {
          OneOp(s.world, DelayRuns.Signal);
        }
      case Act(a) =>
        if a.Execute? && AtDelay(s.config) {
          DelayOp(s);
        }
    }
  }

  lemma {:induction false} DelayOp(s: System)
    requires Tracks(s) && AtDelay(s.config) && !s.panicked
    ensures var ops := OpsOf(s, Act(Machine.Execute));
            DelayRuns.LegalRun(s.world, ops) && DelayRuns.Run(s.world, ops) == Ok(DelayStep(s).world)
  {
    var t := s.config.phase.t;
    if HasDelay(s, t) {
      var id: nat :| Uses(s, id, t);
      PollRefines(s, id);
      DelayRefines(s);
      OneOp(s.world, DelayRuns.Poll(id, t));
    } else if !Stops(DelayStep(s)) {
      OneOp(s.world, DelayRuns.Schedule(s.config.tasks[t].prog.ms));
    }
  }

  lemma {:induction false} OneOp(w: DelayRuns.World, op: DelayRuns.Op)
    requires DelayRuns.Legal(w, op)
    ensures DelayRuns.LegalRun(w, [op]) && DelayRuns.Run(w, [op]) == DelayRuns.Apply(w, op)
  {
    if DelayRuns.Apply(w, op).Ok? {
      assert DelayRuns.Run(w, [op]) == DelayRuns.Run(DelayRuns.Apply(w, op).value, []);
    }
  }

  lemma {:induction false} StepTracks(s: System, e: Event, g: Ownership.Ghosts)
    requires Inv(s, g) && Legal(s, e)
    ensures Tracks(Step(s, e))
  {
    if s.panicked || (e.Tick? && !CanTick(s)) {
      SameTracks(s, Step(s, e));
      return;
    }
    match e
    case Tick => TickTracks(s);
    case Act(a) =>
      if a.Execute? && AtDelay(s.config) {
        DelayRefines(s);
      } else {
        OtherTracks(s, g, a);
      }
  }

  /** Every run of executor and timer together is a legal run of the machine, whose theorems
      so hold of it, and for the timer a legal run of its own. */
  lemma {:induction false} RunRefines(s: System, events: seq<Event>, g: Ownership.Ghosts)
    returns (acts: seq<Machine.Action>, ops: seq<DelayRuns.Op>, g': Ownership.Ghosts)
    requires Inv(s, g) && LegalRun(s, events)
    ensures acts == AllActs(s, events) && ops == AllOps(s, events)
    ensures Refines(s, acts, ops, Run(s, events)) && Inv(Run(s, events), g')
    decreases |events|
  {
    if events == [] {
      acts, ops, g' := [], [], g;
    } else {
      var s1 := Step(s, events[0]);
      var acts1 := MachineStep(s, events[0]);
      var ops1 := OpsOf(s, events[0]);
      TimerStep(s, events[0]);
      StepTracks(s, events[0], g);
      var g1 := Protocol.RunKeeps(s.config, acts1, g);
      var acts2, ops2, g2 := RunRefines(s1, events[1..], g1);
      Progress.RunAppend(s.config, acts1, acts2);
      DelayRuns.RunAppend(s.world, ops1, ops2);
      acts, ops, g' := acts1 + acts2, ops1 + ops2, g2;
    }
  }

  /** The same from the start. */
  lemma {:induction false} Reachable(events: seq<Event>)
    returns (acts: seq<Machine.Action>, ops: seq<DelayRuns.Op>, g: Ownership.Ghosts)
    requires LegalRun(BEGIN, events)
    ensures acts == AllActs(BEGIN, events) && ops == AllOps(BEGIN, events)
    ensures Refines(BEGIN, acts, ops, Run(BEGIN, events)) && Inv(Run(BEGIN, events), g)
  {
    Protocol.StartInv();
    DelayRuns.Reachable([]);
    assert Tracks(BEGIN);
    acts, ops, g := RunRefines(BEGIN, events, Ownership.Ghosts([], []));
  }

  // ----- what the bodies ask for -----

  /** The delays that a step arms, as it shows in the configuration. */
  ghost function Asked(s: System, e: Event): seq<nat> {
    var c, c' := s.config, Step(s, e).config;
    if e == Act(Machine.Execute) && c.phase.Poll? && c.phase.t < |c.tasks| && c.phase.t < |c'.tasks| then
      var log := Doings.Observed(c, c', c.phase.t);
      if |log| == 1 && log[0].Armed? then [log[0].ms] else []
    else []
  }

  ghost function AllAsked(s: System, events: seq<Event>): seq<nat>
    decreases |events|
  {
    if events == [] then [] else Asked(s, events[0]) + AllAsked(Step(s, events[0]), events[1..])
  }

  function Scheduled(ops: seq<DelayRuns.Op>): seq<nat> {
    if ops == [] then []
    else (if ops[0].Schedule? then [ops[0].deadline] else []) + Scheduled(ops[1..])
  }

  lemma {:induction false} AskedScheduled(s: System, e: Event, g: Ownership.Ghosts)
    requires Inv(s, g) && Legal(s, e)
    ensures Scheduled(OpsOf(s, e)) == Asked(s, e)
  {
    if e == Act(Machine.Execute) && s.config.phase.Poll? && !s.panicked {
      if AtDelay(s.config) {
        DelayAsked(s, g);
      } else {
        assert Protocol.TaskOk(s.config, s.config.phase.t, g);
        PollWaits(s.config, g);
      }
    }
  }

  lemma {:induction false} DelayAsked(s: System, g: Ownership.Ghosts)
    requires Inv(s, g) && AtDelay(s.config) && !s.panicked
    ensures Scheduled(OpsOf(s, Act(Machine.Execute))) == Asked(s, Act(Machine.Execute))
  {
    if HasDelay(s, s.config.phase.t) {
      PollAsked(s, g);
    } else {
      ArmAsked(s, g);
    }
  }

  /** A delay under way is polled, and not asked for again. */
  lemma {:induction false} PollAsked(s: System, g: Ownership.Ghosts)
    requires Inv(s, g) && AtDelay(s.config) && !s.panicked && HasDelay(s, s.config.phase.t)
    ensures Scheduled(OpsOf(s, Act(Machine.Execute))) == [] == Asked(s, Act(Machine.Execute))
  {
    var t := s.config.phase.t;
    var id: nat :| Uses(s, id, t);
    assert Matches(s, id);
    PollRefines(s, id);
    LeafPolled(s.world, id, t);
  }

  lemma {:induction false} ArmAsked(s: System, g: Ownership.Ghosts)
    requires Inv(s, g) && AtDelay(s.config) && !s.panicked && !HasDelay(s, s.config.phase.t)
    ensures Scheduled(OpsOf(s, Act(Machine.Execute))) == Asked(s, Act(Machine.Execute))
  {
    var t := s.config.phase.t;
    assert Protocol.TaskOk(s.config, t, g);
    ArmRefines(s);
    assert !Machine.Waits(s.config.tasks[t]);
    assert [DelayRuns.Schedule(s.config.tasks[t].prog.ms)][1..] == [];
  }

  lemma {:induction false} ScheduledAppend(xs: seq<DelayRuns.Op>, ys: seq<DelayRuns.Op>)
    ensures Scheduled(xs + ys) == Scheduled(xs) + Scheduled(ys)
  {
    if xs == [] {
      assert xs + ys == ys;
    } else {
      assert (xs + ys)[1..] == xs[1..] + ys;
      ScheduledAppend(xs[1..], ys);
      var first := if xs[0].Schedule? then [xs[0].deadline] else [];
      Doings.Associate(first, Scheduled(xs[1..]), Scheduled(ys));
    }
  }

  /** Over every run the timer is asked for exactly the delays that bodies come to, with their
      durations, in their order. */
  lemma {:induction false} SchedulesAsked(s: System, events: seq<Event>, g: Ownership.Ghosts)
    requires Inv(s, g) && LegalRun(s, events)
    ensures Scheduled(AllOps(s, events)) == AllAsked(s, events)
    decreases |events|
  {
    if events != [] {
      var acts := MachineStep(s, events[0]);
      StepTracks(s, events[0], g);
      AskedScheduled(s, events[0], g);
      ScheduledAppend(OpsOf(s, events[0]), AllOps(Step(s, events[0]), events[1..]));
      var g1 := Protocol.RunKeeps(s.config, acts, g);
      SchedulesAsked(Step(s, events[0]), events[1..], g1);
    }
  }

  // ----- run does not spin for ever -----

  /** Where `run` spins every delay under way has time left. */
  lemma {:induction false} SpinningTimeLeft(s: System, g: Ownership.Ghosts, id: nat, t: nat)
    requires Inv(s, g) && Termination.Spins(s.config) && Uses(s, id, t)
    ensures t < |s.config.tasks| && DelayRuns.Holds(s.world, id) && DelayRuns.TimeLeft(s.world, id) > 0
    ensures !s.config.tasks[t].state.Terminated?
    ensures s.world.timer.armed.Some? && s.world.timer.armed.value > 0
  {
    assert Matches(s, id);
    assert Protocol.TaskOk(s.config, t, g);
    Termination.NotReady(s.config, t);
    assert AsyncTimers.Unexpired(s.world.timer.waiters[s.world.delays[id].slot]);
  }

  /** Where `run` spins, the hardware timer is armed: an interrupt will come. */
  lemma {:induction false} SpinsArmed(events: seq<Event>)
    requires LegalRun(BEGIN, events)
    ensures var s := Run(BEGIN, events);
            Termination.Spins(s.config) && !Machine.AllTerminated(s.config.tasks) ==>
              s.world.timer.armed.Some? && s.world.timer.armed.value > 0
  {
    var acts, ops, g := Reachable(events);
    var s := Run(BEGIN, events);
    if Termination.Spins(s.config) && !Machine.AllTerminated(s.config.tasks) {
      var id, t := SpinningDelay(s, g);
      SpinningTimeLeft(s, g, id, t);
    }
  }

  lemma {:induction false} SpinningDelay(s: System, g: Ownership.Ghosts) returns (id: nat, t: nat)
    requires Inv(s, g) && Termination.Spins(s.config) && !Machine.AllTerminated(s.config.tasks)
    ensures Uses(s, id, t)
  {
    Termination.SpinningWaits(s.config, g);
    t :| 0 <= t < |s.config.tasks| && s.config.tasks[t].leaf == Machine.Waiting(true);
    assert Machine.Waits(s.config.tasks[t]) && HasDelay(s, t);
    id :| Uses(s, id, t);
  }

  lemma {:induction false} EndedKeeps(s: System, g: Ownership.Ghosts, n: nat) returns (g': Ownership.Ghosts)
    requires Inv(s, g) && n <= |s.owners|
    ensures Protocol.Inv(EndedConfig(s, n), g')
  {
    EndsLegal(s, n);
    var c := EndsRun(s, n);
    g' := Protocol.RunKeeps(s.config, EndsOf(s, n), g);
  }

  lemma {:induction false} EndsMeasure(s: System, g: Ownership.Ghosts, n: nat)
    requires Inv(s, g) && Termination.Spins(s.config) && n <= |s.owners|
    ensures NoMore(s.config, EndedConfig(s, n))
  {
    if n == 0 {
      NoneEnded(s);
    } else {
      EndsMeasure(s, g, n - 1);
      OneMoreEnds(s, n - 1);
      if DelayRuns.Due(s.world, n - 1) {
        EndMeasure(s, g, n - 1);
      }
    }
  }

  /** The same configuration, or less work left. */
  ghost predicate NoMore(c: Machine.Config, c': Machine.Config) {
    c' == c || Termination.Measure(c') < Termination.Measure(c)
  }

  lemma {:induction false} EndMeasure(s: System, g: Ownership.Ghosts, id: nat)
    requires Inv(s, g) && Termination.Spins(s.config) && id < |s.owners| && DelayRuns.Due(s.world, id)
    requires NoMore(s.config, EndedConfig(s, id))
    ensures NoMore(s.config, Machine.SignalStep(EndedConfig(s, id), s.owners[id]))
  {
    var t := s.owners[id];
    assert Matches(s, id) && Uses(s, id, t) && !DueFor(s, id, t);
    SpinningTimeLeft(s, g, id, t);
    var g1 := EndedKeeps(s, g, id);
    Termination.SignalDecreases(EndedConfig(s, id), g1, t);
  }

  /** One tick where `run` spins. */
  lemma {:induction false} SpinningTick(s: System, g: Ownership.Ghosts) returns (g': Ownership.Ghosts)
    requires Inv(s, g) && Termination.Spins(s.config) && CanTick(s)
    ensures var s' := TickStep(s);
            && Inv(s', g') && s'.config.phase == s.config.phase && |s'.config.tasks| == |s.config.tasks|
            && NoMore(s.config, s'.config)
  {
    TickRefines(s);
    TickTracks(s);
    EndsLegal(s, |s.owners|);
    var ended := EndsRun(s, |s.owners|);
    EndsMeasure(s, g, |s.owners|);
    g' := Protocol.RunKeeps(s.config, EndsOf(s, |s.owners|), g);
  }

  /** The executor goes on; where it spins, what comes next is that the timer runs out. */
  ghost function Next(s: System): Event {
    if Termination.Spins(s.config) then Tick else Act(Machine.Execute)
  }

  ghost predicate Goes(s: System, s': System) {
    s' == Step(s, Next(s))
  }

  /** The delay of task t is under way, with so many milliseconds left. */
  ghost predicate UnderWay(s: System, id: nat, t: nat, left: nat) {
    exists w :: w == s.world && Uses(s, id, t) && DelayRuns.Holds(w, id) && DelayRuns.TimeLeft(w, id) == left
  }

  /** There is nothing more to do: `run` has stopped, or the timer has panicked, or a task begins
      another turn of a loop. */
  ghost predicate Done(s: System) {
    s.panicked || Termination.Stopped(s.config) || Termination.AtLoop(s.config)
  }

  /** `run` is under way in s', and less is left to do than in s. */
  ghost predicate Nearer(s: System, s': System, g': Ownership.Ghosts) {
    exists c :: && c == s'.config && Inv(s', g') && Termination.OnTheWay(c)
                && Termination.Measure(c) < Termination.Measure(s.config)
  }

  /** The spinning ends: after at most as many ticks as a delay under way has milliseconds left,
      some task is ready, or the timer has panicked. */
  lemma {:induction false} SpinEnds(s: System, g: Ownership.Ghosts, id: nat, t: nat, left: nat)
    returns (path: seq<System>, s': System, g': Ownership.Ghosts)
    requires Inv(s, g) && Termination.Spins(s.config) && UnderWay(s, id, t, left)
    ensures Path(Goes, path) && path[0] == s && path[|path| - 1] == s' && |path| <= left + 1
    ensures s'.panicked || (!Termination.Spins(s'.config) && Nearer(s, s', g'))
    decreases left
  {
    if s.panicked || !CanTick(s) {
      path, s', g' := TickPanics(s, g, id, t, left);
    } else {
      var left';
      path, s', g', left' := DelayShorter(s, g, id, t, left);
      if Termination.Spins(s'.config) {
        var rest;
        rest, s', g' := SpinEnds(s', g', id, t, left');
        path := PathAppend(Goes, path, rest);
      }
    }
  }

  lemma {:induction false} TickPanics(s: System, g: Ownership.Ghosts, id: nat, t: nat, left: nat)
    returns (path: seq<System>, s': System, g': Ownership.Ghosts)
    requires Inv(s, g) && Termination.Spins(s.config) && UnderWay(s, id, t, left) && (s.panicked || !CanTick(s))
    ensures path == [s, s'] && Path(Goes, path) && s'.panicked && left > 0
  {
    SpinningTimeLeft(s, g, id, t);
    s', g' := Step(s, Tick), g;
    PathOne(Goes, s, s');
    path := [s, s'];
  }

  lemma {:induction false} DelayShorter(s: System, g: Ownership.Ghosts, id: nat, t: nat, left: nat)
    returns (path: seq<System>, s': System, g': Ownership.Ghosts, left': nat)
    requires Inv(s, g) && Termination.Spins(s.config) && UnderWay(s, id, t, left) && CanTick(s) && !s.panicked
    ensures path == [s, s'] && Path(Goes, path)
    ensures Inv(s', g') && NoMore(s.config, s'.config) && Termination.OnTheWay(s'.config)
    ensures UnderWay(s', id, t, left') && left' < left
  {
    SpinningTimeLeft(s, g, id, t);
    s' := Step(s, Tick);
    g' := SpinningTick(s, g);
    TickShortens(s, id, t);
    TickedTask(s, t);
    PathOne(Goes, s, s');
    path := [s, s'];
    left' := DelayRuns.TimeLeft(s'.world, id);
  }

  lemma {:induction false} TickShortens(s: System, id: nat, t: nat)
    requires Tracks(s) && Uses(s, id, t) && DelayRuns.Holds(s.world, id) && DelayRuns.TimeLeft(s.world, id) > 0
    requires CanTick(s)
    ensures var s' := TickStep(s);
            && Uses(s', id, t) && DelayRuns.Holds(s'.world, id)
            && DelayRuns.TimeLeft(s'.world, id) < DelayRuns.TimeLeft(s.world, id)
  {
    DelayRuns.StillThere(s.world, DelayRuns.Signal, id);
  }

  /** With no interrupt but its own timer, and that only where it spins, `run` returns: all
      tasks terminate, whatever their delays, unless it panics or comes to a loop. */
  lemma {:induction false} TimedRunReturns(s: System, g: Ownership.Ghosts) returns (path: seq<System>)
    requires Inv(s, g) && Termination.OnTheWay(s.config)
    ensures Path(Goes, path) && path[0] == s && Done(path[|path| - 1])
    decreases Termination.Measure(s.config)
  {
    path := [s];
    if !Done(s) {
      var s', g';
      path, s', g' := NextStop(s, g);
      if !Done(s') {
        var rest := TimedRunReturns(s', g');
        path := PathAppend(Goes, path, rest);
      }
    }
  }

  lemma {:induction false} NextStop(s: System, g: Ownership.Ghosts)
    returns (path: seq<System>, s': System, g': Ownership.Ghosts)
    requires Inv(s, g) && Termination.OnTheWay(s.config) && !Done(s)
    ensures Path(Goes, path) && path[0] == s && path[|path| - 1] == s' && (Done(s') || Nearer(s, s', g'))
  {
    if Termination.Spins(s.config) {
      var id, t := SpinningDelay(s, g);
      SpinningTimeLeft(s, g, id, t);
      path, s', g' := SpinEnds(s, g, id, t, DelayRuns.TimeLeft(s.world, id));
    } else {
      path, s', g' := Worked(s, g);
    }
  }

  lemma {:induction false} Worked(s: System, g: Ownership.Ghosts)
    returns (path: seq<System>, s': System, g': Ownership.Ghosts)
    requires Inv(s, g) && Termination.OnTheWay(s.config) && !Termination.Spins(s.config) && !Done(s)
    ensures path == [s, s'] && Path(Goes, path) && (Done(s') || Nearer(s, s', g'))
  {
    s', g' := Step(s, Act(Machine.Execute)), g;
    PathOne(Goes, s, s');
    path := [s, s'];
    StepTracks(s, Act(Machine.Execute), g);
    if AtDelay(s.config) {
      DelayRefines(s);
    }
    if !s'.panicked {
      Termination.ExecDecreases(s.config, g);
      Termination.ExecOnTheWay(s.config, g);
      g' := Protocol.ExecKeeps(s.config, g);
    }
  }

  lemma {:induction false} PathKeeps(path: seq<System>, g: Ownership.Ghosts) returns (g': Ownership.Ghosts)
    requires Path(Goes, path) && Inv(path[0], g)
    ensures Inv(path[|path| - 1], g') && g.values <= g'.values
    decreases |path|
  {
    g' := g;
    if |path| > 1 {
      var pair := PathTo(Goes, path, 1);
      var g1 := PairKeeps(pair, g);
      PathFrom(Goes, path, 1);
      g' := PathKeeps(path[1..], g1);
    }
  }

  lemma {:induction false} PairKeeps(pair: seq<System>, g: Ownership.Ghosts) returns (g': Ownership.Ghosts)
    requires Path(Goes, pair) && |pair| == 2 && Inv(pair[0], g)
    ensures Inv(pair[1], g') && g.values <= g'.values
  {
    assert StepAt(Goes, pair, 0);
    g' := GoesKeeps(pair[0], pair[1], g);
  }

  lemma {:induction false} GoesKeeps(s: System, s': System, g: Ownership.Ghosts) returns (g': Ownership.Ghosts)
    requires Inv(s, g) && Goes(s, s')
    ensures Inv(s', g') && g.values <= g'.values
  {
    var acts := MachineStep(s, Next(s));
    StepTracks(s, Next(s), g);
    g' := Protocol.RunKeeps(s.config, acts, g);
  }

  /** The last configuration of the path explains every configuration on it. */
  ghost predicate Explains(path: seq<System>) {
    && |path| > 0
    && forall k :: 0 <= k < |path| ==> Termination.Explained(path[k].config, path[|path| - 1].config)
  }

  lemma {:induction false} PathExplains(path: seq<System>, g: Ownership.Ghosts)
    requires Path(Goes, path) && Inv(path[0], g)
    ensures Explains(path)
  {
    forall k | 0 <= k < |path|
      ensures Termination.Explained(path[k].config, path[|path| - 1].config)
    {
      var before := PathTo(Goes, path, k);
      var gk := PathKeeps(before, g);
      PathFrom(Goes, path, k);
      var g' := PathKeeps(path[k..], gk);
      Termination.AllMean(path[k].config, gk, path[|path| - 1].config, g');
    }
  }

  /** Whatever happened before: when `run` is called, it returns with its own timer as the only
      source of interrupts, unless it panics or comes to a loop; and then every task there was,
      and every task spawned on the way, has come to what evaluating its body directly gives. */
  lemma {:induction false} CalledRunReturns(events: seq<Event>) returns (path: seq<System>)
    requires LegalRun(BEGIN, events) && Run(BEGIN, events).config.phase.Outside?
    ensures Path(Goes, path) && path[0] == Step(Run(BEGIN, events), Act(Machine.CallRun))
    ensures Done(path[|path| - 1]) && Explains(path)
  {
    var s, g := Called(events);
    path := [s];
    if !s.panicked {
      path := TimedRunReturns(s, g);
    }
    PathExplains(path, g);
  }

  lemma {:induction false} Called(events: seq<Event>) returns (s: System, g: Ownership.Ghosts)
    requires LegalRun(BEGIN, events) && Run(BEGIN, events).config.phase.Outside?
    ensures s == Step(Run(BEGIN, events), Act(Machine.CallRun))
    ensures Inv(s, g) && (s.panicked || Termination.OnTheWay(s.config))
  {
    var acts, ops;
    acts, ops, g := Reachable(events);
    var before := Run(BEGIN, events);
    s := Step(before, Act(Machine.CallRun));
    Protocol.CallRunKeeps(before.config, g);
    StepTracks(before, Act(Machine.CallRun), g);
  }

  // ----- without a panic -----

  /** The bodies fit in, and the timer can be armed for their delays. */
  ghost predicate Calm(s: System) {
    && !s.panicked && !s.config.phase.Panicked?
    && Capacity.Fits(s.config) && Progress.AllWithin(s.config, true, UpTo(AsyncTimers.LONGEST))
    && DelayRuns.Short(s.world.timer)
  }

  ghost predicate Welcome(s: System, e: Event) {
    e.Act? ==> && Capacity.Admits(s.config, e.action)
               && (e.action.MainSpawn? ==> Within(e.action.body, true, UpTo(AsyncTimers.LONGEST)))
  }

  ghost predicate AllWelcome(s: System, events: seq<Event>)
    decreases |events|
  {
    events == [] || (Welcome(s, events[0]) && AllWelcome(Step(s, events[0]), events[1..]))
  }

  lemma {:induction false} TickCalm(s: System, g: Ownership.Ghosts)
    requires Inv(s, g) && Calm(s)
    ensures Calm(TickStep(s))
  {
    DelayRuns.ShortKept(s.world, DelayRuns.Signal);
    TickRefines(s);
    EndsLegal(s, |s.owners|);
    var ended := EndsRun(s, |s.owners|);
    Capacity.SameProgsFit(s.config, ended);
    assert forall t :: 0 <= t < |ended.tasks| ==> Within(s.config.tasks[t].prog, true, UpTo(AsyncTimers.LONGEST));
  }

  lemma {:induction false} DelayCalm(s: System, g: Ownership.Ghosts)
    requires Inv(s, g) && Calm(s) && AtDelay(s.config)
    ensures Calm(DelayStep(s))
  {
    var t := s.config.phase.t;
    var ms := s.config.tasks[t].prog.ms;
    assert Within(s.config.tasks[t].prog, true, UpTo(AsyncTimers.LONGEST));
    DelayRefines(s);
    Capacity.ExecFits(s.config, g);
    Progress.WithinKept(s.config, true, UpTo(AsyncTimers.LONGEST));
    DelayRuns.ShortKept(s.world, DelayRuns.Schedule(ms));
    if HasDelay(s, t) {
      var id: nat :| Uses(s, id, t);
      PollRefines(s, id);
      DelayRuns.ShortKept(s.world, DelayRuns.Poll(id, t));
    }
  }

  lemma {:induction false} ActCalm(s: System, g: Ownership.Ghosts, a: Machine.Action)
    requires Inv(s, g) && Calm(s) && Legal(s, Act(a)) && Welcome(s, Act(a)) && !(a.Execute? && AtDelay(s.config))
    ensures Calm(s.(config := Machine.Apply(s.config, a)))
  {
    Capacity.ApplyFits(s.config, a, g);
    ApplyWithin(s.config, a);
  }

  lemma {:induction false} ApplyWithin(c: Machine.Config, a: Machine.Action)
    requires Progress.AllWithin(c, true, UpTo(AsyncTimers.LONGEST))
    requires a.MainSpawn? ==> Within(a.body, true, UpTo(AsyncTimers.LONGEST))
    ensures Progress.AllWithin(Machine.Apply(c, a), true, UpTo(AsyncTimers.LONGEST))
  {
    if a.Execute? {
      Progress.WithinKept(c, true, UpTo(AsyncTimers.LONGEST));
    } else {
      assert forall t :: 0 <= t < |c.tasks| ==> Within(c.tasks[t].prog, true, UpTo(AsyncTimers.LONGEST));
    }
  }

  lemma {:induction false} StepCalm(s: System, g: Ownership.Ghosts, e: Event)
    requires Inv(s, g) && Calm(s) && Legal(s, e) && Welcome(s, e)
    ensures Calm(Step(s, e))
  {
    match e
    case Tick => TickCalm(s, g);
    case Act(a) =>
      if a.Execute? && AtDelay(s.config) {
        DelayCalm(s, g);
      } else {
        ActCalm(s, g, a);
      }
  }

  lemma {:induction false} RunCalm(s: System, events: seq<Event>, g: Ownership.Ghosts)
    requires Inv(s, g) && Calm(s) && LegalRun(s, events) && AllWelcome(s, events)
    ensures Calm(Run(s, events))
    decreases |events|
  {
    if events != [] {
      StepCalm(s, g, events[0]);
      var acts := MachineStep(s, events[0]);
      StepTracks(s, events[0], g);
      var g1 := Protocol.RunKeeps(s.config, acts, g);
      RunCalm(Step(s, events[0]), events[1..], g1);
    }
  }

  lemma {:induction false} PathCalm(path: seq<System>, g: Ownership.Ghosts)
    requires Path(Goes, path) && Inv(path[0], g) && Calm(path[0])
    ensures Calm(path[|path| - 1])
    decreases |path|
  {
    if |path| > 1 {
      assert StepAt(Goes, path, 0);
      StepCalm(path[0], g, Next(path[0]));
      var g1 := GoesKeeps(path[0], path[1], g);
      PathFrom(Goes, path, 1);
      PathCalm(path[1..], g1);
    }
  }

  lemma {:induction false} GoesWithin(s: System, s': System, g: Ownership.Ghosts)
    requires Inv(s, g) && Goes(s, s') && Termination.LoopFree(s.config)
    ensures Termination.LoopFree(s'.config)
  {
    if !s.panicked && Termination.Spins(s.config) && CanTick(s) {
      TickRefines(s);
      var ended := EndsRun(s, |s.owners|);
      assert forall t :: 0 <= t < |ended.tasks| ==> Within(s.config.tasks[t].prog, false, AnyDelay);
    } else if !s'.panicked {
      if AtDelay(s.config) {
        DelayRefines(s);
      }
      Progress.WithinKept(s.config, false, AnyDelay);
    } else if AtDelay(s.config) && !s.panicked {
      DelayRefines(s);
    }
  }

  lemma {:induction false} PathLoopFree(path: seq<System>, g: Ownership.Ghosts)
    requires Path(Goes, path) && Inv(path[0], g) && Termination.LoopFree(path[0].config)
    ensures Termination.LoopFree(path[|path| - 1].config)
    decreases |path|
  {
    if |path| > 1 {
      assert StepAt(Goes, path, 0);
      GoesWithin(path[0], path[1], g);
      var g1 := GoesKeeps(path[0], path[1], g);
      PathFrom(Goes, path, 1);
      PathLoopFree(path[1..], g1);
    }
  }

  /** If all that was spawned fits in, and has no loops, then `run` returns, and every task has
      terminated with the value of its body. */
  lemma {:induction false} CalmRunReturns(events: seq<Event>) returns (path: seq<System>)
    requires LegalRun(BEGIN, events) && AllWelcome(BEGIN, events)
    requires Run(BEGIN, events).config.phase.Outside? && Termination.LoopFree(Run(BEGIN, events).config)
    ensures Path(Goes, path) && path[0] == Step(Run(BEGIN, events), Act(Machine.CallRun)) && Explains(path)
    ensures var s := path[|path| - 1];
            !s.panicked && s.config.phase.Outside? && Machine.AllTerminated(s.config.tasks)
  {
    var acts, ops, g := Reachable(events);
    var s := Run(BEGIN, events);
    BeginCalm(events);
    path := CalledRunReturns(events);
    StepTracks(s, Act(Machine.CallRun), g);
    Protocol.CallRunKeeps(s.config, g);
    StepCalm(s, g, Act(Machine.CallRun));
    PathCalm(path, g);
    PathLoopFree(path, g);
    var last := path[|path| - 1].config;
    if Termination.AtLoop(last) {
      Termination.LoopThere(last);
    }
  }

  lemma {:induction false} BeginCalm(events: seq<Event>)
    requires LegalRun(BEGIN, events) && AllWelcome(BEGIN, events)
    ensures Calm(Run(BEGIN, events))
  {
    var acts, ops, g := Reachable([]);
    RunCalm(BEGIN, events, g);
  }
}
