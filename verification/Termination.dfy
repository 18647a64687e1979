/** `run` returns: every step of the executor makes a measure smaller, except taking an empty
    snapshot and beginning another turn of a loop; and where `run` spins over empty snapshots some
    delay is armed, whose end makes the measure smaller too. */
module Termination {
  import opened Wrappers
  import opened Programs
  import opened Machine
  import opened Ownership
  import opened Protocol
  import opened Progress
  import opened Paths

  /** What is left of a body, by the leaf future it is suspended in. */
  ghost function BodyWeight(task: Tcb): nat {
    if task.state.Terminated? then 0
    else
      match task.leaf
      case Fresh => Weight(task.prog)
      case Yielded => Weight(task.prog) - 1
      case Waiting(_) => Weight(task.prog) - 1
      case Fired(_) => if task.prog.Delay? then Weight(task.prog.next) + 2 else 2
  }

  ghost function TaskWeight(task: Tcb): nat {
    BodyWeight(task) + if task.state.Ready? then 1 else 0
  }

  ghost function Sum(tasks: seq<Tcb>): nat {
    if tasks == [] then 0 else Sum(tasks[..|tasks| - 1]) + TaskWeight(tasks[|tasks| - 1])
  }

  /** Phases in the order in which `run` goes through them without doing work. */
  function PhaseWeight(phase: Phase): nat {
    match phase
    case Outside => 0
    case Check => 2
    case Collect => 1
    case Round(queue) => if queue == [] then 3 else 0
    case Poll(_, _) => 7
    case Exit(_, _, _) => 6
    case Exited(_, _) => 5
    case Waking(_, _) => 12
    case Panicked(_) => 0
  }

  ghost function Measure(c: Config): nat {
    8 * Sum(c.tasks) + PhaseWeight(c.phase)
  }

  lemma {:induction false} SumUpdate(tasks: seq<Tcb>, t: nat, task: Tcb)
    requires t < |tasks|
    ensures Sum(tasks[t := task]) == Sum(tasks) - TaskWeight(tasks[t]) + TaskWeight(task)
    decreases |tasks|
  {
    var n := |tasks| - 1;
    if t == n {
      assert tasks[t := task][..n] == tasks[..n];
    } else {
      assert tasks[t := task][..n] == tasks[..n][t := task];
      SumUpdate(tasks[..n], t, task);
    }
  }

  lemma {:induction false} SumAppend(tasks: seq<Tcb>, task: Tcb)
    ensures Sum(tasks + [task]) == Sum(tasks) + TaskWeight(task)
  {
    assert (tasks + [task])[..|tasks|] == tasks;
  }

  /** `run` would take an empty snapshot. */
  predicate Spins(c: Config) {
    c.phase.Collect? && ReadyBelow(c.tasks, |c.tasks|) == []
  }

  /** The polled task begins another turn of a loop. */
  predicate AtLoop(c: Config) {
    c.phase.Poll? && c.phase.t < |c.tasks| && c.tasks[c.phase.t].prog.Loop?
  }

  predicate Running(phase: Phase) {
    !phase.Outside? && !phase.Panicked?
  }

  /** One task and the phase change. */
  lemma {:induction false} MeasureUpdate(c: Config, t: nat, task: Tcb, phase: Phase)
    requires t < |c.tasks|
    ensures Measure(Config(c.tasks[t := task], c.main, phase)) ==
            Measure(c) + 8 * (TaskWeight(task) - TaskWeight(c.tasks[t])) + (PhaseWeight(phase) - PhaseWeight(c.phase))
  {
    SumUpdate(c.tasks, t, task);
  }

  lemma {:induction false} RoundDecreases(c: Config, g: Ghosts)
    requires Inv(c, g) && c.phase.Round?
    ensures Measure(Exec(c)) < Measure(c)
  {
    if c.phase.queue != [] {
      var t := c.phase.queue[0];
      MeasureUpdate(c, t, c.tasks[t].(state := Pending), Exec(c).phase);
    }
  }

  /** Ending a task does more than its waiter's ready flag takes back. */
  lemma {:induction false} EndDecreases(c: Config, g: Ghosts)
    requires Inv(c, g) && (c.phase.Exit? || c.phase.Exited?)
    ensures Measure(Exec(c)) < Measure(c)
  {
    var t := c.phase.t;
    assert TaskOk(c, t, g);
    MeasureUpdate(c, t, Exec(c).tasks[t], Exec(c).phase);
  }

  lemma {:induction false} WakingDecreases(c: Config, g: Ghosts)
    requires Inv(c, g) && c.phase.Waking?
    ensures Measure(Exec(c)) < Measure(c)
  {
    var t := c.phase.t;
    assert TaskOk(c, t, g);
    if c.tasks[t].waker.Some? {
      var w := c.tasks[t].waker.value;
      MeasureUpdate(c, w, c.tasks[w].(state := Ready), Exec(c).phase);
    }
  }

  /** Each step does some of the work that is left. */
  lemma {:induction false} ExecDecreases(c: Config, g: Ghosts)
    requires Inv(c, g) && Running(c.phase) && !Spins(c) && !AtLoop(c)
    ensures Measure(Exec(c)) < Measure(c)
  {
    match c.phase
    case Check =>
    case Collect =>
    case Round(_) => RoundDecreases(c, g);
    case Poll(_, _) => PollDecreases(c, g);
    case Exit(_, _, _) => EndDecreases(c, g);
    case Exited(_, _) => EndDecreases(c, g);
    case Waking(_, _) => WakingDecreases(c, g);
  }

  lemma {:induction false} DeferDecreases(c: Config, g: Ghosts)
    requires Inv(c, g) && c.phase.Poll? && c.tasks[c.phase.t].prog.Defer?
    ensures Measure(Exec(c)) < Measure(c)
  {
    var t := c.phase.t;
    assert TaskOk(c, t, g);
    MeasureUpdate(c, t, Exec(c).tasks[t], Exec(c).phase);
  }

  lemma {:induction false} DelayDecreases(c: Config, g: Ghosts)
    requires Inv(c, g) && c.phase.Poll? && c.tasks[c.phase.t].prog.Delay?
    ensures Measure(Exec(c)) < Measure(c)
  {
    var t := c.phase.t;
    assert TaskOk(c, t, g);
    if !Exec(c).phase.Panicked? {
      MeasureUpdate(c, t, Exec(c).tasks[t], Exec(c).phase);
    }
  }

  /** A spawn weighs more than the child and its ready flag. */
  lemma {:induction false} SpawnDecreases(c: Config, g: Ghosts)
    requires Inv(c, g) && c.phase.Poll? && c.tasks[c.phase.t].prog.Spawn?
    ensures Measure(Exec(c)) < Measure(c)
  {
    var t := c.phase.t;
    var task, p := c.tasks[t], c.tasks[t].prog;
    assert TaskOk(c, t, g);
    if |c.tasks| < MAX_TASKS {
      var parent := task.(prog := p.next, handles := Rebind(task.handles, p.moved, p.handle, |c.tasks|));
      var child := NewTask(p.child, task.env, Restrict(task.handles, p.moved));
      SumUpdate(c.tasks, t, parent);
      SumAppend(c.tasks[t := parent], child);
    }
  }

  lemma {:induction false} AwaitDecreases(c: Config, g: Ghosts)
    requires Inv(c, g) && c.phase.Poll? && c.tasks[c.phase.t].prog.Await?
    ensures Measure(Exec(c)) < Measure(c)
  {
    var t := c.phase.t;
    var task := c.tasks[t];
    assert TaskOk(c, t, g) && CodeOk(task, t, g);
    var u := task.handles[task.prog.handle];
    assert TaskOk(c, u, g);
    if c.tasks[u].state.Terminated? {
      MeasureUpdate(c, t, task.(prog := task.prog.next, env := task.env + [c.tasks[u].exit.value]), c.phase);
    } else {
      MeasureUpdate(c, u, c.tasks[u].(waker := Some(t)), Round(c.phase.queue));
    }
  }

  lemma {:induction false} PollDecreases(c: Config, g: Ghosts)
    requires Inv(c, g) && c.phase.Poll? && !AtLoop(c)
    ensures Measure(Exec(c)) < Measure(c)
  {
    var t := c.phase.t;
    var task := c.tasks[t];
    match task.prog
    case Return(_) =>
    case Branch(test, yes, no) =>
      assert TaskOk(c, t, g);
      MeasureUpdate(c, t, task.(prog := if test(task.env) then yes else no), c.phase);
    case Defer(_) => DeferDecreases(c, g);
    case Delay(_, _) => DelayDecreases(c, g);
    case Spawn(_, _, _, _) => SpawnDecreases(c, g);
    case Await(_, _) => AwaitDecreases(c, g);
  }

  /** The interrupt that ends a delay does work too, although it sets a ready flag. */
  lemma {:induction false} SignalDecreases(c: Config, g: Ghosts, t: nat)
    requires Inv(c, g) && t < |c.tasks| && c.tasks[t].leaf.Waiting?
    ensures Measure(SignalStep(c, t)) < Measure(c)
  {
    assert TaskOk(c, t, g);
    SumUpdate(c.tasks, t, SignalStep(c, t).tasks[t]);
  }

  // ----- what happens while run is under way -----

  /** An interrupt ends the armed delay of some task. */
  ghost predicate EndsDelay(c: Config, c': Config) {
    exists t :: 0 <= t < |c.tasks| && c.tasks[t].leaf.Waiting? && c' == SignalStep(c, t)
  }

  /** While `run` is under way, the executor does some work or an interrupt ends a delay. */
  ghost predicate Moves(c: Config, c': Config) {
    Running(c.phase) && ((c' == Exec(c) && !Spins(c) && !AtLoop(c)) || EndsDelay(c, c'))
  }

  lemma {:induction false} MoveDecreases(c: Config, c': Config, g: Ghosts) returns (g': Ghosts)
    requires Inv(c, g) && Moves(c, c')
    ensures Inv(c', g') && g.values <= g'.values && Measure(c') < Measure(c)
  {
    if EndsDelay(c, c') {
      var t :| 0 <= t < |c.tasks| && c.tasks[t].leaf.Waiting? && c' == SignalStep(c, t);
      SignalDecreases(c, g, t);
      SignalKeeps(c, g, t);
      g' := g;
    } else {
      ExecDecreases(c, g);
      g' := ExecKeeps(c, g);
    }
  }

  /** Where `run` spins nothing changes until an interrupt comes: after the empty round and the
      test that some task still runs, it is where it was. */
  lemma {:induction false} SpinsInPlace(c: Config)
    requires Spins(c) && !AllTerminated(c.tasks)
    ensures Exec(Exec(Exec(c))) == c && Exec(c) != c
  {
  }

  /** An interrupt can always end the spinning: some delay is armed, and holds the waker. */
  lemma {:induction false} SpinningWaits(c: Config, g: Ghosts)
    requires Inv(c, g) && Spins(c) && !AllTerminated(c.tasks)
    ensures exists t :: 0 <= t < |c.tasks| && c.tasks[t].leaf == Waiting(true)
  {
    NoDeadlock(c, g);
    var t :| 0 <= t < |c.tasks| && CanGoOn(c.tasks[t]);
    NotReady(c, t);
  }

  lemma {:induction false} NotReady(c: Config, t: nat)
    requires Spins(c) && t < |c.tasks|
    ensures !c.tasks[t].state.Ready?
  {
    ReadyBelowExact(c.tasks, |c.tasks|);
    assert t !in ReadyBelow(c.tasks, |c.tasks|);
  }

  /** And whichever delay ends, it does end the spinning. */
  lemma {:induction false} DelayEndsSpin(c: Config, g: Ghosts, t: nat)
    requires Inv(c, g) && Spins(c) && t < |c.tasks| && c.tasks[t].leaf.Waiting?
    ensures !Spins(SignalStep(c, t))
  {
    assert TaskOk(c, t, g);
    NotReady(c, t);
    var c' := SignalStep(c, t);
    assert c'.tasks[t].state.Ready?;
    if Spins(c') {
      NotReady(c', t);
    }
  }

  // ----- executions -----

  /** Along an execution the invariant holds, values are only added, and each move does some
      of the work that was left at the start. */
  lemma {:induction false} ExecutionKeeps(path: seq<Config>, g: Ghosts) returns (g': Ghosts)
    requires Path(Moves, path) && Inv(path[0], g)
    ensures Inv(path[|path| - 1], g') && g.values <= g'.values
    ensures Measure(path[|path| - 1]) + |path| - 1 <= Measure(path[0])
    decreases |path|
  {
    g' := g;
    if |path| > 1 {
      assert StepAt(Moves, path, 0);
      var g1 := MoveDecreases(path[0], path[1], g);
      PathFrom(Moves, path, 1);
      g' := ExecutionKeeps(path[1..], g1);
    }
  }

  // ----- run returns -----

  /** What is known when `run` stops. */
  ghost predicate Stopped(c: Config) {
    (c.phase.Outside? && AllTerminated(c.tasks)) || (c.phase.Panicked? && c.phase.reason != UnwrapNone)
  }

  /** A point where `run` is under way. */
  ghost predicate OnTheWay(c: Config) {
    Running(c.phase) && (c.phase.Collect? ==> !AllTerminated(c.tasks))
  }

  /** `run` returns, or goes on with a loop. From any reachable point no execution is longer than
      the measure says; and an execution that cannot go on, by work or by the end of an armed
      delay, has come back with every task terminated, or has panicked, or has come to another
      turn of a loop. */
  lemma {:induction false} RunReturns(path: seq<Config>, g: Ghosts)
    requires Path(Moves, path) && Inv(path[0], g) && OnTheWay(path[0])
    ensures |path| <= Measure(path[0]) + 1
    ensures var c := path[|path| - 1];
            || Stopped(c)
            || AtLoop(c)
            || Moves(c, Exec(c))
            || exists t :: 0 <= t < |c.tasks| && c.tasks[t].leaf == Waiting(true) && Moves(c, SignalStep(c, t))
  {
    var c := path[|path| - 1];
    var g' := ExecutionKeeps(path, g);
    ExecutionOnTheWay(path, g);
    if !Stopped(c) && !AtLoop(c) {
      if Spins(c) {
        SpinningWaits(c, g');
        var t :| 0 <= t < |c.tasks| && c.tasks[t].leaf == Waiting(true);
        assert EndsDelay(c, SignalStep(c, t));
        assert Moves(c, SignalStep(c, t));
      } else {
        assert Moves(c, Exec(c));
      }
    }
  }

  /** No body has a loop. */
  ghost predicate LoopFree(c: Config) {
    AllWithin(c, false, AnyDelay)
  }

  /** Without loops `run` returns, unless it panics. */
  lemma {:induction false} LoopFreeReturns(path: seq<Config>, g: Ghosts)
    requires Path(Moves, path) && Inv(path[0], g) && OnTheWay(path[0]) && LoopFree(path[0])
    ensures var c := path[|path| - 1];
            || Stopped(c)
            || Moves(c, Exec(c))
            || exists t :: 0 <= t < |c.tasks| && c.tasks[t].leaf == Waiting(true) && Moves(c, SignalStep(c, t))
  {
    RunReturns(path, g);
    ExecutionWithin(path, false, AnyDelay);
    if AtLoop(path[|path| - 1]) {
      LoopThere(path[|path| - 1]);
    }
  }

  lemma {:induction false} LoopThere(c: Config)
    requires AtLoop(c)
    ensures !LoopFree(c)
  {
    assert !Within(c.tasks[c.phase.t].prog, false, AnyDelay);
  }

  /** Without delays and loops `run` returns by itself: it never spins. */
  lemma {:induction false} ClosedReturns(path: seq<Config>, g: Ghosts)
    requires Path(Moves, path) && Inv(path[0], g) && OnTheWay(path[0])
    requires ClosedConfig(path[0]) && LoopFree(path[0])
    ensures var c := path[|path| - 1];
            Stopped(c) || Moves(c, Exec(c))
  {
    var c := path[|path| - 1];
    var g' := ExecutionKeeps(path, g);
    ExecutionOnTheWay(path, g);
    ExecutionWithin(path, true, NoDelay);
    ExecutionWithin(path, false, AnyDelay);
    if AtLoop(c) {
      LoopThere(c);
    }
    if c.phase.Collect? && !AllTerminated(c.tasks) {
      SnapshotNotEmpty(c, g');
    }
  }

  lemma {:induction false} ExecutionWithin(path: seq<Config>, loops: bool, delays: Lengths)
    requires Path(Moves, path) && AllWithin(path[0], loops, delays)
    ensures AllWithin(path[|path| - 1], loops, delays)
    decreases |path|
  {
    if |path| > 1 {
      assert StepAt(Moves, path, 0);
      MoveWithin(path[0], path[1], loops, delays);
      PathFrom(Moves, path, 1);
      ExecutionWithin(path[1..], loops, delays);
    }
  }

  lemma {:induction false} MoveWithin(c: Config, c': Config, loops: bool, delays: Lengths)
    requires AllWithin(c, loops, delays) && Moves(c, c')
    ensures AllWithin(c', loops, delays)
  {
    if EndsDelay(c, c') {
      assert forall t :: 0 <= t < |c.tasks| ==> Within(c.tasks[t].prog, loops, delays);
    } else {
      WithinKept(c, loops, delays);
    }
  }

  lemma {:induction false} ExecutionOnTheWay(path: seq<Config>, g: Ghosts)
    requires Path(Moves, path) && Inv(path[0], g) && (OnTheWay(path[0]) || Stopped(path[0]))
    ensures OnTheWay(path[|path| - 1]) || Stopped(path[|path| - 1])
    decreases |path|
  {
    if |path| > 1 {
      assert StepAt(Moves, path, 0);
      MoveOnTheWay(path[0], path[1], g);
      var g1 := MoveDecreases(path[0], path[1], g);
      PathFrom(Moves, path, 1);
      ExecutionOnTheWay(path[1..], g1);
    }
  }

  lemma {:induction false} MoveOnTheWay(c: Config, c': Config, g: Ghosts)
    requires Inv(c, g) && OnTheWay(c) && Moves(c, c')
    ensures OnTheWay(c') || Stopped(c')
  {
    if EndsDelay(c, c') {
      SignalOnTheWay(c, c', g);
    } else {
      ExecOnTheWay(c, g);
    }
  }

  lemma {:induction false} SignalOnTheWay(c: Config, c': Config, g: Ghosts)
    requires Inv(c, g) && OnTheWay(c) && EndsDelay(c, c')
    ensures OnTheWay(c')
  {
    var t :| 0 <= t < |c.tasks| && c.tasks[t].leaf.Waiting? && c' == SignalStep(c, t);
    assert TaskOk(c, t, g);
    assert !c'.tasks[t].state.Terminated?;
  }

  lemma {:induction false} ExecOnTheWay(c: Config, g: Ghosts)
    requires Inv(c, g) && OnTheWay(c) && !Spins(c)
    ensures OnTheWay(Exec(c)) || Stopped(Exec(c))
  {
    var g' := ExecKeeps(c, g);
    if c.phase.Poll? {
      PollOnTheWay(c, g);
    }
  }

  lemma {:induction false} PollOnTheWay(c: Config, g: Ghosts)
    requires Inv(c, g) && c.phase.Poll?
    ensures var p := Exec(c).phase; p.Panicked? || p.Round? || p.Poll? || p.Exit?
  {
    assert CodeOk(c.tasks[c.phase.t], c.phase.t, g);
  }

  // ----- what run comes to -----

  /** In the last configuration every task comes to what evaluating its body directly gives,
      at whatever point of the path the body is looked at: tasks spawned on the way too. */
  ghost predicate Explains(path: seq<Config>) {
    |path| > 0 && forall k :: 0 <= k < |path| ==> Explained(path[k], path[|path| - 1])
  }

  ghost predicate Explained(c: Config, c': Config) {
    forall t :: 0 <= t < |c.tasks| ==> Means(c, c', t)
  }

  lemma {:induction false} ExecutionExplains(path: seq<Config>, g: Ghosts)
    requires Path(Moves, path) && Inv(path[0], g)
    ensures Explains(path)
  {
    forall k | 0 <= k < |path|
      ensures Explained(path[k], path[|path| - 1])
    {
      var before := PathTo(Moves, path, k);
      var gk := ExecutionKeeps(before, g);
      PathFrom(Moves, path, k);
      var g' := ExecutionKeeps(path[k..], gk);
      AllMean(path[k], gk, path[|path| - 1], g');
    }
  }

  lemma {:induction false} AllMean(c: Config, g: Ghosts, c': Config, g': Ghosts)
    requires Inv(c, g) && Inv(c', g') && g.values <= g'.values
    ensures Explained(c, c')
  {
    forall t | 0 <= t < |c.tasks|
      ensures Means(c, c', t)
    {
      ExitMeaning(c, g, c', g', t);
    }
  }
}
