/** When nothing panics: as long as there can never be more than eight tasks, counting those that
    bodies may still spawn, and no delay is zero, no list of the executor overflows. */
module Capacity {
  import opened Wrappers
  import opened Programs
  import opened Machine
  import opened Ownership
  import opened Protocol
  import opened Progress
  import opened Termination
  import opened Paths

  // ----- the limits in numbers -----

  function ReadyTasks(tasks: seq<Tcb>, n: nat): set<nat>
    requires n <= |tasks|
  {
    set t: nat | t < n && tasks[t].state.Ready?
  }

  lemma {:induction false} ReadyCount(tasks: seq<Tcb>, n: nat)
    requires n <= |tasks|
    ensures |ReadyBelow(tasks, n)| == |ReadyTasks(tasks, n)|
  {
    if n > 0 {
      ReadyCount(tasks, n - 1);
      var before := ReadyTasks(tasks, n - 1);
      if tasks[n - 1].state.Ready? {
        assert ReadyTasks(tasks, n) == before + {n - 1};
      } else {
        assert ReadyTasks(tasks, n) == before;
      }
    }
  }

  /** Up to eight ready tasks give a round that polls just them; a ninth is one too many. */
  lemma {:induction false} SnapshotLimit(c: Config)
    requires c.phase.Collect?
    ensures var ready := ReadyTasks(c.tasks, |c.tasks|);
            && (|ready| <= 8 ==> && Exec(c).phase.Round? && |Exec(c).phase.queue| == |ready|
                                 && forall t: nat :: t in Exec(c).phase.queue <==> t in ready)
            && (|ready| >= 9 ==> Exec(c).phase == Panicked(SnapshotFull))
  {
    ReadyCount(c.tasks, |c.tasks|);
    ReadyBelowExact(c.tasks, |c.tasks|);
  }

  /** The list holds sixty-four tasks. A task spawned from outside has the given body, variables and
      handles, and is ready; the caller of a spawn beyond the limit loses the handles. */
  lemma {:induction false} SpawnLimit(c: Config, h: nat, body: Prog, env: seq<int>, moved: set<nat>)
    ensures var c', n := MainSpawnStep(c, h, body, env, moved), |c.tasks|;
            && (n < 64 ==>
                  && |c'.tasks| == n + 1 && c'.tasks[..n] == c.tasks && h in c'.main && c'.main[h] == n
                  && c'.tasks[n].prog == body && c'.tasks[n].env == env && c'.tasks[n].state.Ready?
                  && (forall x :: x in c'.tasks[n].handles <==> x in c.main && x in moved)
                  && (forall x :: x in c'.tasks[n].handles ==> c'.tasks[n].handles[x] == c.main[x]))
            && (n >= 64 ==> c'.tasks == c.tasks && c'.main.Keys == c.main.Keys - moved)
  {
    var c' := MainSpawnStep(c, h, body, env, moved);
    assert |c.tasks| < 64 ==> c'.tasks[..|c.tasks|] == c.tasks;
  }

  /** A body's spawn beyond that limit panics, and so does its ninth delay under way. */
  lemma {:induction false} BodyLimits(c: Config)
    requires c.phase.Poll? && c.phase.t < |c.tasks|
    ensures var task := c.tasks[c.phase.t];
            && (task.prog.Spawn? ==> (Exec(c).phase == Panicked(TaskListFull) <==> |c.tasks| >= 64))
            && (task.prog.Delay? && !Waits(task) ==>
                  (Exec(c).phase == Panicked(TimerFull) <==> DelaysHeld(c.tasks) >= 8))
  {
  }

  // ----- what may still be spawned -----

  /** How many tasks may still be spawned. */
  function Potential(tasks: seq<Tcb>): nat {
    if tasks == [] then 0 else Potential(tasks[..|tasks| - 1]) + Spawns(tasks[|tasks| - 1].prog)
  }

  lemma {:induction false} PotentialUpdate(tasks: seq<Tcb>, t: nat, task: Tcb)
    requires t < |tasks|
    ensures Potential(tasks[t := task]) == Potential(tasks) - Spawns(tasks[t].prog) + Spawns(task.prog)
    decreases |tasks|
  {
    var n := |tasks| - 1;
    if t == n {
      assert tasks[t := task][..n] == tasks[..n];
    } else {
      assert tasks[t := task][..n] == tasks[..n][t := task];
      PotentialUpdate(tasks[..n], t, task);
    }
  }

  lemma {:induction false} PotentialAppend(tasks: seq<Tcb>, task: Tcb)
    ensures Potential(tasks + [task]) == Potential(tasks) + Spawns(task.prog)
  {
    assert (tasks + [task])[..|tasks|] == tasks;
  }

  /** What a caller can see of a body: its loops do not spawn, and its delays are positive. */
  ghost predicate Tame(p: Prog) {
    CountedSpawns(p) && Within(p, true, Positive)
  }

  ghost predicate AllTame(tasks: seq<Tcb>) {
    forall t :: 0 <= t < |tasks| ==> Tame(tasks[t].prog)
  }

  /** At most eight tasks, now and later, with tame bodies. */
  ghost predicate Fits(c: Config) {
    |c.tasks| + Potential(c.tasks) <= MAX_READY && AllTame(c.tasks)
  }

  // ----- what is left of a body -----

  lemma {:induction false} NoSpawnsCounted(p: Prog)
    requires Spawns(p) == 0
    ensures CountedSpawns(p)
  {
    match p
    case Return(_) =>
    case Branch(_, yes, no) =>
      NoSpawnsCounted(yes);
      NoSpawnsCounted(no);
    case Defer(next) => NoSpawnsCounted(next);
    case Delay(_, next) => NoSpawnsCounted(next);
    case Spawn(_, _, _, _) =>
    case Await(_, next) => NoSpawnsCounted(next);
    case Loop(_, _) =>
  }

  lemma {:induction false} ThenSpawns(p: Prog, k: Prog)
    requires Spawns(p) == 0 && Spawns(k) == 0
    ensures Spawns(Then(p, k)) == 0
  {
    match p
    case Return(_) =>
    case Branch(_, yes, no) =>
      ThenSpawns(yes, k);
      ThenSpawns(no, k);
    case Defer(next) => ThenSpawns(next, k);
    case Delay(_, next) => ThenSpawns(next, k);
    case Spawn(_, _, _, _) =>
    case Await(_, next) => ThenSpawns(next, k);
    case Loop(_, _) =>
  }

  lemma {:induction false} TurnTame(loop: Prog)
    requires loop.Loop? && Tame(loop)
    ensures Tame(Then(loop.body, loop)) && Spawns(Then(loop.body, loop)) == Spawns(loop) == 0
  {
    ThenSpawns(loop.body, loop);
    NoSpawnsCounted(Then(loop.body, loop));
    ThenWithin(loop.body, loop, true, Positive);
  }

  // ----- steps -----

  lemma {:induction false} SameProgsFit(c: Config, c': Config)
    requires Fits(c) && |c'.tasks| == |c.tasks|
    requires forall t :: 0 <= t < |c.tasks| ==> c'.tasks[t].prog == c.tasks[t].prog
    ensures Fits(c')
  {
    SamePotential(c.tasks, c'.tasks);
  }

  lemma {:induction false} SamePotential(tasks: seq<Tcb>, tasks': seq<Tcb>)
    requires |tasks'| == |tasks| && forall t :: 0 <= t < |tasks| ==> tasks'[t].prog == tasks[t].prog
    ensures Potential(tasks') == Potential(tasks)
    decreases |tasks|
  {
    if tasks != [] {
      SamePotential(tasks[..|tasks| - 1], tasks'[..|tasks| - 1]);
    }
  }

  /** The polled task goes on with no more to spawn. */
  lemma {:induction false} RestFits(c: Config, t: nat, task: Tcb, phase: Phase)
    requires Fits(c) && t < |c.tasks| && Tame(task.prog) && Spawns(task.prog) <= Spawns(c.tasks[t].prog)
    ensures Fits(Config(c.tasks[t := task], c.main, phase))
  {
    PotentialUpdate(c.tasks, t, task);
  }

  /** A task that does not wait leaves a slot of the timer to spare. */
  lemma {:induction false} SlotToSpare(tasks: seq<Tcb>, t: nat)
    requires t < |tasks| && !Waits(tasks[t])
    ensures DelaysHeld(tasks) < |tasks|
    decreases |tasks|
  {
    var n := |tasks| - 1;
    if t < n {
      SlotToSpare(tasks[..n], t);
    } else {
      HeldAtMost(tasks[..n]);
    }
  }

  lemma {:induction false} HeldAtMost(tasks: seq<Tcb>)
    ensures DelaysHeld(tasks) <= |tasks|
    decreases |tasks|
  {
    if tasks != [] {
      HeldAtMost(tasks[..|tasks| - 1]);
    }
  }

  lemma {:induction false} ReadyAtMost(tasks: seq<Tcb>, n: nat)
    requires n <= |tasks|
    ensures |ReadyBelow(tasks, n)| <= n
  {
    if n > 0 {
      ReadyAtMost(tasks, n - 1);
    }
  }

  lemma {:induction false} DelayFits(c: Config, g: Ghosts)
    requires Inv(c, g) && Fits(c) && c.phase.Poll? && c.tasks[c.phase.t].prog.Delay?
    ensures Fits(Exec(c)) && !Exec(c).phase.Panicked?
  {
    var t := c.phase.t;
    var task := c.tasks[t];
    assert Tame(task.prog);
    if !Waits(task) {
      SlotToSpare(c.tasks, t);
    }
    RestFits(c, t, Exec(c).tasks[t], Exec(c).phase);
  }

  lemma {:induction false} SpawnFits(c: Config, g: Ghosts)
    requires Inv(c, g) && Fits(c) && c.phase.Poll? && c.tasks[c.phase.t].prog.Spawn?
    ensures Fits(Exec(c)) && !Exec(c).phase.Panicked?
  {
    var t := c.phase.t;
    var task, p := c.tasks[t], c.tasks[t].prog;
    assert Tame(p);
    var parent := task.(prog := p.next, handles := Rebind(task.handles, p.moved, p.handle, |c.tasks|));
    ChildFits(c, t, parent, NewTask(p.child, task.env, Restrict(task.handles, p.moved)), c.phase);
  }

  lemma {:induction false} ChildFits(c: Config, t: nat, parent: Tcb, child: Tcb, phase: Phase)
    requires Fits(c) && t < |c.tasks| && Tame(parent.prog) && Tame(child.prog)
    requires 1 + Spawns(parent.prog) + Spawns(child.prog) <= Spawns(c.tasks[t].prog)
    ensures Fits(Config(c.tasks[t := parent] + [child], c.main, phase))
  {
    PotentialUpdate(c.tasks, t, parent);
    PotentialAppend(c.tasks[t := parent], child);
  }

  lemma {:induction false} AwaitFits(c: Config, g: Ghosts)
    requires Inv(c, g) && Fits(c) && c.phase.Poll? && c.tasks[c.phase.t].prog.Await?
    ensures Fits(Exec(c)) && !Exec(c).phase.Panicked?
  {
    var t := c.phase.t;
    var task := c.tasks[t];
    assert Tame(task.prog);
    assert TaskOk(c, t, g) && CodeOk(task, t, g);
    var u := task.handles[task.prog.handle];
    assert TaskOk(c, u, g);
    if c.tasks[u].state.Terminated? {
      RestFits(c, t, Exec(c).tasks[t], c.phase);
    } else {
      SameProgsFit(c, Exec(c));
    }
  }

  lemma {:induction false} PollFits(c: Config, g: Ghosts)
    requires Inv(c, g) && Fits(c) && c.phase.Poll?
    ensures Fits(Exec(c)) && !Exec(c).phase.Panicked?
  {
    var t := c.phase.t;
    var task := c.tasks[t];
    assert Tame(task.prog);
    match task.prog
    case Return(_) =>
    case Branch(test, yes, no) => RestFits(c, t, task.(prog := if test(task.env) then yes else no), c.phase);
    case Defer(_) => RestFits(c, t, Exec(c).tasks[t], Exec(c).phase);
    case Delay(_, _) => DelayFits(c, g);
    case Spawn(_, _, _, _) => SpawnFits(c, g);
    case Await(_, _) => AwaitFits(c, g);
    case Loop(body, _) =>
      TurnTame(task.prog);
      RestFits(c, t, task.(prog := Then(body, task.prog)), c.phase);
  }

  /** Every step of the executor keeps within its capacity, and none panics. */
  lemma {:induction false} ExecFits(c: Config, g: Ghosts)
    requires Inv(c, g) && Fits(c) && !c.phase.Panicked?
    ensures Fits(Exec(c)) && !Exec(c).phase.Panicked?
  {
    if c.phase.Poll? {
      PollFits(c, g);
    } else {
      ReadyAtMost(c.tasks, |c.tasks|);
      OtherProgs(c);
      SameProgsFit(c, Exec(c));
    }
  }

  lemma {:induction false} OtherProgs(c: Config)
    requires !c.phase.Poll?
    ensures |Exec(c).tasks| == |c.tasks|
    ensures forall t :: 0 <= t < |c.tasks| ==> Exec(c).tasks[t].prog == c.tasks[t].prog
  {
  }

  // ----- runs -----

  /** A body spawned from outside fits in. */
  ghost predicate Admits(c: Config, a: Action) {
    a.MainSpawn? ==> Tame(a.body) && |c.tasks| + 1 + Potential(c.tasks) + Spawns(a.body) <= MAX_READY
  }

  ghost predicate AdmitsAll(c: Config, acts: seq<Action>)
    decreases |acts|
  {
    acts == [] || (Admits(c, acts[0]) && AdmitsAll(Apply(c, acts[0]), acts[1..]))
  }

  lemma {:induction false} ApplyFits(c: Config, a: Action, g: Ghosts)
    requires Inv(c, g) && Legal(c, a) && Fits(c) && Admits(c, a) && !c.phase.Panicked?
    ensures Fits(Apply(c, a)) && !Apply(c, a).phase.Panicked?
  {
    match a
    case Execute => ExecFits(c, g);
    case Signal(t) => SameProgsFit(c, SignalStep(c, t));
    case Fire(u) => SameProgsFit(c, FireStep(c, u));
    case MainSpawn(h, body, env, moved) => MainSpawnFits(c, h, body, env, moved);
    case CallRun =>
  }

  lemma {:induction false} MainSpawnFits(c: Config, h: nat, body: Prog, env: seq<int>, moved: set<nat>)
    requires Fits(c) && Admits(c, MainSpawn(h, body, env, moved))
    ensures Fits(MainSpawnStep(c, h, body, env, moved))
  {
    PotentialAppend(c.tasks, NewTask(body, env, Restrict(c.main, moved)));
  }

  lemma {:induction false} RunFits(c: Config, acts: seq<Action>, g: Ghosts)
    requires Inv(c, g) && LegalRun(c, acts) && Fits(c) && AdmitsAll(c, acts) && !c.phase.Panicked?
    ensures Fits(Run(c, acts)) && !Run(c, acts).phase.Panicked?
    decreases |acts|
  {
    if acts != [] {
      ApplyFits(c, acts[0], g);
      var g1 := ApplyKeeps(c, acts[0], g);
      RunFits(Apply(c, acts[0]), acts[1..], g1);
    }
  }

  /** No run panics whose callers spawn only tame bodies, with at most eight tasks in all. */
  lemma {:induction false} NeverPanics(acts: seq<Action>)
    requires LegalRun(START, acts) && AdmitsAll(START, acts)
    ensures !Run(START, acts).phase.Panicked?
  {
    StartInv();
    RunFits(START, acts, Ghosts([], []));
  }

  lemma {:induction false} ExecutionFits(path: seq<Config>, g: Ghosts)
    requires Path(Moves, path) && Inv(path[0], g) && Fits(path[0]) && !path[0].phase.Panicked?
    ensures Fits(path[|path| - 1]) && !path[|path| - 1].phase.Panicked?
    decreases |path|
  {
    if |path| > 1 {
      assert StepAt(Moves, path, 0);
      MoveFits(path[0], path[1], g);
      var g1 := MoveDecreases(path[0], path[1], g);
      PathFrom(Moves, path, 1);
      ExecutionFits(path[1..], g1);
    }
  }

  lemma {:induction false} MoveFits(c: Config, c': Config, g: Ghosts)
    requires Inv(c, g) && Fits(c) && !c.phase.Panicked? && Moves(c, c')
    ensures Fits(c') && !c'.phase.Panicked?
  {
    if EndsDelay(c, c') {
      SameProgsFit(c, c');
    } else {
      ExecFits(c, g);
    }
  }

  /** `run` returns with every task terminated: within its capacity, and without loops, that is
      the only way an execution ends that cannot go on. */
  lemma {:induction false} FittingRunReturns(path: seq<Config>, g: Ghosts)
    requires Path(Moves, path) && Inv(path[0], g) && OnTheWay(path[0])
    requires Fits(path[0]) && LoopFree(path[0])
    ensures var c := path[|path| - 1];
            || (c.phase.Outside? && AllTerminated(c.tasks))
            || Moves(c, Exec(c))
            || exists t :: 0 <= t < |c.tasks| && c.tasks[t].leaf == Waiting(true) && Moves(c, SignalStep(c, t))
  {
    LoopFreeReturns(path, g);
    ExecutionFits(path, g);
  }
}
