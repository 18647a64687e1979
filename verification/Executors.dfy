/** The executor of src/executor.rs as code: `spawn`, `do_poll`, `run` and `join`. Its methods
    take exactly the steps of the machine; with the machine's measure, `run` returns.
    Interrupts come where `run` spins over an empty snapshot, because nothing else ends it. */
module Executors {
  import opened Wrappers
  import opened Programs
  import opened Machine
  import opened Ownership
  import opened Protocol
  import opened Progress
  import opened Termination
  import opened Paths
  import opened Capacity

  datatype SpawnError = TaskListIsFull

  /** `Poll<F::Output>`, or the panic that ended the poll. */
  datatype PollResult = IsReady(value: int) | IsPending | HasPanicked(reason: Reason)

  class Executor {
    var tasks: seq<Tcb>
    ghost var held: map<nat, nat>       // the handles that callers hold
    ghost var values: seq<Option<int>>  // per task, the value of its body, if it ends

    ghost function View(phase: Phase): Config
      reads this
    {
      Config(tasks, held, phase)
    }

    ghost predicate Valid()
      reads this
    {
      exists g: Ghosts :: Inv(View(Outside), g) && g.values == values
    }

    /** `Executor::new` */
    constructor New()
      ensures Valid() && tasks == [] && held == map[]
    {
      tasks := [];
      held := map[];
      values := [];
      new;
      StartInv();
      assert View(Outside) == START;
    }

    /** `spawn` from outside any task: the body takes a copy of its variables and the handles
        it is given, and the caller gets the handle of the new task. */
    method Spawn(ghost name: nat, body: Prog, env: seq<int>, given: map<nat, nat>) returns (r: Result<nat, SpawnError>)
      requires Valid() && given.Keys <= held.Keys && given == Restrict(held, given.Keys) && Linear(body, given.Keys)
      modifies this
      ensures Valid() && View(Outside) == MainSpawnStep(old(View(Outside)), name, body, env, given.Keys)
      ensures r == if |old(tasks)| < 64 then Ok(|old(tasks)|) else Err(TaskListIsFull)
      ensures r.Ok? ==> |tasks| == |old(tasks)| + 1 && tasks[r.value] == NewTask(body, env, given)
      ensures old(values) <= values
      ensures r.Ok? ==> |values| == |tasks| && Evaluates(body, env, given, old(values), values[r.value])
    {
      ghost var g: Ghosts :| Inv(View(Outside), g) && g.values == values;
      ghost var g' := MainSpawnKeeps(View(Outside), g, name, body, env, given.Keys);
      if |tasks| >= MAX_TASKS {
        held := held - given.Keys;
        r := Err(TaskListIsFull);
      } else {
        r := Ok(|tasks|);
        held := Rebind(held, given.Keys, name, |tasks|);
        tasks := tasks + [NewTask(body, env, given)];
      }
      values := g'.values;
      assert View(Outside) == MainSpawnStep(old(View(Outside)), name, body, env, given.Keys);
    }

    /** `JoinHandle::poll` on task u, by the task t. */
    method PollJoinHandle(u: nat, t: nat) returns (r: PollResult)
      requires u < |tasks| && t < |tasks|
      modifies this`tasks
      ensures !old(tasks)[u].state.Terminated? ==>
              r == IsPending && tasks == old(tasks)[u := old(tasks)[u].(waker := Some(t))]
      ensures old(tasks)[u].state.Terminated? ==>
                && tasks == old(tasks)
                && r == (if tasks[u].exit.Some? then IsReady(tasks[u].exit.value) else HasPanicked(UnwrapNone))
    {
      if !tasks[u].state.Terminated? {
        tasks := tasks[u := tasks[u].(waker := Some(t))];
        r := IsPending;
      } else {
        match tasks[u].exit {
          case Some(v) => r := IsReady(v);
          case None => r := HasPanicked(UnwrapNone);
        }
      }
    }

    /** How many waiter slots are taken. */
    method CountDelays() returns (n: nat)
      ensures n == DelaysHeld(tasks)
    {
      n := 0;
      for i := 0 to |tasks|
        invariant n == DelaysHeld(tasks[..i])
      {
        assert tasks[..i + 1][..i] == tasks[..i];
        if tasks[i].leaf.Waiting? || tasks[i].leaf.Fired? {
          n := n + 1;
        }
      }
      assert tasks[..|tasks|] == tasks;
    }

    /** One step of the body of task t; `IsReady` and `IsPending` end the poll, and no result
        means that the body goes on. */
    method StepBody(t: nat, ghost queue: seq<nat>) returns (r: Option<PollResult>)
      requires t < |tasks| && Linear(tasks[t].prog, tasks[t].handles.Keys) && InRange(tasks[t].handles, |tasks|)
      modifies this`tasks
      ensures Exec(old(View(Poll(t, queue)))) == View(AfterStep(t, queue, r))
    {
      var task := tasks[t];
      r := None;
      match task.prog {
        case Return(f) =>
          r := Some(IsReady(f(task.env)));
        case Branch(test, yes, no) =>
          tasks := tasks[t := task.(prog := if test(task.env) then yes else no)];
        case Defer(next) =>
          if task.leaf.Yielded? {
            tasks := tasks[t := task.(prog := next, leaf := Fresh)];
          } else {
            tasks := tasks[t := task.(leaf := Yielded, state := Ready)];
            r := Some(IsPending);
          }
        case Delay(ms, next) =>
          if task.leaf.Fired? {
            tasks := tasks[t := task.(prog := next, leaf := Fresh)];
          } else if task.leaf.Waiting? {
            tasks := tasks[t := task.(leaf := Waiting(true))];
            r := Some(IsPending);
          } else {
            var waiting := CountDelays();
            if waiting >= MAX_DELAYS {
              r := Some(HasPanicked(TimerFull));
            } else if ms == 0 {
              r := Some(HasPanicked(ZeroDelay));
            } else {
              tasks := tasks[t := task.(leaf := Waiting(false))];
            }
          }
        case Spawn(h, child, moved, next) =>
          if |tasks| >= MAX_TASKS {
            r := Some(HasPanicked(TaskListFull));
          } else {
            var parent := task.(prog := next, handles := Rebind(task.handles, moved, h, |tasks|));
            tasks := tasks[t := parent] + [NewTask(child, task.env, Restrict(task.handles, moved))];
          }
        case Await(h, next) =>
          var joined := PollJoinHandle(task.handles[h], t);
          match joined {
            case IsReady(v) => tasks := tasks[t := task.(prog := next, env := task.env + [v])];
            case IsPending => r := Some(IsPending);
            case HasPanicked(reason) => r := Some(HasPanicked(reason));
          }
        case Loop(body, _) =>
          tasks := tasks[t := task.(prog := Then(body, task.prog))];
      }
    }

    /** `pin.poll(&mut context)` on the future of task t. */
    method PollBody(t: nat, ghost queue: seq<nat>, ghost start: seq<Option<int>>) returns (r: PollResult)
      requires Good(View(Poll(t, queue)), start)
      modifies this`tasks
      ensures Progressed(old(View(Poll(t, queue))), View(AfterStep(t, queue, Some(r))), start)
    {
      ghost var before := View(Poll(t, queue));
      var step: Option<PollResult> := None;
      ProgressedRefl(before, start);
      while step.None?
        invariant Progressed(before, View(AfterStep(t, queue, step)), start)
        decreases step.None?, Measure(View(AfterStep(t, queue, step)))
      {
        ghost var c := View(Poll(t, queue));
        PolledTyped(c, start);
        step := StepBody(t, queue);
        ProgressedStep(before, c, View(AfterStep(t, queue, step)), start);
      }
      r := step.value;
    }

    /** The first half of `do_poll`: mark as pending, and poll the future. */
    method MarkAndPoll(t: nat, ghost ready: seq<nat>, ghost start: seq<Option<int>>) returns (r: PollResult)
      requires Good(View(Round(ready)), start) && ready != [] && ready[0] == t
      modifies this`tasks
      ensures Progressed(old(View(Round(ready))), View(AfterStep(t, ready[1..], Some(r))), start)
    {
      ghost var before, queue := View(Round(ready)), ready[1..];
      ProgressedRefl(before, start);
      QueuedInRange(before, start);
      tasks := tasks[t := tasks[t].(state := Pending)];
      ghost var polled := View(Poll(t, queue));
      ProgressedStep(before, before, polled, start);
      r := PollBody(t, queue, start);
      ProgressedTrans(before, polled, View(AfterStep(t, queue, Some(r))), start);
    }

    /** The second half of `do_poll`, once the future has returned a value: the exit slot,
        then the state, then the waker of whoever waits on the handle. */
    method Terminate(t: nat, value: int, ghost queue: seq<nat>, ghost start: seq<Option<int>>)
      requires Good(View(Exit(t, value, queue)), start)
      modifies this`tasks
      ensures Progressed(old(View(Exit(t, value, queue))), View(Round(queue)), start)
    {
      ghost var c0 := View(Exit(t, value, queue));
      ProgressedRefl(c0, start);
      PhaseInRange(c0, start);
      tasks := tasks[t := tasks[t].(exit := Some(value))];
      ghost var c1 := View(Exited(t, queue));
      ExitStep(c0);
      ProgressedStep(c0, c0, c1, start);
      tasks := tasks[t := tasks[t].(state := Terminated)];
      ghost var c2 := View(Waking(t, queue));
      ExitStep(c1);
      ProgressedStep(c0, c1, c2, start);
      tasks := WakeOption(tasks, tasks[t].waker);
      ExitStep(c2);
      ProgressedStep(c0, c2, View(Round(queue)), start);
    }

    /** `TCB::do_poll` on the next task of the snapshot. */
    method DoPoll(t: nat, ghost ready: seq<nat>, ghost before: Config, ghost start: seq<Option<int>>)
      returns (panic: Option<Reason>)
      requires OnRound(before, ready, None, start) && ready != [] && ready[0] == t
      modifies this`tasks
      ensures OnRound(before, ready[1..], panic, start)
    {
      ghost var c, queue := View(Round(ready)), ready[1..];
      panic := None;
      var result := MarkAndPoll(t, ready, start);
      ghost var polled := View(AfterStep(t, queue, Some(result)));
      ProgressedTrans(before, c, polled, start);
      match result {
        case IsPending =>
        case HasPanicked(reason) =>
          panic := Some(reason);
          NeverUnwrapsNone(View(Panicked(reason)), start);
        case IsReady(value) =>
          Terminate(t, value, queue, start);
          ProgressedTrans(before, polled, View(Round(queue)), start);
      }
      assert Progressed(before, View(AfterPoll(queue, panic)), start);
    }

    /** The round that began at `before` has still to poll the queue, or has panicked. */
    ghost predicate OnRound(before: Config, queue: seq<nat>, panic: Option<Reason>, start: seq<Option<int>>)
      reads this
    {
      && panic != Some(UnwrapNone)
      && exists c: Config :: c == View(AfterPoll(queue, panic)) && Progressed(before, c, start)
    }

    /** The number of terminated tasks is the number of tasks. */
    method AllDone() returns (all: bool)
      ensures all <==> AllTerminated(tasks)
    {
      var count := 0;
      for n := 0 to |tasks|
        invariant count <= n
        invariant count == n <==> forall t :: 0 <= t < n ==> tasks[t].state.Terminated?
      {
        if tasks[n].state.Terminated? {
          count := count + 1;
        }
      }
      all := count == |tasks|;
    }

    /** Collects the ready tasks; no result stands for the panic on a ninth. */
    method CollectReady() returns (ready: Option<seq<nat>>)
      ensures var all := ReadyBelow(tasks, |tasks|);
              ready == if |all| > 8 then None else Some(all)
    {
      var found: seq<nat> := [];
      for n := 0 to |tasks|
        invariant found == ReadyBelow(tasks, n) && |found| <= MAX_READY
      {
        if tasks[n].state.Ready? {
          if |found| == MAX_READY {
            ReadyBelowGrows(tasks, n + 1, |tasks|);
            return None;
          }
          found := found + [n];
        }
      }
      ready := Some(found);
    }

    /** One round: polls the tasks of the snapshot in order. */
    method PollRound(ready: seq<nat>, ghost before: Config, ghost start: seq<Option<int>>)
      returns (panic: Option<Reason>, ghost queue: seq<nat>)
      requires OnRound(before, ready, None, start)
      modifies this`tasks
      ensures OnRound(before, queue, panic, start) && (panic.None? ==> queue == [])
    {
      panic, queue := None, ready;
      for i := 0 to |ready|
        invariant queue == ready[i..] && panic == None && OnRound(before, queue, panic, start)
      {
        panic := DoPoll(ready[i], queue, before, start);
        queue := queue[1..];
        if panic.Some? {
          return;
        }
      }
      assert queue == [];
    }

    /** An interrupt ends some armed delay and fires the waker stored with it. */
    method Interrupt(ghost before: Config, ghost start: seq<Option<int>>)
      requires Progressed(before, View(Collect), start) && Spins(View(Collect)) && !AllTerminated(tasks)
      modifies this`tasks
      ensures Progressed(before, View(Collect), start) && !AllTerminated(tasks)
      ensures Measure(View(Collect)) < Measure(old(View(Collect)))
      ensures exists t :: 0 <= t < |old(tasks)| && old(tasks)[t].leaf == Waiting(true)
                          && View(Collect) == SignalStep(old(View(Collect)), t)
    {
      ghost var c := View(Collect);
      SpinEnds(c, start);
      var t :| 0 <= t < |tasks| && tasks[t].leaf == Waiting(true);
      tasks := tasks[t := tasks[t].(leaf := Fired(true), state := Ready)];
      assert View(Collect) == SignalStep(c, t);
      ProgressedMove(before, c, View(Collect), start);
      assert !tasks[t].state.Terminated?;
    }

    /** The ready snapshot. While it is empty `run` spins, until an interrupt comes. */
    method Snapshot(ghost before: Config, ghost start: seq<Option<int>>) returns (ready: Option<seq<nat>>)
      requires Progressed(before, View(Collect), start) && !AllTerminated(tasks)
      modifies this`tasks
      ensures Progressed(before, View(Collect), start) && !Spins(View(Collect))
      ensures var all := ReadyBelow(tasks, |tasks|);
              ready == if |all| > MAX_READY then None else Some(all)
    {
      ready := CollectReady();
      while ready == Some([])
        invariant Progressed(before, View(Collect), start) && !AllTerminated(tasks)
        invariant var all := ReadyBelow(tasks, |tasks|);
                  ready == if |all| > MAX_READY then None else Some(all)
        decreases Measure(View(Collect))
      {
        Interrupt(before, start);
        ready := CollectReady();
      }
    }

    /** One turn of the loop of `run`, from the all-terminated test to the end of the round. */
    method Turn(ghost start: seq<Option<int>>) returns (done: bool, panic: Option<Reason>)
      requires Good(View(Check), start)
      modifies this`tasks
      ensures Progressed(old(View(Check)), View(AfterTurn(done, panic)), start)
      ensures done ==> AllTerminated(tasks)
      ensures panic.Some? ==> !done && panic.value != UnwrapNone
      ensures !done && panic.None? ==> Measure(View(Check)) < Measure(old(View(Check)))
    {
      ghost var before := View(Check);
      ProgressedRefl(before, start);
      panic := None;
      done := AllDone();
      if done {
        ProgressedStep(before, before, View(Outside), start);
        return;
      }
      ProgressedStep(before, before, View(Collect), start);
      var ready := Snapshot(before, start);
      ghost var c := View(Collect);
      match ready {
        case None =>
          panic := Some(SnapshotFull);
          ProgressedStep(before, c, View(Panicked(SnapshotFull)), start);
        case Some(queue) =>
          ghost var r := View(Round(queue));
          ProgressedStep(before, c, r, start);
          ghost var rest;
          panic, rest := PollRound(queue, before, start);
          if panic.None? {
            ghost var e := View(Round([]));
            ProgressedStep(before, e, View(Check), start);
          }
      }
    }

    /** `run`, for bodies without loops. Unless it panics it returns, all tasks have terminated,
        and every exit slot holds the value of its body by direct evaluation: for the tasks
        there were before, and for those spawned on the way. It does not panic if the tasks, with
        all that they may spawn, are at most eight, and their delays positive. */
    method Run() returns (panic: Option<Reason>)
      requires Valid() && LoopFree(View(Outside))
      modifies this`tasks, this`values
      ensures old(values) <= values
      ensures panic.None? ==>
                && Valid() && RanTo(old(View(Check)), View(Outside))
                && |values| == |tasks|
                && forall t :: 0 <= t < |tasks| ==> tasks[t].state.Terminated? && tasks[t].exit == values[t]
      ensures panic.Some? ==> panic.value != UnwrapNone && RanTo(old(View(Check)), View(Panicked(panic.value)))
      ensures Fits(old(View(Check))) ==> panic.None?
    {
      ghost var start, before := values, View(Check);
      Called(View(Outside), start);
      ProgressedRefl(before, start);
      var done := false;
      panic := None;
      while !done && panic.None?
        invariant Progressed(before, View(AfterTurn(done, panic)), start)
        invariant done ==> AllTerminated(tasks)
        invariant panic.Some? ==> !done && panic.value != UnwrapNone
        invariant values == start
        decreases !done && panic.None?, Measure(View(Check))
      {
        ghost var c := View(Check);
        done, panic := Turn(start);
        ProgressedTrans(before, c, View(AfterTurn(done, panic)), start);
      }
      Ran(before, View(AfterTurn(done, panic)), start);
      if Fits(before) {
        RanFits(before, View(AfterTurn(done, panic)), start);
      }
      if panic.None? {
        ghost var g: Ghosts :| Inv(View(Outside), g) && start <= g.values;
        values := g.values;
        ExitsHold(View(Outside), g);
      }
    }

    /** `JoinHandle::join` looks at the state: no result means that it goes on spinning. */
    method Join(t: nat) returns (v: Option<int>)
      requires Valid() && t < |tasks|
      ensures v.Some? <==> tasks[t].state.Terminated?
      ensures v.Some? ==> |values| == |tasks| && v == values[t]
    {
      ghost var g: Ghosts :| Inv(View(Outside), g) && g.values == values;
      assert TaskOk(View(Outside), t, g);
      v := if tasks[t].state.Terminated? then Some(tasks[t].exit.value) else None;
    }
  }

  /** `run` got from c to c' by moves, and c' explains every task of every configuration on
      the way. */
  ghost predicate RanTo(c: Config, c': Config) {
    exists path :: Path(Moves, path) && path[0] == c && path[|path| - 1] == c' && Explains(path)
  }

  lemma {:induction false} Ran(c: Config, c': Config, start: seq<Option<int>>)
    requires Good(c, start) && Leads(Moves, c, c')
    ensures RanTo(c, c')
  {
    var g: Ghosts :| Inv(c, g) && start <= g.values;
    var path :| Path(Moves, path) && path[0] == c && path[|path| - 1] == c';
    ExecutionExplains(path, g);
  }

  lemma {:induction false} RanFits(c: Config, c': Config, start: seq<Option<int>>)
    requires Good(c, start) && RanTo(c, c') && Fits(c) && !c.phase.Panicked?
    ensures !c'.phase.Panicked?
  {
    var g: Ghosts :| Inv(c, g) && start <= g.values;
    var path :| Path(Moves, path) && path[0] == c && path[|path| - 1] == c' && Explains(path);
    ExecutionFits(path, g);
  }

  /** Where `run` is after a turn of its loop. */
  function AfterTurn(done: bool, panic: Option<Reason>): Phase {
    match panic
    case Some(reason) => Panicked(reason)
    case None => if done then Outside else Check
  }

  lemma {:induction false} ReadyBelowGrows(tasks: seq<Tcb>, m: nat, n: nat)
    requires m <= n <= |tasks|
    ensures |ReadyBelow(tasks, m)| <= |ReadyBelow(tasks, n)|
    decreases n
  {
    if m < n {
      ReadyBelowGrows(tasks, m, n - 1);
    }
  }

  lemma {:induction false} NeverUnwrapsNone(c: Config, start: seq<Option<int>>)
    requires Good(c, start) && c.phase.Panicked?
    ensures c.phase.reason != UnwrapNone
  {
  }

  lemma {:induction false} SpinEnds(c: Config, start: seq<Option<int>>)
    requires Good(c, start) && Spins(c) && !AllTerminated(c.tasks)
    ensures exists t :: 0 <= t < |c.tasks| && c.tasks[t].leaf == Waiting(true)
    ensures forall t :: 0 <= t < |c.tasks| && c.tasks[t].leaf.Waiting? ==> !c.tasks[t].state.Terminated?
  {
    var g: Ghosts :| Inv(c, g) && start <= g.values;
    SpinningWaits(c, g);
    forall t | 0 <= t < |c.tasks| && c.tasks[t].leaf.Waiting?
      ensures !c.tasks[t].state.Terminated?
    {
      assert TaskOk(c, t, g);
    }
  }

  lemma {:induction false} Called(c: Config, values: seq<Option<int>>)
    requires c.phase.Outside? && LoopFree(c) && exists g: Ghosts :: Inv(c, g) && g.values == values
    ensures Good(c.(phase := Check), values)
  {
    var g: Ghosts :| Inv(c, g) && g.values == values;
    CallRunKeeps(c, g);
  }

  lemma {:induction false} ExitsHold(c: Config, g: Ghosts)
    requires Inv(c, g) && AllTerminated(c.tasks)
    ensures forall t :: 0 <= t < |c.tasks| ==> c.tasks[t].exit == g.values[t]
  {
    forall t | 0 <= t < |c.tasks|
      ensures c.tasks[t].exit == g.values[t]
    {
      assert TaskOk(c, t, g);
    }
  }

  function AfterPoll(queue: seq<nat>, panic: Option<Reason>): Phase {
    match panic
    case None => Round(queue)
    case Some(reason) => Panicked(reason)
  }

  /** The invariant holds, the values of the first tasks are the given ones, and no body has a
      loop. */
  ghost predicate Good(c: Config, values: seq<Option<int>>) {
    LoopFree(c) && exists g: Ghosts :: Inv(c, g) && values <= g.values
  }

  /** `run` got there by moves, kept the invariant, and did some of the work. */
  ghost predicate Progressed(c: Config, c': Config, start: seq<Option<int>>) {
    Leads(Moves, c, c') && Good(c', start) && (c' == c || Measure(c') < Measure(c))
  }

  lemma {:induction false} ProgressedRefl(c: Config, start: seq<Option<int>>)
    requires Good(c, start)
    ensures Progressed(c, c, start)
  {
    LeadsRefl(Moves, c);
  }

  lemma {:induction false} ProgressedTrans(a: Config, b: Config, c: Config, start: seq<Option<int>>)
    requires Progressed(a, b, start) && Progressed(b, c, start)
    ensures Progressed(a, c, start)
  {
    LeadsTrans(Moves, a, b, c);
  }

  lemma {:induction false} ProgressedMove(a: Config, c: Config, c': Config, start: seq<Option<int>>)
    requires Progressed(a, c, start) && Moves(c, c')
    ensures Progressed(a, c', start) && Measure(c') < Measure(c)
  {
    var g: Ghosts :| Inv(c, g) && start <= g.values;
    var g' := MoveDecreases(c, c', g);
    MoveWithin(c, c', false, AnyDelay);
    LeadsStep(Moves, c, c');
    LeadsTrans(Moves, a, c, c');
  }

  lemma {:induction false} ProgressedStep(a: Config, c: Config, c': Config, start: seq<Option<int>>)
    requires Progressed(a, c, start) && Running(c.phase) && !Spins(c) && c' == Exec(c)
    ensures Progressed(a, c', start) && Measure(c') < Measure(c)
  {
    if AtLoop(c) {
      LoopThere(c);
    }
    ProgressedMove(a, c, c', start);
  }

  lemma {:induction false} PolledTyped(c: Config, start: seq<Option<int>>)
    requires Good(c, start) && c.phase.Poll?
    ensures c.phase.t < |c.tasks|
    ensures Linear(c.tasks[c.phase.t].prog, c.tasks[c.phase.t].handles.Keys)
            && InRange(c.tasks[c.phase.t].handles, |c.tasks|)
  {
    var g: Ghosts :| Inv(c, g) && start <= g.values;
    assert CodeOk(c.tasks[c.phase.t], c.phase.t, g);
  }

  lemma {:induction false} QueuedInRange(c: Config, start: seq<Option<int>>)
    requires Good(c, start) && c.phase.Round? && c.phase.queue != []
    ensures c.phase.queue[0] < |c.tasks|
  {
  }

  /** The three stores at the end of `do_poll`. */
  lemma {:induction false} ExitStep(c: Config)
    requires (c.phase.Exit? || c.phase.Exited? || c.phase.Waking?) && c.phase.t < |c.tasks|
    ensures var t := c.phase.t;
            Exec(c) ==
            match c.phase
            case Exit(_, value, queue) =>
              Config(c.tasks[t := c.tasks[t].(exit := Some(value))], c.main, Exited(t, queue))
            case Exited(_, queue) => Config(c.tasks[t := c.tasks[t].(state := Terminated)], c.main, Waking(t, queue))
            case Waking(_, queue) => Config(WakeOption(c.tasks, c.tasks[t].waker), c.main, Round(queue))
  {
  }

  lemma {:induction false} PhaseInRange(c: Config, start: seq<Option<int>>)
    requires Good(c, start) && c.phase.Exit?
    ensures c.phase.t < |c.tasks|
  {
  }

  /** Where the machine is after a step of a body with the given result. */
  function AfterStep(t: nat, queue: seq<nat>, r: Option<PollResult>): Phase {
    match r
    case None => Poll(t, queue)
    case Some(IsReady(v)) => Exit(t, v, queue)
    case Some(IsPending) => Round(queue)
    case Some(HasPanicked(reason)) => Panicked(reason)
  }
}
