/** The invariant of the machine: the join protocol between task states, completion wakers,
    exit slots and the ready snapshot, kept by every step of the executor and every
    interrupt. */
module Protocol {
  import opened Wrappers
  import opened Programs
  import opened Machine
  import opened Ownership

  /** The task is at the await of a handle of task u. */
  ghost predicate Awaiting(task: Tcb, u: nat) {
    task.prog.Await? && task.prog.handle in task.handles && task.handles[task.prog.handle] == u
  }

  /** The waker stored with task u can still fire: u runs, or is about to wake its waiter. */
  ghost predicate CanWake(c: Config, u: nat)
    requires u < |c.tasks|
  {
    !c.tasks[u].state.Terminated? || (c.phase.Waking? && c.phase.t == u)
  }

  /** Task t is the one in the middle of `do_poll`, or a panic has ended `run` there. */
  ghost predicate Polled(phase: Phase, t: nat) {
    phase.Panicked? || ((phase.Poll? || phase.Exit? || phase.Exited?) && phase.t == t)
  }

  /** The leaf future is one of the await the task is at. */
  ghost predicate LeafOk(task: Tcb) {
    match task.leaf
    case Fresh => true
    case Yielded => task.prog.Defer?
    case Waiting(_) => task.prog.Delay?
    case Fired(_) => task.prog.Delay?
  }

  /** A waker that can still fire belongs to a task that is still suspended on the target. */
  ghost predicate WakerOk(c: Config, u: nat)
    requires u < |c.tasks|
  {
    CanWake(c, u) && c.tasks[u].waker.Some? ==>
      var w := c.tasks[u].waker.value;
      w < |c.tasks| && !c.tasks[w].state.Terminated? && Awaiting(c.tasks[w], u)
  }

  /** Something will wake the task: it waits for a task that will fire its waker, or for an
      interrupt that has its waker. */
  ghost predicate Suspended(c: Config, t: nat)
    requires t < |c.tasks|
  {
    || (exists u :: 0 <= u < |c.tasks| && Awaiting(c.tasks[t], u) && CanWake(c, u) && c.tasks[u].waker == Some(t))
    || (c.tasks[t].prog.Delay? && c.tasks[t].leaf == Waiting(true))
  }

  /** No lost wake-up: between its polls, a pending task is suspended. */
  ghost predicate PendingOk(c: Config, t: nat)
    requires t < |c.tasks|
  {
    c.tasks[t].state.Pending? && !Polled(c.phase, t) ==> Suspended(c, t)
  }

  /** The exit slot is filled exactly from the step before TERMINATED on, with the value of
      the body. */
  ghost predicate ExitOk(c: Config, t: nat, g: Ghosts)
    requires t < |c.tasks| && t < |g.values|
  {
    && (c.tasks[t].exit.Some? <==> c.tasks[t].state.Terminated? || (c.phase.Exited? && c.phase.t == t))
    && (c.tasks[t].exit.Some? ==> c.tasks[t].exit == g.values[t] && c.tasks[t].prog.Return?)
  }

  ghost predicate TaskOk(c: Config, t: nat, g: Ghosts)
    requires t < |c.tasks| && t < |g.values|
  {
    LeafOk(c.tasks[t]) && WakerOk(c, t) && PendingOk(c, t) && ExitOk(c, t, g)
  }

  ghost predicate Ascending(queue: seq<nat>) {
    forall i, j :: 0 <= i < j < |queue| ==> queue[i] < queue[j]
  }

  /** What is left of the snapshot: ready tasks, each once, in spawn order. */
  ghost predicate QueueOk(tasks: seq<Tcb>, queue: seq<nat>) {
    && (forall i :: 0 <= i < |queue| ==> queue[i] < |tasks| && tasks[queue[i]].state.Ready?)
    && Ascending(queue)
  }

  ghost predicate CurrentOk(tasks: seq<Tcb>, t: nat, queue: seq<nat>) {
    t < |tasks| && t !in queue && QueueOk(tasks, queue)
  }

  ghost predicate PhaseOk(c: Config, g: Ghosts)
    requires |c.tasks| == |g.values|
  {
    match c.phase
    case Round(queue) => QueueOk(c.tasks, queue)
    case Poll(t, queue) => CurrentOk(c.tasks, t, queue) && !c.tasks[t].state.Terminated?
    case Exit(t, v, queue) =>
      CurrentOk(c.tasks, t, queue) && !c.tasks[t].state.Terminated? && c.tasks[t].prog.Return? && Some(v) == g.values[t]
    case Exited(t, queue) =>
      CurrentOk(c.tasks, t, queue) && !c.tasks[t].state.Terminated? && c.tasks[t].prog.Return?
    case Waking(t, queue) => CurrentOk(c.tasks, t, queue) && c.tasks[t].state.Terminated?
    case Panicked(reason) => reason != UnwrapNone
    case _ => true
  }

  ghost predicate Inv(c: Config, g: Ghosts) {
    && |c.tasks| <= MAX_TASKS
    && CodeInv(c.tasks, c.main, g)
    && (forall t :: 0 <= t < |c.tasks| ==> TaskOk(c, t, g))
    && PhaseOk(c, g)
  }

  lemma {:induction false} StartInv()
    ensures Inv(START, Ghosts([], []))
  {
  }

  // ----- between polls -----

  /** The snapshot holds exactly the ready tasks, each once, in spawn order. */
  lemma {:induction false} ReadyBelowExact(tasks: seq<Tcb>, n: nat)
    requires n <= |tasks|
    ensures QueueOk(tasks, ReadyBelow(tasks, n))
    ensures forall t: nat :: t in ReadyBelow(tasks, n) <==> t < n && tasks[t].state.Ready?
  {
    ReadyBelowMembers(tasks, n);
    ReadyBelowSorted(tasks, n);
    var ready := ReadyBelow(tasks, n);
    assert forall i :: 0 <= i < |ready| ==> ready[i] in ready;
  }

  lemma {:induction false} ReadyBelowMembers(tasks: seq<Tcb>, n: nat)
    requires n <= |tasks|
    ensures forall t: nat :: t in ReadyBelow(tasks, n) <==> t < n && tasks[t].state.Ready?
  {
    if n > 0 {
      ReadyBelowMembers(tasks, n - 1);
    }
  }

  lemma {:induction false} ReadyBelowSorted(tasks: seq<Tcb>, n: nat)
    requires n <= |tasks|
    ensures Ascending(ReadyBelow(tasks, n))
  {
    if n > 0 {
      var before := ReadyBelow(tasks, n - 1);
      ReadyBelowSorted(tasks, n - 1);
      ReadyBelowMembers(tasks, n - 1);
      assert forall i :: 0 <= i < |before| ==> before[i] in before;
      assert Ascending(before + [n - 1]);
    }
  }

  // ----- what carries over a step -----

  /** A suspended task stays suspended while its waker stays where it is and can fire. */
  lemma {:induction false} SuspendedKept(c: Config, c': Config, t: nat)
    requires t < |c.tasks| <= |c'.tasks|
    requires c'.tasks[t].prog == c.tasks[t].prog && c'.tasks[t].handles == c.tasks[t].handles
             && c'.tasks[t].leaf == c.tasks[t].leaf
    requires forall u :: 0 <= u < |c.tasks| && CanWake(c, u) && c.tasks[u].waker == Some(t) ==>
               CanWake(c', u) && c'.tasks[u].waker == Some(t)
    ensures Suspended(c, t) ==> Suspended(c', t)
  {
    if Suspended(c, t) && !(c.tasks[t].prog.Delay? && c.tasks[t].leaf == Waiting(true)) {
      var u :| 0 <= u < |c.tasks| && Awaiting(c.tasks[t], u) && CanWake(c, u) && c.tasks[u].waker == Some(t);
      assert Awaiting(c'.tasks[t], u);
    }
  }

  /** A step that changes no task, and leaves no waker unfired. */
  lemma {:induction false} PhaseMoves(c: Config, phase: Phase, g: Ghosts, t: nat)
    requires t < |c.tasks| && t < |g.values| && TaskOk(c, t, g)
    requires c.phase.Waking? ==> phase.Waking? && phase.t == c.phase.t
    requires phase.Waking? <==> c.phase.Waking?
    requires phase.Exited? <==> c.phase.Exited?
    requires phase.Exited? ==> phase.t == c.phase.t
    requires Polled(c.phase, t) ==> Polled(phase, t) || Suspended(c, t) || !c.tasks[t].state.Pending?
    ensures TaskOk(c.(phase := phase), t, g)
  {
    SuspendedKept(c, c.(phase := phase), t);
  }

  lemma {:induction false} CheckKeeps(c: Config, g: Ghosts)
    requires Inv(c, g) && (c.phase.Check? || c.phase.Collect?)
    ensures Inv(Exec(c), g)
  {
    ReadyBelowExact(c.tasks, |c.tasks|);
    forall t | 0 <= t < |c.tasks|
      ensures TaskOk(Exec(c), t, g)
    {
      PhaseMoves(c, Exec(c).phase, g, t);
    }
  }

  /** The next task of the queue becomes PENDING and is polled. */
  lemma {:induction false} RoundKeeps(c: Config, g: Ghosts)
    requires Inv(c, g) && c.phase.Round?
    ensures Inv(Exec(c), g)
  {
    if c.phase.queue == [] {
      forall t | 0 <= t < |c.tasks|
        ensures TaskOk(Exec(c), t, g)
      {
        PhaseMoves(c, Check, g, t);
      }
    } else {
      NextPolled(c, g);
    }
  }

  lemma {:induction false} NextPolled(c: Config, g: Ghosts)
    requires Inv(c, g) && c.phase.Round? && c.phase.queue != []
    ensures Inv(Exec(c), g)
  {
    var c' := Exec(c);
    SameCodeKept(c.tasks, c'.tasks, c.main, g);
    QueueTail(c.tasks, c.phase.queue);
    forall t | 0 <= t < |c.tasks|
      ensures TaskOk(c', t, g)
    {
      NextTaskOk(c, g, t);
    }
  }

  lemma {:induction false} NextTaskOk(c: Config, g: Ghosts, t: nat)
    requires Inv(c, g) && c.phase.Round? && c.phase.queue != [] && t < |c.tasks|
    ensures t < |Exec(c).tasks| && TaskOk(Exec(c), t, g)
  {
    assert TaskOk(c, t, g);
    SuspendedKept(c, Exec(c), t);
  }

  lemma {:induction false} QueueTail(tasks: seq<Tcb>, queue: seq<nat>)
    requires queue != [] && QueueOk(tasks, queue)
    ensures CurrentOk(tasks[queue[0] := tasks[queue[0]].(state := Pending)], queue[0], queue[1..])
  {
    assert forall i :: 0 <= i < |queue[1..]| ==> queue[1..][i] == queue[i + 1];
  }

  // ----- the end of a poll -----

  lemma {:induction false} ExitKeeps(c: Config, g: Ghosts)
    requires Inv(c, g) && c.phase.Exit?
    ensures Inv(Exec(c), g)
  {
    var c' := Exec(c);
    SameCodeKept(c.tasks, c'.tasks, c.main, g);
    forall t | 0 <= t < |c.tasks|
      ensures TaskOk(c', t, g)
    {
      assert TaskOk(c, t, g);
      SuspendedKept(c, c', t);
    }
  }

  /** The state becomes TERMINATED; the waiter is woken in the next step. */
  lemma {:induction false} ExitedKeeps(c: Config, g: Ghosts)
    requires Inv(c, g) && c.phase.Exited?
    ensures Inv(Exec(c), g)
  {
    var c' := Exec(c);
    SameCodeKept(c.tasks, c'.tasks, c.main, g);
    forall t | 0 <= t < |c.tasks|
      ensures TaskOk(c', t, g)
    {
      assert TaskOk(c, t, g);
      SuspendedKept(c, c', t);
    }
  }

  /** The completion waker fires. Whoever waited for the task is ready now. */
  lemma {:induction false} WakingKeeps(c: Config, g: Ghosts)
    requires Inv(c, g) && c.phase.Waking?
    ensures Inv(Exec(c), g)
  {
    var done, c' := c.phase.t, Exec(c);
    assert TaskOk(c, done, g);
    SameCodeKept(c.tasks, c'.tasks, c.main, g);
    forall t | 0 <= t < |c.tasks|
      ensures TaskOk(c', t, g)
    {
      assert TaskOk(c, t, g);
      if c.tasks[done].waker != Some(t) {
        SuspendedKept(c, c', t);
      }
    }
  }

  // ----- inside a poll -----

  /** The body of the polled task goes on. Nobody stored the task's waker where it could
      fire, unless the task is at an await. */
  lemma {:induction false} BodyKeeps(c: Config, g: Ghosts, task: Tcb)
    requires Inv(c, g) && c.phase.Poll?
    requires CodeInv(c.tasks[c.phase.t := task], c.main, g)
    requires task.state == c.tasks[c.phase.t].state && task.waker == c.tasks[c.phase.t].waker
             && task.exit == c.tasks[c.phase.t].exit
    requires LeafOk(task)
    requires forall u :: 0 <= u < |c.tasks| && Awaiting(c.tasks[c.phase.t], u) ==> !CanWake(c, u)
    ensures Inv(c.(tasks := c.tasks[c.phase.t := task]), g)
  {
    var p := c.phase.t;
    var c' := c.(tasks := c.tasks[p := task]);
    forall t | 0 <= t < |c.tasks|
      ensures TaskOk(c', t, g)
    {
      assert TaskOk(c, t, g);
      if t != p {
        SuspendedKept(c, c', t);
      }
    }
  }

  lemma {:induction false} ReturnKeeps(c: Config, g: Ghosts)
    requires Inv(c, g) && c.phase.Poll? && c.tasks[c.phase.t].prog.Return?
    ensures Inv(Exec(c), g)
  {
    var c' := Exec(c);
    assert CodeOk(c.tasks[c.phase.t], c.phase.t, g);
    forall t | 0 <= t < |c.tasks|
      ensures TaskOk(c', t, g)
    {
      PhaseMoves(c, c'.phase, g, t);
    }
  }

  lemma {:induction false} BranchKeeps(c: Config, g: Ghosts)
    requires Inv(c, g) && c.phase.Poll? && c.tasks[c.phase.t].prog.Branch?
    ensures Inv(Exec(c), g)
  {
    var t := c.phase.t;
    var task := c.tasks[t];
    assert CodeOk(task, t, g) && TaskOk(c, t, g);
    var task' := task.(prog := if task.prog.test(task.env) then task.prog.yes else task.prog.no);
    TargetsKeys(task.handles, g.values);
    BodyAdvances(c.tasks, t, task', c.main, g);
    BodyKeeps(c, g, task');
  }

  /** Another turn of a loop. */
  lemma {:induction false} LoopKeeps(c: Config, g: Ghosts)
    requires Inv(c, g) && c.phase.Poll? && c.tasks[c.phase.t].prog.Loop?
    ensures Inv(Exec(c), g)
  {
    var t := c.phase.t;
    var task := c.tasks[t];
    assert CodeOk(task, t, g) && TaskOk(c, t, g);
    var loop, body := task.prog, task.prog.body;
    TargetsKeys(task.handles, g.values);
    LinearMore(body, loop.needs, task.handles.Keys, loop.needs);
    ThenNeverEnds(body, loop, task.env, Targets(task.handles, g.values));
    var task' := task.(prog := Then(body, loop));
    LeafFresh(task');
    BodyAdvances(c.tasks, t, task', c.main, g);
    BodyKeeps(c, g, task');
  }

  lemma {:induction false} LeafFresh(task: Tcb)
    requires task.leaf.Fresh?
    ensures LeafOk(task)
  {
  }

  /** A `Defer` or a delay that is over. */
  lemma {:induction false} ResumeKeeps(c: Config, g: Ghosts)
    requires Inv(c, g) && c.phase.Poll?
    requires var task := c.tasks[c.phase.t];
             (task.prog.Defer? && task.leaf.Yielded?) || (task.prog.Delay? && task.leaf.Fired?)
    ensures Inv(Exec(c), g)
  {
    var t := c.phase.t;
    var task := c.tasks[t];
    assert CodeOk(task, t, g) && TaskOk(c, t, g);
    var task' := task.(prog := task.prog.next, leaf := Fresh);
    TargetsKeys(task.handles, g.values);
    BodyAdvances(c.tasks, t, task', c.main, g);
    BodyKeeps(c, g, task');
  }

  /** A delay is armed; its waker comes with the next step. */
  lemma {:induction false} ArmKeeps(c: Config, g: Ghosts)
    requires Inv(c, g) && c.phase.Poll? && c.tasks[c.phase.t].prog.Delay?
    requires !c.tasks[c.phase.t].leaf.Fired? && !c.tasks[c.phase.t].leaf.Waiting?
    ensures Inv(Exec(c), g)
  {
    if DelaysHeld(c.tasks) >= MAX_DELAYS {
      PanicKeeps(c, g, TimerFull);
    } else if c.tasks[c.phase.t].prog.ms == 0 {
      PanicKeeps(c, g, ZeroDelay);
    } else {
      var t := c.phase.t;
      var task' := c.tasks[t].(leaf := Waiting(false));
      assert CodeOk(c.tasks[t], t, g);
      BodyAdvances(c.tasks, t, task', c.main, g);
      BodyKeeps(c, g, task');
    }
  }

  /** A panic in mid-poll takes `run` with it, and claims nothing of the polled task. */
  lemma {:induction false} PanicKeeps(c: Config, g: Ghosts, reason: Reason)
    requires Inv(c, g) && c.phase.Poll? && reason != UnwrapNone
    ensures Inv(c.(phase := Panicked(reason)), g)
  {
    forall t | 0 <= t < |c.tasks|
      ensures TaskOk(c.(phase := Panicked(reason)), t, g)
    {
      PhaseMoves(c, Panicked(reason), g, t);
    }
  }

  /** A poll ends in `Poll::Pending`: the polled task is ready again, or is suspended. */
  lemma {:induction false} LeaveKeeps(c: Config, g: Ghosts, task: Tcb, queue: seq<nat>)
    requires Inv(c, g) && c.phase.Poll? && queue == c.phase.queue
    requires SameCode(task, c.tasks[c.phase.t]) && task.exit == c.tasks[c.phase.t].exit
             && task.waker == c.tasks[c.phase.t].waker
    requires !task.state.Terminated? && LeafOk(task)
    requires task.state.Pending? ==> task.prog.Delay? && task.leaf == Waiting(true)
    ensures Inv(Config(c.tasks[c.phase.t := task], c.main, Round(queue)), g)
  {
    var p := c.phase.t;
    var c' := Config(c.tasks[p := task], c.main, Round(queue));
    SameCodeKept(c.tasks, c'.tasks, c.main, g);
    assert forall i :: 0 <= i < |queue| ==> queue[i] in queue;
    forall t | 0 <= t < |c.tasks|
      ensures TaskOk(c', t, g)
    {
      assert TaskOk(c, t, g);
      if t != p {
        SuspendedKept(c, c', t);
      }
    }
  }

  /** A `Defer` wakes its own task and leaves; a delay leaves its waker with the interrupt. */
  lemma {:induction false} YieldKeeps(c: Config, g: Ghosts)
    requires Inv(c, g) && c.phase.Poll?
    requires var task := c.tasks[c.phase.t];
             (task.prog.Defer? && !task.leaf.Yielded?) || (task.prog.Delay? && task.leaf.Waiting?)
    ensures Inv(Exec(c), g)
  {
    var t, queue := c.phase.t, c.phase.queue;
    var task := c.tasks[t];
    assert TaskOk(c, t, g);
    var task' := if task.prog.Defer? then task.(leaf := Yielded, state := Ready) else task.(leaf := Waiting(true));
    LeaveKeeps(c, g, task', queue);
  }

  /** A join on a running task stores the waker. The slot held no waker of another task,
      because the handle has one holder. */
  lemma {:induction false} JoinPendingKeeps(c: Config, g: Ghosts, u: nat)
    requires Inv(c, g) && c.phase.Poll? && u < |c.tasks|
    requires Awaiting(c.tasks[c.phase.t], u) && !c.tasks[u].state.Terminated?
    ensures Inv(Exec(c), g)
  {
    var p, queue, c' := c.phase.t, c.phase.queue, Exec(c);
    assert c' == Config(c.tasks[u := c.tasks[u].(waker := Some(p))], c.main, Round(queue));
    SameCodeKept(c.tasks, c'.tasks, c.main, g);
    forall t | 0 <= t < |c.tasks|
      ensures TaskOk(c', t, g)
    {
      assert TaskOk(c, t, g);
      if t == p {
        assert Awaiting(c'.tasks[t], u) && CanWake(c', u) && c'.tasks[u].waker == Some(t);
      } else {
        OneWaiter(c, g, p, t, u);
        SuspendedElsewhere(c, c', t, u);
      }
    }
  }

  /** Two tasks cannot await the same task. */
  lemma {:induction false} OneWaiter(c: Config, g: Ghosts, s: nat, t: nat, u: nat)
    requires Inv(c, g) && s < |c.tasks| && t < |c.tasks| && s != t && Awaiting(c.tasks[s], u)
    ensures !Awaiting(c.tasks[t], u)
  {
    assert c.tasks[s].handles == HandlesOf(c.tasks, c.main, s);
    assert c.tasks[t].handles == HandlesOf(c.tasks, c.main, t);
  }

  /** A task that does not await u does not depend on the waker of u. */
  lemma {:induction false} SuspendedElsewhere(c: Config, c': Config, t: nat, u: nat)
    requires t < |c.tasks| && u < |c.tasks| == |c'.tasks| && c.phase.Poll? && !c'.phase.Waking?
    requires c'.tasks == c.tasks[u := c.tasks[u].(waker := c'.tasks[u].waker)]
    requires !Awaiting(c.tasks[t], u)
    ensures Suspended(c, t) ==> Suspended(c', t)
  {
    if Suspended(c, t) && !(c.tasks[t].prog.Delay? && c.tasks[t].leaf == Waiting(true)) {
      var x :| 0 <= x < |c.tasks| && Awaiting(c.tasks[t], x) && CanWake(c, x) && c.tasks[x].waker == Some(t);
      assert Awaiting(c'.tasks[t], x) && CanWake(c', x);
    }
  }

  /** A join on a terminated task finds its value in the exit slot. */
  lemma {:induction false} JoinReadyKeeps(c: Config, g: Ghosts, u: nat)
    requires Inv(c, g) && c.phase.Poll? && u < |c.tasks|
    requires Awaiting(c.tasks[c.phase.t], u) && c.tasks[u].state.Terminated?
    ensures Inv(Exec(c), g)
    ensures g.values[u].Some? && Exec(c).tasks[c.phase.t].env == c.tasks[c.phase.t].env + [g.values[u].value]
  {
    var t := c.phase.t;
    var task := c.tasks[t];
    assert CodeOk(task, t, g) && TaskOk(c, t, g) && TaskOk(c, u, g);
    var task' := task.(prog := task.prog.next, env := task.env + [g.values[u].value]);
    TargetsKeys(task.handles, g.values);
    BodyAdvances(c.tasks, t, task', c.main, g);
    BodyKeeps(c, g, task');
  }

  /** A spawn adds a ready task that nothing refers to yet. */
  lemma {:induction false} TaskAdded(c: Config, g: Ghosts, g': Ghosts, c': Config, child: Tcb)
    requires Inv(c, g) && |c.tasks| < MAX_TASKS && |c'.tasks| == |c.tasks| + 1
    requires CodeInv(c'.tasks, c'.main, g') && g.values <= g'.values
    requires c'.phase == c.phase
    requires c'.tasks[|c.tasks|] == child && child == NewTask(child.prog, child.env, child.handles)
    requires forall t :: 0 <= t < |c.tasks| ==>
               || c'.tasks[t] == c.tasks[t]
               || (&& c.phase.Poll? && c.phase.t == t && c.tasks[t].prog.Spawn? && c.tasks[t].leaf.Fresh?
                   && c'.tasks[t] == c.tasks[t].(prog := c'.tasks[t].prog, handles := c'.tasks[t].handles))
    ensures Inv(c', g')
  {
    forall t | 0 <= t < |c'.tasks|
      ensures TaskOk(c', t, g')
    {
      if t < |c.tasks| {
        assert TaskOk(c, t, g);
        if c'.tasks[t] == c.tasks[t] {
          SuspendedKept(c, c', t);
        }
      }
    }
  }

  lemma {:induction false} SpawnKeeps(c: Config, g: Ghosts) returns (g': Ghosts)
    requires Inv(c, g) && c.phase.Poll? && c.tasks[c.phase.t].prog.Spawn?
    ensures Inv(Exec(c), g') && g.values <= g'.values
  {
    if |c.tasks| >= MAX_TASKS {
      g' := g;
      PanicKeeps(c, g, TaskListFull);
    } else {
      g' := TaskSpawns(c.tasks, c.main, c.phase.t, g);
      assert TaskOk(c, c.phase.t, g);
      TaskAdded(c, g, g', Exec(c), Exec(c).tasks[|c.tasks|]);
    }
  }

  lemma {:induction false} PollKeeps(c: Config, g: Ghosts) returns (g': Ghosts)
    requires Inv(c, g) && c.phase.Poll?
    ensures Inv(Exec(c), g') && g.values <= g'.values
  {
    var t := c.phase.t;
    var task := c.tasks[t];
    assert CodeOk(task, t, g) && TaskOk(c, t, g);
    g' := g;
    match task.prog
    case Return(_) => ReturnKeeps(c, g);
    case Branch(_, _, _) => BranchKeeps(c, g);
    case Defer(_) =>
      if task.leaf.Yielded? {
        ResumeKeeps(c, g);
      } else {
        YieldKeeps(c, g);
      }
    case Delay(_, _) =>
      if task.leaf.Fired? {
        ResumeKeeps(c, g);
      } else if task.leaf.Waiting? {
        YieldKeeps(c, g);
      } else {
        ArmKeeps(c, g);
      }
    case Spawn(_, _, _, _) => g' := SpawnKeeps(c, g);
    case Await(h, _) =>
      var u := task.handles[h];
      if c.tasks[u].state.Terminated? {
        JoinReadyKeeps(c, g, u);
      } else {
        JoinPendingKeeps(c, g, u);
      }
    case Loop(_, _) => LoopKeeps(c, g);
  }

  /** Every step of the executor keeps the invariant. Values are only ever added. */
  lemma {:induction false} ExecKeeps(c: Config, g: Ghosts) returns (g': Ghosts)
    requires Inv(c, g)
    ensures Inv(Exec(c), g') && g.values <= g'.values
  {
    g' := g;
    match c.phase
    case Outside =>
    case Check => CheckKeeps(c, g);
    case Collect => CheckKeeps(c, g);
    case Round(_) => RoundKeeps(c, g);
    case Poll(_, _) => g' := PollKeeps(c, g);
    case Exit(_, _, _) => ExitKeeps(c, g);
    case Exited(_, _) => ExitedKeeps(c, g);
    case Waking(_, _) => WakingKeeps(c, g);
    case Panicked(_) =>
  }

  // ----- interrupts -----

  /** A store of READY by a waker that can still fire. */
  lemma {:induction false} WokenKeeps(c: Config, g: Ghosts, w: nat)
    requires Inv(c, g) && w < |c.tasks| && !c.tasks[w].state.Terminated?
    ensures Inv(c.(tasks := Wake(c.tasks, w)), g)
  {
    var c' := c.(tasks := Wake(c.tasks, w));
    SameCodeKept(c.tasks, c'.tasks, c.main, g);
    forall t | 0 <= t < |c.tasks|
      ensures TaskOk(c', t, g)
    {
      assert TaskOk(c, t, g);
      SuspendedKept(c, c', t);
    }
  }

  /** A delay ends. Its task is ready, or is in the middle of a poll. */
  lemma {:induction false} FiredKeeps(c: Config, g: Ghosts, t: nat, stored: bool)
    requires Inv(c, g) && t < |c.tasks| && c.tasks[t].prog.Delay?
    requires !c.tasks[t].state.Pending? || Polled(c.phase, t)
    ensures Inv(c.(tasks := c.tasks[t := c.tasks[t].(leaf := Fired(stored))]), g)
  {
    var c' := c.(tasks := c.tasks[t := c.tasks[t].(leaf := Fired(stored))]);
    SameCodeKept(c.tasks, c'.tasks, c.main, g);
    forall i | 0 <= i < |c.tasks|
      ensures TaskOk(c', i, g)
    {
      assert TaskOk(c, i, g);
      if i != t {
        SuspendedKept(c, c', i);
      }
    }
  }

  lemma {:induction false} SignalKeeps(c: Config, g: Ghosts, t: nat)
    requires Inv(c, g)
    ensures Inv(SignalStep(c, t), g)
  {
    if t < |c.tasks| && (c.tasks[t].leaf.Waiting? || c.tasks[t].leaf.Fired?) {
      assert TaskOk(c, t, g);
      var stored := c.tasks[t].leaf.stored;
      var c1 := c;
      if stored {
        WokenKeeps(c, g, t);
        c1 := c.(tasks := Wake(c.tasks, t));
      }
      FiredKeeps(c1, g, t, stored);
      assert SignalStep(c, t).tasks == c1.tasks[t := c1.tasks[t].(leaf := Fired(stored))];
    }
  }

  lemma {:induction false} FireKeeps(c: Config, g: Ghosts, u: nat)
    requires Inv(c, g)
    ensures Inv(FireStep(c, u), g)
  {
    if u < |c.tasks| && !c.tasks[u].state.Terminated? && c.tasks[u].waker.Some? {
      assert TaskOk(c, u, g);
      WokenKeeps(c, g, c.tasks[u].waker.value);
    }
  }

  lemma {:induction false} MainSpawnKeeps(c: Config, g: Ghosts, h: nat, body: Prog, env: seq<int>, moved: set<nat>)
    returns (g': Ghosts)
    requires Inv(c, g) && Legal(c, MainSpawn(h, body, env, moved))
    ensures Inv(MainSpawnStep(c, h, body, env, moved), g') && g.values <= g'.values
    ensures |c.tasks| < MAX_TASKS ==>
              && |g'.values| == |c.tasks| + 1
              && Evaluates(body, env, Restrict(c.main, moved), g.values, g'.values[|c.tasks|])
  {
    var c' := MainSpawnStep(c, h, body, env, moved);
    if |c.tasks| >= MAX_TASKS {
      g' := g;
      MainDrops(c.tasks, c.main, moved, g);
      forall t | 0 <= t < |c.tasks|
        ensures TaskOk(c', t, g)
      {
        assert TaskOk(c, t, g);
        SuspendedKept(c, c', t);
      }
    } else {
      g' := MainSpawns(c.tasks, c.main, h, body, env, moved, g);
      TaskAdded(c, g, g', c', c'.tasks[|c.tasks|]);
    }
  }

  lemma {:induction false} CallRunKeeps(c: Config, g: Ghosts)
    requires Inv(c, g) && c.phase.Outside?
    ensures Inv(c.(phase := Check), g)
  {
    forall t | 0 <= t < |c.tasks|
      ensures TaskOk(c.(phase := Check), t, g)
    {
      PhaseMoves(c, Check, g, t);
    }
  }

  /** Every step, of the executor or around it, keeps the invariant. */
  lemma {:induction false} ApplyKeeps(c: Config, a: Action, g: Ghosts) returns (g': Ghosts)
    requires Inv(c, g) && Legal(c, a)
    ensures Inv(Apply(c, a), g') && g.values <= g'.values
  {
    g' := g;
    match a
    case Execute => g' := ExecKeeps(c, g);
    case Signal(t) => SignalKeeps(c, g, t);
    case Fire(u) => FireKeeps(c, g, u);
    case MainSpawn(h, body, env, moved) => g' := MainSpawnKeeps(c, g, h, body, env, moved);
    case CallRun =>
      if c.phase.Outside? {
        CallRunKeeps(c, g);
      }
  }

  /** Every run keeps the invariant: any interleaving of the executor's steps, interrupts,
      and calls from outside. */
  lemma {:induction false} RunKeeps(c: Config, acts: seq<Action>, g: Ghosts) returns (g': Ghosts)
    requires Inv(c, g) && LegalRun(c, acts)
    ensures Inv(Run(c, acts), g') && g.values <= g'.values
    decreases |acts|
  {
    g' := g;
    if acts != [] {
      var g1 := ApplyKeeps(c, acts[0], g);
      g' := RunKeeps(Apply(c, acts[0]), acts[1..], g1);
    }
  }
}
