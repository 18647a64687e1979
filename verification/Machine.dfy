/** The executor and the join protocol as a machine of small steps: src/executor.rs and
    src/task.rs.

    Each step is one store or one critical section of the source, so that an interrupt may
    come between any two of them. A waker is the index of the task whose state flag it points
    to. */
module Machine {
  import opened Wrappers
  import opened Programs

  datatype TaskState = Pending | Ready | Terminated

  /** The innermost future a task is suspended in: a `Defer` that has yielded, or a delay
      that is armed or has expired, with or without a stored waker. */
  datatype Leaf = Fresh | Yielded | Waiting(stored: bool) | Fired(stored: bool)

  /** `TCB`: the state flag, the completion waker, the exit slot and the future. */
  datatype Tcb = Tcb(
    state: TaskState,
    waker: Option<nat>,
    exit: Option<int>,
    prog: Prog,
    leaf: Leaf,
    env: seq<int>,
    handles: map<nat, nat>)

  datatype Reason = SnapshotFull | TaskListFull | TimerFull | ZeroDelay | UnwrapNone

  /** Where `run` and `do_poll` are. A queue is what is left of the ready snapshot. */
  datatype Phase =
    | Outside                                   // run has returned, or was not called yet
    | Check                                     // before the all-terminated test
    | Collect                                   // before the ready snapshot
    | Round(queue: seq<nat>)                    // between polls
    | Poll(t: nat, queue: seq<nat>)             // inside the future of task t
    | Exit(t: nat, value: int, queue: seq<nat>) // the future of t has returned a value
    | Exited(t: nat, queue: seq<nat>)           // the exit slot is written
    | Waking(t: nat, queue: seq<nat>)           // the state is TERMINATED
    | Panicked(reason: Reason)

  /** The task list, the handles the caller of `run` holds, and the position of `run`. */
  datatype Config = Config(tasks: seq<Tcb>, main: map<nat, nat>, phase: Phase)

  /** Capacity of the task list. */
  const MAX_TASKS: nat := 64

  /** Capacity of the ready snapshot. */
  const MAX_READY: nat := 8

  /** Waiter slots of the timer. */
  const MAX_DELAYS: nat := 8

  /** The delay of the task is armed, or has expired unseen. */
  predicate Waits(task: Tcb) {
    task.leaf.Waiting? || task.leaf.Fired?
  }

  /** How many tasks hold a waiter slot. */
  function DelaysHeld(tasks: seq<Tcb>): nat {
    if tasks == [] then 0
    else
      var last := tasks[|tasks| - 1];
      DelaysHeld(tasks[..|tasks| - 1]) + if Waits(last) then 1 else 0
  }

  /** `TCB::new` */
  function NewTask(body: Prog, env: seq<int>, handles: map<nat, nat>): Tcb {
    Tcb(Ready, None, None, body, Fresh, env, handles)
  }

  // ----- the steps of run and do_poll -----

  predicate AllTerminated(tasks: seq<Tcb>) {
    forall t :: 0 <= t < |tasks| ==> tasks[t].state.Terminated?
  }

  /** The indices of the ready tasks below n, in order. */
  function ReadyBelow(tasks: seq<Tcb>, n: nat): seq<nat>
    requires n <= |tasks|
  {
    if n == 0 then []
    else ReadyBelow(tasks, n - 1) + (if tasks[n - 1].state.Ready? then [n - 1] else [])
  }

  /** `wake_by_ref`: an unconditional store of READY. */
  function Wake(tasks: seq<Tcb>, w: nat): seq<Tcb> {
    if w < |tasks| then tasks[w := tasks[w].(state := Ready)] else tasks
  }

  function WakeOption(tasks: seq<Tcb>, w: Option<nat>): seq<Tcb> {
    match w
    case None => tasks
    case Some(i) => Wake(tasks, i)
  }

  /** One step of `run`, of `do_poll`, or of the future being polled. The guards on indices
      only make the function total; in a reachable state they hold. */
  function Exec(c: Config): Config {
    match c.phase
    case Outside => c
    case Check => c.(phase := if AllTerminated(c.tasks) then Outside else Collect)
    case Collect =>
      var ready := ReadyBelow(c.tasks, |c.tasks|);
      c.(phase := if |ready| > MAX_READY then Panicked(SnapshotFull) else Round(ready))
    case Round(queue) =>
      if queue == [] then c.(phase := Check)
      else if queue[0] >= |c.tasks| then c
      else Config(c.tasks[queue[0] := c.tasks[queue[0]].(state := Pending)], c.main, Poll(queue[0], queue[1..]))
    case Poll(t, queue) => if t < |c.tasks| then PollStep(c, t, queue) else c
    case Exit(t, value, queue) =>
      if t < |c.tasks| then Config(c.tasks[t := c.tasks[t].(exit := Some(value))], c.main, Exited(t, queue)) else c
    case Exited(t, queue) =>
      if t < |c.tasks| then Config(c.tasks[t := c.tasks[t].(state := Terminated)], c.main, Waking(t, queue)) else c
    case Waking(t, queue) =>
      if t < |c.tasks| then Config(WakeOption(c.tasks, c.tasks[t].waker), c.main, Round(queue)) else c
    case Panicked(_) => c
  }

  /** One step inside the future of task t. `Poll::Pending` ends the poll. */
  function PollStep(c: Config, t: nat, queue: seq<nat>): Config
    requires t < |c.tasks|
  {
    var task := c.tasks[t];
    match task.prog
    case Return(f) => c.(phase := Exit(t, f(task.env), queue))
    case Branch(test, yes, no) => c.(tasks := c.tasks[t := task.(prog := if test(task.env) then yes else no)])
    case Defer(next) =>
      if task.leaf.Yielded? then c.(tasks := c.tasks[t := task.(prog := next, leaf := Fresh)])
      else Config(c.tasks[t := task.(leaf := Yielded, state := Ready)], c.main, Round(queue))
    case Delay(ms, next) =>
      (match task.leaf
       case Fired(_) => c.(tasks := c.tasks[t := task.(prog := next, leaf := Fresh)])
       case Waiting(_) => Config(c.tasks[t := task.(leaf := Waiting(true))], c.main, Round(queue))
       case _ =>
         if DelaysHeld(c.tasks) >= MAX_DELAYS then c.(phase := Panicked(TimerFull))
         else if ms == 0 then c.(phase := Panicked(ZeroDelay))
         else c.(tasks := c.tasks[t := task.(leaf := Waiting(false))]))
    case Spawn(h, child, moved, next) =>
      if |c.tasks| >= MAX_TASKS then c.(phase := Panicked(TaskListFull))
      else
        var parent := task.(prog := next, handles := Rebind(task.handles, moved, h, |c.tasks|));
        c.(tasks := c.tasks[t := parent] + [NewTask(child, task.env, Restrict(task.handles, moved))])
    case Await(h, next) =>
      if h !in task.handles || task.handles[h] >= |c.tasks| then c
      else PollJoin(c, t, queue, task.handles[h], next)
    case Loop(body, _) => c.(tasks := c.tasks[t := task.(prog := Then(body, task.prog))])
  }

  /** `JoinHandle::poll` on task u, awaited by task t. */
  function PollJoin(c: Config, t: nat, queue: seq<nat>, u: nat, next: Prog): Config
    requires t < |c.tasks| && u < |c.tasks|
  {
    if !c.tasks[u].state.Terminated? then
      Config(c.tasks[u := c.tasks[u].(waker := Some(t))], c.main, Round(queue))
    else
      match c.tasks[u].exit
      case None => c.(phase := Panicked(UnwrapNone))
      case Some(v) =>
        var task := c.tasks[t];
        c.(tasks := c.tasks[t := task.(prog := next, env := task.env + [v])])
  }

  // ----- what happens around the executor -----

  datatype Action =
    | Execute                                                              // the executor's own next step
    | Signal(t: nat)                                                       // an interrupt ends the delay of t
    | Fire(u: nat)                                                         // an interrupt fires a stored join waker
    | MainSpawn(handle: nat, body: Prog, env: seq<int>, moved: set<nat>)   // spawn outside any task
    | CallRun                                                              // run is called

  /** A signal marks the delay as expired, and fires the waker stored with it. It may come
      again before the task is polled. */
  function SignalStep(c: Config, t: nat): Config {
    if t < |c.tasks| && (c.tasks[t].leaf.Waiting? || c.tasks[t].leaf.Fired?) then
      var stored := c.tasks[t].leaf.stored;
      var task := c.tasks[t].(leaf := Fired(stored));
      c.(tasks := c.tasks[t := if stored then task.(state := Ready) else task])
    else c
  }

  /** A waker stored with a running task may be fired early, however often. */
  function FireStep(c: Config, u: nat): Config {
    if u < |c.tasks| && !c.tasks[u].state.Terminated? then c.(tasks := WakeOption(c.tasks, c.tasks[u].waker)) else c
  }

  /** `spawn` called from outside; a full list drops the body and the handles moved into it. */
  function MainSpawnStep(c: Config, h: nat, body: Prog, env: seq<int>, moved: set<nat>): Config {
    if |c.tasks| >= MAX_TASKS then c.(main := c.main - moved)
    else
      Config(c.tasks + [NewTask(body, env, Restrict(c.main, moved))],
             Rebind(c.main, moved, h, |c.tasks|), c.phase)
  }

  function Apply(c: Config, a: Action): Config {
    match a
    case Execute => Exec(c)
    case Signal(t) => SignalStep(c, t)
    case Fire(u) => FireStep(c, u)
    case MainSpawn(h, body, env, moved) => MainSpawnStep(c, h, body, env, moved)
    case CallRun => if c.phase.Outside? then c.(phase := Check) else c
  }

  /** Spawning from outside happens while `run` is not running, with handles that are held. */
  ghost predicate Legal(c: Config, a: Action) {
    a.MainSpawn? ==> c.phase.Outside? && a.moved <= c.main.Keys && Linear(a.body, a.moved)
  }

  function Run(c: Config, acts: seq<Action>): Config
    decreases |acts|
  {
    if acts == [] then c else Run(Apply(c, acts[0]), acts[1..])
  }

  ghost predicate LegalRun(c: Config, acts: seq<Action>)
    decreases |acts|
  {
    acts == [] || (Legal(c, acts[0]) && LegalRun(Apply(c, acts[0]), acts[1..]))
  }

  /** A fresh executor. */
  const START: Config := Config([], map[], Outside)
}
