/** What the invariant of the machine gives: values, finality, wake-ups, fairness, freedom
    from deadlock, and termination. */
module Progress {
  import opened Wrappers
  import opened Programs
  import opened Machine
  import opened Ownership
  import opened Protocol

  // ----- runs in pieces -----

  lemma {:induction false} RunAppend(c: Config, xs: seq<Action>, ys: seq<Action>)
    ensures Run(c, xs + ys) == Run(Run(c, xs), ys)
    ensures LegalRun(c, xs + ys) <==> LegalRun(c, xs) && LegalRun(Run(c, xs), ys)
    decreases |xs|
  {
    if xs == [] {
      assert xs + ys == ys;
    } else {
      assert (xs + ys)[1..] == xs[1..] + ys;
      RunAppend(Apply(c, xs[0]), xs[1..], ys);
    }
  }

  lemma {:induction false} RunOne(c: Config, a: Action)
    ensures Run(c, [a]) == Apply(c, a) && (LegalRun(c, [a]) <==> Legal(c, a))
  {
    assert [a][1..] == [] && Run(Apply(c, a), []) == Apply(c, a) && LegalRun(Apply(c, a), []);
  }

  /** Every configuration that a legal run from a fresh executor reaches is in the invariant. */
  lemma {:induction false} Reachable(acts: seq<Action>) returns (g: Ghosts)
    requires LegalRun(START, acts)
    ensures Inv(Run(START, acts), g)
  {
    StartInv();
    g := RunKeeps(START, acts, Ghosts([], []));
  }

  // ----- values -----

  /** The exit values of the tasks behind some handles. */
  ghost function ExitValues(c: Config, handles: map<nat, nat>): map<nat, Option<int>> {
    map h | h in handles && handles[h] < |c.tasks| :: c.tasks[handles[h]].exit
  }

  ghost predicate AllExited(c: Config, handles: map<nat, nat>) {
    forall h :: h in handles ==> handles[h] < |c.tasks| && c.tasks[handles[h]].state.Terminated?
  }

  /** Once task t and the tasks behind the handles it was given have terminated, its exit value
      is the value of its body by direct evaluation. */
  ghost predicate ComesTo(c: Config, t: nat, body: Prog, env: seq<int>, given: map<nat, nat>) {
    && t < |c.tasks|
    && (c.tasks[t].state.Terminated? && AllExited(c, given) ==>
          && Linear(body, ExitValues(c, given).Keys)
          && c.tasks[t].exit.Some? && c.tasks[t].exit == Eval(body, env, ExitValues(c, given)))
  }

  /** In c', task t comes to what evaluating the rest of its body in c directly gives. */
  ghost predicate Means(c: Config, c': Config, t: nat) {
    t < |c.tasks| ==> ComesTo(c', t, c.tasks[t].prog, c.tasks[t].env, c.tasks[t].handles)
  }

  /** Values recorded at one point are in the exit slots of the tasks that end later. */
  lemma {:induction false} ExitMeaning(c: Config, g: Ghosts, c': Config, g': Ghosts, t: nat)
    requires Inv(c, g) && Inv(c', g') && g.values <= g'.values
    ensures Means(c, c', t)
  {
    if t < |c.tasks| && c'.tasks[t].state.Terminated? && AllExited(c', c.tasks[t].handles) {
      var task := c.tasks[t];
      assert CodeOk(task, t, g) && TaskOk(c', t, g');
      forall h | h in task.handles
        ensures c'.tasks[task.handles[h]].exit == g.values[task.handles[h]]
      {
        assert TaskOk(c', task.handles[h], g');
      }
      assert ExitValues(c', task.handles) == Targets(task.handles, g.values);
    }
  }

  /** The executor preserves meaning. Stop any run anywhere, and let it go on with any
      interrupts: every task there is, wherever it was spawned, comes to the value that
      evaluating the rest of its body directly gives. */
  lemma {:induction false} TaskMeaning(before: seq<Action>, after: seq<Action>, t: nat)
    requires LegalRun(START, before + after)
    ensures Means(Run(START, before), Run(START, before + after), t)
  {
    RunAppend(START, before, after);
    var c := Run(START, before);
    var g := Reachable(before);
    var g' := RunKeeps(c, after, g);
    ExitMeaning(c, g, Run(c, after), g', t);
  }

  /** A task spawned from outside, with the handles it was given, comes to the value of its
      body. */
  lemma {:induction false} SpawnMeaning(
    before: seq<Action>, h: nat, body: Prog, env: seq<int>, moved: set<nat>, after: seq<Action>)
    requires LegalRun(START, before + [MainSpawn(h, body, env, moved)] + after)
    requires |Run(START, before).tasks| < MAX_TASKS
    ensures var c0 := Run(START, before);
            var c := Run(START, before + [MainSpawn(h, body, env, moved)] + after);
            ComesTo(c, |c0.tasks|, body, env, Restrict(c0.main, moved))
  {
    var c0, spawn := Run(START, before), MainSpawn(h, body, env, moved);
    OneMoreAction(before, spawn, after);
    TaskMeaning(before + [spawn], after, |c0.tasks|);
  }

  /** A task spawned by another task, awaited or not, with the handles moved into it and a copy
      of its parent's variables, comes to the value of its body. */
  lemma {:induction false} ChildMeaning(before: seq<Action>, after: seq<Action>)
    requires LegalRun(START, before + [Execute] + after)
    requires var c0 := Run(START, before);
             && |c0.tasks| < MAX_TASKS
             && c0.phase.Poll? && c0.phase.t < |c0.tasks| && c0.tasks[c0.phase.t].prog.Spawn?
    ensures var c0 := Run(START, before);
            var c := Run(START, before + [Execute] + after);
            var parent := c0.tasks[c0.phase.t];
            ComesTo(c, |c0.tasks|, parent.prog.child, parent.env, Restrict(parent.handles, parent.prog.moved))
  {
    var c0 := Run(START, before);
    OneMoreAction(before, Execute, after);
    TaskMeaning(before + [Execute], after, |c0.tasks|);
  }

  /** A run up to an action, the action, and the run from there. */
  lemma {:induction false} OneMoreAction(before: seq<Action>, a: Action, after: seq<Action>)
    requires LegalRun(START, before + [a] + after)
    ensures LegalRun(START, before + [a]) && Run(START, before + [a]) == Apply(Run(START, before), a)
  {
    RunAppend(START, before + [a], after);
    RunAppend(START, before, [a]);
    RunOne(Run(START, before), a);
  }

  /** A task that has come to a loop never ends, and nor does one that awaits it: no run
      terminates a task whose body has no value. */
  lemma {:induction false} LoopNeverEnds(before: seq<Action>, after: seq<Action>, t: nat)
    requires LegalRun(START, before + after) && t < |Run(START, before).tasks|
    requires var c := Run(START, before);
             || c.tasks[t].prog.Loop?
             || exists u: nat :: u < |c.tasks| && Awaiting(c.tasks[t], u) && c.tasks[u].prog.Loop?
    ensures t < |Run(START, before + after).tasks| && !Run(START, before + after).tasks[t].state.Terminated?
  {
    RunAppend(START, before, after);
    var c := Run(START, before);
    var g := Reachable(before);
    var g' := RunKeeps(c, after, g);
    assert CodeOk(c.tasks[t], t, g);
    if !c.tasks[t].prog.Loop? {
      var u: nat :| u < |c.tasks| && Awaiting(c.tasks[t], u) && c.tasks[u].prog.Loop?;
      assert CodeOk(c.tasks[u], u, g);
    }
    assert TaskOk(Run(c, after), t, g');
  }

  /** `join` and `.await` never unwrap an empty slot: a handle held outside, of a task that
      has terminated, finds a value; and no run gets to that panic. */
  lemma {:induction false} JoinFindsValue(acts: seq<Action>, h: nat)
    requires LegalRun(START, acts)
    ensures var c := Run(START, acts);
            && c.phase != Panicked(UnwrapNone)
            && (h in c.main ==> c.main[h] < |c.tasks|)
            && (h in c.main && c.tasks[c.main[h]].state.Terminated? ==> c.tasks[c.main[h]].exit.Some?)
  {
    var g := Reachable(acts);
    var c := Run(START, acts);
    if h in c.main {
      assert TaskOk(c, c.main[h], g);
    }
  }

  // ----- finality -----

  /** A terminated task never changes again, although wakers store READY unconditionally. */
  lemma {:induction false} TerminatedFrozen(c: Config, a: Action, g: Ghosts, t: nat)
    requires Inv(c, g) && t < |c.tasks| && c.tasks[t].state.Terminated?
    ensures t < |Apply(c, a).tasks| && Apply(c, a).tasks[t] == c.tasks[t]
  {
    assert TaskOk(c, t, g);
    match a
    case Execute => ExecFrozen(c, g, t);
    case Signal(_) =>
    case Fire(u) =>
      if u < |c.tasks| {
        assert TaskOk(c, u, g);
      }
    case MainSpawn(_, _, _, _) =>
    case CallRun =>
  }

  lemma {:induction false} ExecFrozen(c: Config, g: Ghosts, t: nat)
    requires Inv(c, g) && t < |c.tasks| && c.tasks[t].state.Terminated?
    ensures t < |Exec(c).tasks| && Exec(c).tasks[t] == c.tasks[t]
  {
    assert TaskOk(c, t, g);
    if c.phase.Waking? {
      assert TaskOk(c, c.phase.t, g);
    } else if c.phase.Poll? {
      assert CodeOk(c.tasks[c.phase.t], c.phase.t, g);
    }
  }

  lemma {:induction false} TerminationFinal(c: Config, acts: seq<Action>, g: Ghosts, t: nat)
    requires Inv(c, g) && LegalRun(c, acts) && t < |c.tasks| && c.tasks[t].state.Terminated?
    ensures t < |Run(c, acts).tasks| && Run(c, acts).tasks[t] == c.tasks[t]
    decreases |acts|
  {
    if acts != [] {
      TerminatedFrozen(c, acts[0], g, t);
      var g1 := ApplyKeeps(c, acts[0], g);
      TerminationFinal(Apply(c, acts[0]), acts[1..], g1, t);
    }
  }

  /** The exit slot is written once: a value in it stays. */
  lemma {:induction false} ExitWrittenOnce(c: Config, a: Action, g: Ghosts, t: nat)
    requires Inv(c, g) && t < |c.tasks| && c.tasks[t].exit.Some?
    ensures t < |Apply(c, a).tasks| && Apply(c, a).tasks[t].exit == c.tasks[t].exit
  {
    assert TaskOk(c, t, g);
    if c.tasks[t].state.Terminated? {
      TerminatedFrozen(c, a, g, t);
    } else if a.Fire? && a.u < |c.tasks| {
      assert TaskOk(c, a.u, g);
    }
  }

  // ----- wake-ups and rounds -----

  /** The next step polls task t. */
  predicate Polls(c: Config, a: Action, t: nat) {
    a.Execute? && c.phase.Round? && c.phase.queue != [] && c.phase.queue[0] == t
  }

  /** A ready task stays ready until it is polled, or until the poll it is in ends it. */
  lemma {:induction false} ReadyUntilPolled(c: Config, a: Action, g: Ghosts, t: nat)
    requires Inv(c, g) && t < |c.tasks| && c.tasks[t].state.Ready? && !Polls(c, a, t)
    ensures t < |Apply(c, a).tasks|
    ensures Apply(c, a).tasks[t].state.Ready?
            || (c.phase.Exited? && c.phase.t == t && Apply(c, a).tasks[t].state.Terminated?)
  {
    if a.Execute? && c.phase.Poll? {
      ReadyInPoll(c, g, t);
    } else if a.Execute? {
      ReadyBetween(c, g, t);
    }
  }

  lemma {:induction false} ReadyInPoll(c: Config, g: Ghosts, t: nat)
    requires Inv(c, g) && t < |c.tasks| && c.tasks[t].state.Ready? && c.phase.Poll?
    ensures t < |Exec(c).tasks| && Exec(c).tasks[t].state.Ready?
  {
    assert CodeOk(c.tasks[c.phase.t], c.phase.t, g);
  }

  lemma {:induction false} ReadyBetween(c: Config, g: Ghosts, t: nat)
    requires Inv(c, g) && t < |c.tasks| && c.tasks[t].state.Ready? && !c.phase.Poll? && !Polls(c, Execute, t)
    ensures t < |Exec(c).tasks|
    ensures Exec(c).tasks[t].state.Ready?
            || (c.phase.Exited? && c.phase.t == t && Exec(c).tasks[t].state.Terminated?)
  {
  }

  /** No wake-up is lost: in every reachable configuration a pending task that is not in the
      middle of a poll waits for a task that will fire its waker, or for an interrupt that
      holds its waker. */
  lemma {:induction false} NoLostWake(acts: seq<Action>, t: nat)
    requires LegalRun(START, acts) && t < |Run(START, acts).tasks|
    ensures var c := Run(START, acts);
            c.tasks[t].state.Pending? && !Polled(c.phase, t) ==> Suspended(c, t)
  {
    var g := Reachable(acts);
    assert TaskOk(Run(START, acts), t, g);
  }

  /** A signal is never lost, at whatever point of a poll it comes: it leaves the task ready,
      or the poll that is under way sees it and goes on. */
  lemma {:induction false} SignalSeen(c: Config, g: Ghosts, t: nat)
    requires Inv(c, g) && t < |c.tasks| && c.tasks[t].leaf.Waiting? && !c.phase.Panicked?
    ensures var c' := SignalStep(c, t);
            || c'.tasks[t].state.Ready?
            || (&& c.phase.Poll? && c.phase.t == t && c.tasks[t].prog.Delay?
                && Exec(c').tasks[t].prog == c.tasks[t].prog.next)
  {
    assert TaskOk(c, t, g);
  }

  /** The last step of a poll that ends a task makes its waiter ready. */
  lemma {:induction false} WaiterWoken(c: Config, g: Ghosts, t: nat)
    requires Inv(c, g) && c.phase.Waking? && t < |c.tasks|
    requires c.tasks[t].state.Pending? && Awaiting(c.tasks[t], c.phase.t)
    ensures Exec(c).tasks[t].state.Ready?
  {
    assert TaskOk(c, t, g);
    var u :| 0 <= u < |c.tasks| && Awaiting(c.tasks[t], u) && CanWake(c, u) && c.tasks[u].waker == Some(t);
  }

  // ----- rounds -----

  /** The tasks polled during a run, in order. */
  function PollLog(c: Config, acts: seq<Action>): seq<nat>
    decreases |acts|
  {
    if acts == [] then []
    else
      PolledBy(c, acts[0]) + PollLog(Apply(c, acts[0]), acts[1..])
  }

  /** How many snapshots a run takes. */
  function Snapshots(c: Config, acts: seq<Action>): nat
    decreases |acts|
  {
    if acts == [] then 0
    else (if acts[0].Execute? && c.phase.Collect? then 1 else 0) + Snapshots(Apply(c, acts[0]), acts[1..])
  }

  /** What is left to poll of the current snapshot. */
  function Queue(phase: Phase): seq<nat> {
    match phase
    case Round(q) => q
    case Poll(_, q) => q
    case Exit(_, _, q) => q
    case Exited(_, q) => q
    case Waking(_, q) => q
    case _ => []
  }

  /** The tasks that the next step polls: one or none. */
  function PolledBy(c: Config, a: Action): seq<nat> {
    if a.Execute? && c.phase.Round? && c.phase.queue != [] then [c.phase.queue[0]] else []
  }

  lemma {:induction false} QueueStep(c: Config, a: Action, g: Ghosts)
    requires Inv(c, g) && !(a.Execute? && c.phase.Collect?)
    ensures Apply(c, a).phase.Panicked? || Queue(c.phase) == PolledBy(c, a) + Queue(Apply(c, a).phase)
  {
    if a.Execute? {
      ExecQueue(c, g);
    } else {
      OtherPhase(c, a);
    }
  }

  /** What is not a step of the executor moves it only when it calls `run`. */
  lemma {:induction false} OtherPhase(c: Config, a: Action)
    requires !a.Execute?
    ensures Apply(c, a).phase == c.phase || (c.phase.Outside? && Apply(c, a).phase.Check?)
  {
  }

  lemma {:induction false} ExecQueue(c: Config, g: Ghosts)
    requires Inv(c, g) && !c.phase.Collect?
    ensures Exec(c).phase.Panicked? || Queue(c.phase) == PolledBy(c, Execute) + Queue(Exec(c).phase)
  {
    if c.phase.Poll? {
      PollQueue(c, g);
    } else if c.phase.Round? {
      RoundQueue(c, g);
    } else {
      OtherQueue(c, g);
    }
  }

  lemma {:induction false} RoundQueue(c: Config, g: Ghosts)
    requires Inv(c, g) && c.phase.Round?
    ensures Queue(c.phase) == PolledBy(c, Execute) + Queue(Exec(c).phase)
  {
    var queue := c.phase.queue;
    assert queue != [] ==> queue == [queue[0]] + queue[1..];
  }

  lemma {:induction false} OtherQueue(c: Config, g: Ghosts)
    requires Inv(c, g) && !c.phase.Collect? && !c.phase.Poll? && !c.phase.Round?
    ensures Exec(c).phase.Panicked? || Queue(c.phase) == Queue(Exec(c).phase)
  {
  }

  lemma {:induction false} PollQueue(c: Config, g: Ghosts)
    requires Inv(c, g) && c.phase.Poll?
    ensures Exec(c).phase.Panicked?
            || (Queue(Exec(c).phase) == c.phase.queue && !Exec(c).phase.Check? && !Exec(c).phase.Collect?)
  {
    assert CodeOk(c.tasks[c.phase.t], c.phase.t, g);
  }

  lemma {:induction false} PanicStays(c: Config, acts: seq<Action>)
    requires c.phase.Panicked?
    ensures Run(c, acts).phase.Panicked? && Snapshots(c, acts) == 0
    decreases |acts|
  {
    if acts != [] {
      PanicStays(Apply(c, acts[0]), acts[1..]);
    }
  }

  /** Until the next snapshot, exactly the queue is polled, in its order and once each: tasks
      that are spawned or woken meanwhile are not. */
  lemma {:induction false} PollsTheQueue(c: Config, acts: seq<Action>, g: Ghosts)
    requires Inv(c, g) && LegalRun(c, acts) && Snapshots(c, acts) == 0 && !Run(c, acts).phase.Panicked?
    ensures PollLog(c, acts) + Queue(Run(c, acts).phase) == Queue(c.phase)
    decreases |acts|
  {
    if acts != [] {
      var c1 := Apply(c, acts[0]);
      if c1.phase.Panicked? {
        PanicStays(c1, acts[1..]);
      } else {
        QueueStep(c, acts[0], g);
        var g1 := ApplyKeeps(c, acts[0], g);
        PollsTheQueue(c1, acts[1..], g1);
      }
    }
  }

  /** A round polls exactly the tasks that were ready at its snapshot, each once, in the order
      they were spawned (`Protocol.ReadyBelowExact`), whatever is spawned or woken while it
      goes on. */
  lemma {:induction false} RoundPollsReady(c: Config, acts: seq<Action>, g: Ghosts)
    requires Inv(c, g) && LegalRun(c, acts) && c.phase.Collect?
    requires acts != [] && acts[0].Execute? && Snapshots(c, acts) == 1 && Run(c, acts).phase.Check?
    ensures PollLog(c, acts) == ReadyBelow(c.tasks, |c.tasks|)
  {
    var c1 := Exec(c);
    if c1.phase.Panicked? {
      PanicStays(c1, acts[1..]);
    }
    var g1 := ApplyKeeps(c, acts[0], g);
    PollsTheQueue(c1, acts[1..], g1);
  }

  lemma {:induction false} QueuedIsPolled(c: Config, acts: seq<Action>, g: Ghosts, t: nat)
    requires Inv(c, g) && LegalRun(c, acts) && t in Queue(c.phase) && Snapshots(c, acts) >= 1
    ensures t in PollLog(c, acts)
    decreases |acts|
  {
    var c1 := Apply(c, acts[0]);
    QueueStep(c, acts[0], g);
    if c1.phase.Panicked? {
      PanicStays(c1, acts[1..]);
    }
    if t in Queue(c1.phase) {
      var g1 := ApplyKeeps(c, acts[0], g);
      QueuedIsPolled(c1, acts[1..], g1, t);
    }
  }

  /** Fairness: a ready task that is not in the middle of a poll is polled before the second
      snapshot from now. */
  lemma {:induction false} WaitsOneRound(c: Config, acts: seq<Action>, g: Ghosts, t: nat)
    requires Inv(c, g) && LegalRun(c, acts) && Snapshots(c, acts) >= 2
    requires t < |c.tasks| && c.tasks[t].state.Ready? && !Polled(c.phase, t)
    ensures t in PollLog(c, acts)
    decreases |acts|
  {
    var a, c1 := acts[0], Apply(c, acts[0]);
    if !Polls(c, a, t) {
      var g1 := ApplyKeeps(c, a, g);
      if c1.phase.Panicked? {
        PanicStays(c1, acts[1..]);
      }
      ReadyUntilPolled(c, a, g, t);
      if a.Execute? && c.phase.Collect? {
        ReadyBelowExact(c.tasks, |c.tasks|);
        QueuedIsPolled(c1, acts[1..], g1, t);
      } else {
        NotPolledYet(c, a, g, t);
        WaitsOneRound(c1, acts[1..], g1, t);
      }
    }
  }

  /** Only the step that polls a task puts it in the middle of a poll. */
  lemma {:induction false} NotPolledYet(c: Config, a: Action, g: Ghosts, t: nat)
    requires Inv(c, g) && !Polled(c.phase, t) && !Polls(c, a, t)
    ensures Apply(c, a).phase.Panicked? || !Polled(Apply(c, a).phase, t)
  {
    if !a.Execute? {
      OtherPhase(c, a);
    } else if c.phase.Poll? {
      PollStays(c, g);
    }
  }

  lemma {:induction false} PollStays(c: Config, g: Ghosts)
    requires Inv(c, g) && c.phase.Poll?
    ensures var p := Exec(c).phase; p.Panicked? || p.Round? || ((p.Poll? || p.Exit?) && p.t == c.phase.t)
  {
    assert CodeOk(c.tasks[c.phase.t], c.phase.t, g);
  }

  /** `defer` gives up exactly one round: the task is not polled again in what is left of this
      round, and is polled in the next. */
  lemma {:induction false} DeferOneRound(c: Config, acts: seq<Action>, g: Ghosts)
    requires Inv(c, g) && c.phase.Poll? && c.tasks[c.phase.t].prog.Defer? && !c.tasks[c.phase.t].leaf.Yielded?
    requires LegalRun(Exec(c), acts)
    ensures Snapshots(Exec(c), acts) == 0 && !Run(Exec(c), acts).phase.Panicked? ==>
            c.phase.t !in PollLog(Exec(c), acts)
    ensures Snapshots(Exec(c), acts) >= 2 ==> c.phase.t in PollLog(Exec(c), acts)
  {
    var t := c.phase.t;
    var c1 := Deferred(c, g);
    if Snapshots(c1, acts) >= 2 {
      WaitsOneRound(c1, acts, g, t);
    } else if Snapshots(c1, acts) == 0 && !Run(c1, acts).phase.Panicked? {
      NotThisRound(c1, acts, g, t);
    }
  }

  /** The configuration after a defer: the task is ready, and not in the queue. */
  lemma {:induction false} Deferred(c: Config, g: Ghosts) returns (c1: Config)
    requires Inv(c, g) && c.phase.Poll? && c.tasks[c.phase.t].prog.Defer? && !c.tasks[c.phase.t].leaf.Yielded?
    ensures c1 == Exec(c) && Inv(c1, g) && c1.phase == Round(c.phase.queue) && c.phase.t !in c.phase.queue
    ensures |c1.tasks| == |c.tasks| && c1.tasks[c.phase.t].state.Ready?
  {
    YieldKeeps(c, g);
    c1 := Exec(c);
  }

  lemma {:induction false} NotThisRound(c: Config, acts: seq<Action>, g: Ghosts, t: nat)
    requires Inv(c, g) && LegalRun(c, acts) && t !in Queue(c.phase)
    requires Snapshots(c, acts) == 0 && !Run(c, acts).phase.Panicked?
    ensures t !in PollLog(c, acts)
  {
    PollsTheQueue(c, acts, g);
    assert t !in PollLog(c, acts) + Queue(Run(c, acts).phase);
  }

  // ----- freedom from deadlock -----

  /** The running task of the highest rank among the first n. */
  lemma {:induction false} HighestRunning(tasks: seq<Tcb>, ranks: seq<real>, n: nat) returns (t: nat)
    requires n <= |tasks| == |ranks|
    requires exists i :: 0 <= i < n && !tasks[i].state.Terminated?
    ensures t < n && !tasks[t].state.Terminated?
    ensures forall i :: 0 <= i < n && !tasks[i].state.Terminated? ==> ranks[i] <= ranks[t]
  {
    if exists i :: 0 <= i < n - 1 && !tasks[i].state.Terminated? {
      t := HighestRunning(tasks, ranks, n - 1);
      if !tasks[n - 1].state.Terminated? && ranks[n - 1] > ranks[t] {
        t := n - 1;
      }
    } else {
      t := n - 1;
    }
  }

  /** Something can still happen to a task: it is ready, or an interrupt holds its waker. */
  ghost predicate CanGoOn(task: Tcb) {
    task.state.Ready? || (task.prog.Delay? && task.leaf == Waiting(true))
  }

  /** No deadlock: between polls, as long as some task runs, some task is ready or waits for
      an interrupt. A running task of the highest rank cannot wait for another one, because
      what it waits for it holds, and so ranks higher. */
  lemma {:induction false} NoDeadlock(c: Config, g: Ghosts)
    requires Inv(c, g) && (c.phase.Outside? || c.phase.Check? || c.phase.Collect? || c.phase.Round?)
    requires !AllTerminated(c.tasks)
    ensures exists t :: 0 <= t < |c.tasks| && CanGoOn(c.tasks[t])
  {
    var t := HighestRunning(c.tasks, g.ranks, |c.tasks|);
    assert TaskOk(c, t, g) && CodeOk(c.tasks[t], t, g);
    forall u | 0 <= u < |c.tasks| && Awaiting(c.tasks[t], u)
      ensures c.tasks[u].state.Terminated?
    {
      assert g.ranks[t] < g.ranks[u];
    }
    assert CanGoOn(c.tasks[t]);
  }

  /** No run, with whatever interrupts, gets to a deadlock. */
  lemma {:induction false} NeverDeadlocked(acts: seq<Action>)
    requires LegalRun(START, acts)
    ensures var c := Run(START, acts);
            (c.phase.Outside? || c.phase.Check? || c.phase.Collect? || c.phase.Round?) && !AllTerminated(c.tasks) ==>
              exists t :: 0 <= t < |c.tasks| && CanGoOn(c.tasks[t])
  {
    var g := Reachable(acts);
    var c := Run(START, acts);
    if (c.phase.Outside? || c.phase.Check? || c.phase.Collect? || c.phase.Round?) && !AllTerminated(c.tasks) {
      NoDeadlock(c, g);
    }
  }

  /** Every body has only the given delays, and loops only if they are allowed. */
  ghost predicate AllWithin(c: Config, loops: bool, delays: Lengths) {
    forall t :: 0 <= t < |c.tasks| ==> Within(c.tasks[t].prog, loops, delays)
  }

  /** What is left of such bodies is such a body. */
  lemma {:induction false} WithinKept(c: Config, loops: bool, delays: Lengths)
    requires AllWithin(c, loops, delays)
    ensures AllWithin(Exec(c), loops, delays)
  {
    if c.phase.Poll? && c.phase.t < |c.tasks| {
      PollWithin(c, c.phase.t, c.phase.queue, loops, delays);
    } else {
      assert forall t :: 0 <= t < |c.tasks| ==> Within(c.tasks[t].prog, loops, delays);
    }
  }

  lemma {:induction false} PollWithin(c: Config, t: nat, queue: seq<nat>, loops: bool, delays: Lengths)
    requires t < |c.tasks| && AllWithin(c, loops, delays)
    ensures AllWithin(PollStep(c, t, queue), loops, delays)
  {
    var p := c.tasks[t].prog;
    assert Within(p, loops, delays);
    if p.Loop? {
      ThenWithin(p.body, p, loops, delays);
    } else {
      assert forall i :: 0 <= i < |c.tasks| ==> Within(c.tasks[i].prog, loops, delays);
    }
  }

  /** No delay anywhere: nothing outside the executor is waited for. */
  ghost predicate ClosedConfig(c: Config) {
    AllWithin(c, true, NoDelay)
  }

  /** In a closed system `run` never takes an empty snapshot. */
  lemma {:induction false} SnapshotNotEmpty(c: Config, g: Ghosts)
    requires Inv(c, g) && ClosedConfig(c) && c.phase.Collect? && !AllTerminated(c.tasks)
    ensures ReadyBelow(c.tasks, |c.tasks|) != []
  {
    NoDeadlock(c, g);
    var t :| 0 <= t < |c.tasks| && CanGoOn(c.tasks[t]);
    assert Within(c.tasks[t].prog, true, NoDelay);
    ReadyBelowExact(c.tasks, |c.tasks|);
    assert t in ReadyBelow(c.tasks, |c.tasks|);
  }
}
