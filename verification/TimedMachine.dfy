/** The executor with its timer: the machine of `Machine.dfy`, in which delays are armed,
    polled and ended by the timer of `DelayRuns.dfy`.

    Here a delay goes on exactly when the timer says so, and the only interrupt that ends
    delays is a tick: the timer runs out, and the wakers it fires are stored as READY. The
    results say that the machine's free signals describe this faithfully. */
module TimedMachine {
  import opened Wrappers
  import opened Programs
  import AsyncTimers
  import DelayRuns
  import Machine
  import Ownership
  import Protocol
  import Progress

  /** `owners` gives the task that each delay belongs to. The timer itself panics, and with it
      everything stops, when it is armed with a duration that is too long. */
  datatype System = System(config: Machine.Config, world: DelayRuns.World, owners: seq<nat>, panicked: bool)

  datatype Event = Act(action: Machine.Action) | Tick

  const BEGIN: System := System(Machine.START, DelayRuns.NOTHING, [], false)

  /** Delay `id` is under way, and belongs to task t. */
  ghost predicate Uses(s: System, id: nat, t: nat) {
    id < |s.owners| && DelayRuns.Unfinished(s.world, id) && s.owners[id] == t
  }

  /** What the timer knows of a delay under way. */
  ghost function LeafOf(w: DelayRuns.World, id: nat): Machine.Leaf {
    if !DelayRuns.Unfinished(w, id) || !DelayRuns.Holds(w, id) then Machine.Fresh
    else if DelayRuns.TimeLeft(w, id) == 0 then Machine.Fired(w.delays[id].last.Some?)
    else Machine.Waiting(w.delays[id].last.Some?)
  }

  // ----- steps -----

  /** The polled task is at a delay. */
  predicate AtDelay(c: Machine.Config) {
    c.phase.Poll? && c.phase.t < |c.tasks| && c.tasks[c.phase.t].prog.Delay?
  }

  /** `delay(ms).await` in the polled task: the first time the delay is scheduled, and from then
      on the timer is asked. */
  ghost function DelayStep(s: System): System
    requires AtDelay(s.config)
  {
    var c, t := s.config, s.config.phase.t;
    var task := c.tasks[t];
    if exists id: nat :: Uses(s, id, t) then
      var id: nat :| Uses(s, id, t);
      var w := DelayRuns.PollDelay(s.world, id, t);
      if w.delays[id].over then
        System(c.(tasks := c.tasks[t := task.(prog := task.prog.next, leaf := Machine.Fresh)]), w, s.owners, false)
      else
        var tasks := c.tasks[t := task.(leaf := LeafOf(w, id))];
        System(Machine.Config(tasks, c.main, Machine.Round(c.phase.queue)), w, s.owners, false)
    else
      match DelayRuns.Apply(s.world, DelayRuns.Schedule(task.prog.ms))
      case Err(SlotsTaken) => s.(config := c.(phase := Machine.Panicked(Machine.TimerFull)))
      case Err(NoRate) =>
        if task.prog.ms > 0 then s.(panicked := true)
        else s.(config := c.(phase := Machine.Panicked(Machine.ZeroDelay)))
      case Ok(w) =>
        System(c.(tasks := c.tasks[t := task.(leaf := LeafOf(w, |s.world.delays|))]), w, s.owners + [t], false)
  }

  function WakeAll(tasks: seq<Machine.Tcb>, wakers: seq<nat>): seq<Machine.Tcb> {
    if wakers == [] then tasks
    else Machine.Wake(WakeAll(tasks, wakers[..|wakers| - 1]), wakers[|wakers| - 1])
  }

  /** The task, with what the timer knows of its delay. */
  ghost function Relabelled(s: System, w: DelayRuns.World, t: nat, task: Machine.Tcb): Machine.Tcb {
    if exists id: nat :: Uses(s, id, t) then
      var id: nat :| Uses(s, id, t);
      task.(leaf := LeafOf(w, id))
    else task
  }

  /** The timer runs out: `signal` ages the delays and fires wakers. */
  ghost function TickStep(s: System): System {
    match DelayRuns.Apply(s.world, DelayRuns.Signal)
    case Err(_) => s.(panicked := true)
    case Ok(w) =>
      var woken := WakeAll(s.config.tasks, AsyncTimers.Fired(s.world.timer));
      var tasks := seq(|woken|, t requires 0 <= t < |woken| => Relabelled(s, w, t, woken[t]));
      System(s.config.(tasks := tasks), w, s.owners, false)
  }

  ghost function Step(s: System, e: Event): System {
    if s.panicked then s else
    match e
    case Tick => TickStep(s)
    case Act(a) => if a.Execute? && AtDelay(s.config) then DelayStep(s) else s.(config := Machine.Apply(s.config, a))
  }

  /** Any action but the machine's free end of a delay. */
  ghost predicate Legal(s: System, e: Event) {
    e.Act? ==> !e.action.Signal? && Machine.Legal(s.config, e.action)
  }

  ghost function Run(s: System, events: seq<Event>): System
    decreases |events|
  {
    if events == [] then s else Run(Step(s, events[0]), events[1..])
  }

  ghost predicate LegalRun(s: System, events: seq<Event>)
    decreases |events|
  {
    events == [] || (Legal(s, events[0]) && LegalRun(Step(s, events[0]), events[1..]))
  }

  // ----- how the two fit together -----

  /** A delay under way is where its task waits, and the waker it holds is its task's. */
  ghost predicate Matches(s: System, id: nat)
    requires id < |s.owners|
  {
    DelayRuns.Unfinished(s.world, id) ==>
      var t := s.owners[id];
      && t < |s.config.tasks| && DelayRuns.Holds(s.world, id)
      && s.config.tasks[t].leaf == LeafOf(s.world, id)
      && (s.world.delays[id].last.Some? ==> s.world.delays[id].last.value == t)
  }

  ghost predicate HasDelay(s: System, t: nat) {
    exists id: nat :: Uses(s, id, t)
  }

  /** Waiting tasks and delays under way belong together, one to one. */
  ghost predicate Tracks(s: System) {
    && DelayRuns.WorldInv(s.world)
    && |s.owners| == |s.world.delays|
    && (forall id :: 0 <= id < |s.owners| ==> Matches(s, id))
    && (forall id: nat, other: nat, t: nat :: Uses(s, id, t) && Uses(s, other, t) ==> id == other)
    && (forall t :: 0 <= t < |s.config.tasks| && Machine.Waits(s.config.tasks[t]) ==> HasDelay(s, t))
    && Machine.DelaysHeld(s.config.tasks) == DelayRuns.Count(s.world.delays)
  }

  lemma {:induction false} HeldUpdate(tasks: seq<Machine.Tcb>, t: nat, task: Machine.Tcb)
    requires t < |tasks|
    ensures Machine.DelaysHeld(tasks[t := task]) ==
            Machine.DelaysHeld(tasks) - (if Machine.Waits(tasks[t]) then 1 else 0)
            + (if Machine.Waits(task) then 1 else 0)
    decreases |tasks|
  {
    var n := |tasks| - 1;
    if t == n {
      assert tasks[t := task][..n] == tasks[..n];
    } else {
      assert tasks[t := task][..n] == tasks[..n][t := task];
      HeldUpdate(tasks[..n], t, task);
    }
  }

  /** Same tasks waiting, and perhaps new ones that do not. */
  ghost predicate SameWaits(tasks: seq<Machine.Tcb>, tasks': seq<Machine.Tcb>) {
    && |tasks| <= |tasks'|
    && (forall t :: 0 <= t < |tasks| && (Machine.Waits(tasks[t]) || Machine.Waits(tasks'[t])) ==>
          tasks'[t].leaf == tasks[t].leaf)
    && (forall t :: |tasks| <= t < |tasks'| ==> !Machine.Waits(tasks'[t]))
  }

  lemma {:induction false} HeldSame(tasks: seq<Machine.Tcb>, tasks': seq<Machine.Tcb>)
    requires SameWaits(tasks, tasks')
    ensures Machine.DelaysHeld(tasks') == Machine.DelaysHeld(tasks)
    decreases |tasks'|
  {
    if tasks' != [] {
      var n := |tasks'| - 1;
      if |tasks| == |tasks'| {
        HeldSame(tasks[..n], tasks'[..n]);
      } else {
        HeldSame(tasks, tasks'[..n]);
      }
    }
  }

  // ----- steps that concern no delay -----

  lemma {:induction false} WaitsKept(c: Machine.Config, g: Ownership.Ghosts, a: Machine.Action)
    requires Protocol.Inv(c, g) && !a.Signal? && !(a.Execute? && AtDelay(c))
    ensures SameWaits(c.tasks, Machine.Apply(c, a).tasks)
  {
    if a.Execute? && c.phase.Poll? {
      PollWaits(c, g);
    }
  }

  lemma {:induction false} PollWaits(c: Machine.Config, g: Ownership.Ghosts)
    requires Protocol.Inv(c, g) && c.phase.Poll? && !AtDelay(c)
    ensures SameWaits(c.tasks, Machine.Exec(c).tasks)
  {
    if c.tasks[c.phase.t].prog.Await? {
      AwaitWaits(c, g);
    } else {
      assert Protocol.TaskOk(c, c.phase.t, g);
    }
  }

  lemma {:induction false} AwaitWaits(c: Machine.Config, g: Ownership.Ghosts)
    requires Protocol.Inv(c, g) && c.phase.Poll? && c.tasks[c.phase.t].prog.Await?
    ensures SameWaits(c.tasks, Machine.Exec(c).tasks)
  {
  }

  lemma {:induction false} OtherTracks(s: System, g: Ownership.Ghosts, a: Machine.Action)
    requires Tracks(s) && Protocol.Inv(s.config, g) && !a.Signal? && !(a.Execute? && AtDelay(s.config))
    ensures Tracks(s.(config := Machine.Apply(s.config, a)))
  {
    WaitsKept(s.config, g, a);
    SameTracks(s, s.(config := Machine.Apply(s.config, a)));
  }

  lemma {:induction false} SameTracks(s: System, s': System)
    requires Tracks(s) && s'.world == s.world && s'.owners == s.owners && SameWaits(s.config.tasks, s'.config.tasks)
    ensures Tracks(s')
  {
    HeldSame(s.config.tasks, s'.config.tasks);
    forall id | 0 <= id < |s'.owners|
      ensures Matches(s', id)
    {
      assert Matches(s, id);
    }
    forall id: nat, other: nat, t: nat | Uses(s', id, t) && Uses(s', other, t)
      ensures id == other
    {
      assert Uses(s, id, t) && Uses(s, other, t);
    }
    forall t | 0 <= t < |s'.config.tasks| && Machine.Waits(s'.config.tasks[t])
      ensures HasDelay(s', t)
    {
      assert HasDelay(s, t);
      var id: nat :| Uses(s, id, t);
      assert Uses(s', id, t);
    }
  }

  // ----- polling a delay -----

  /** The poll of one delay leaves what the timer knows of the others. */
  lemma {:induction false} LeafKept(w: DelayRuns.World, id: nat, other: nat, waker: nat)
    requires DelayRuns.WorldInv(w) && DelayRuns.Unfinished(w, id) && DelayRuns.Unfinished(w, other) && id != other
    ensures var w' := DelayRuns.PollDelay(w, id, waker);
            w'.delays[other] == w.delays[other] && LeafOf(w', other) == LeafOf(w, other)
  {
    assert DelayRuns.Holds(w, id) && DelayRuns.Holds(w, other);
    assert DelayRuns.Owns(w, id, w.delays[id].slot);
    assert !DelayRuns.Owns(w, other, w.delays[id].slot);
  }

  /** The polled task's own delay: it is over, or has the task's waker. */
  lemma {:induction false} LeafPolled(w: DelayRuns.World, id: nat, waker: nat)
    requires DelayRuns.WorldInv(w) && DelayRuns.Unfinished(w, id)
    ensures var w' := DelayRuns.PollDelay(w, id, waker);
            && (w'.delays[id].over <==> LeafOf(w, id).Fired?)
            && LeafOf(w, id) != Machine.Fresh
            && LeafOf(w', id) == (if LeafOf(w, id).Fired? then Machine.Fresh else Machine.Waiting(true))
            && (!w'.delays[id].over ==> w'.delays[id].last == Some(waker))
  {
    assert DelayRuns.Holds(w, id);
  }

  /** The configuration after the poll of the delay of the polled task. */
  lemma {:induction false} PollRefines(s: System, id: nat)
    requires Tracks(s) && AtDelay(s.config) && Uses(s, id, s.config.phase.t)
    ensures DelayStep(s).config == Machine.Exec(s.config)
    ensures DelayStep(s).world == DelayRuns.PollDelay(s.world, id, s.config.phase.t)
    ensures DelayStep(s).owners == s.owners && !DelayStep(s).panicked
  {
    assert Matches(s, id);
    LeafPolled(s.world, id, s.config.phase.t);
  }

  lemma {:induction false} PollTracks(s: System, id: nat, s': System)
    requires Tracks(s) && AtDelay(s.config) && Uses(s, id, s.config.phase.t)
    requires s'.world == DelayRuns.PollDelay(s.world, id, s.config.phase.t) && s'.owners == s.owners
    requires s'.config == Machine.Exec(s.config)
    ensures Tracks(s')
  {
    var t := s.config.phase.t;
    var task' := s'.config.tasks[t];
    assert Matches(s, id);
    LeafPolled(s.world, id, t);
    assert s'.config.tasks == s.config.tasks[t := task'] && task'.leaf == LeafOf(s'.world, id);
    DelayRuns.PollWorld(s.world, id, t);
    DelayRuns.CountUpdate(s.world.delays, id, s'.world.delays[id]);
    HeldUpdate(s.config.tasks, t, task');
    assert DelayRuns.Holds(s'.world, id);
    forall other | 0 <= other < |s'.owners|
      ensures Matches(s', other)
    {
      if other != id && DelayRuns.Unfinished(s'.world, other) {
        OtherMatches(s, id, s', other);
      }
    }
    PollUses(s, id, s');
  }

  lemma {:induction false} PollUses(s: System, id: nat, s': System)
    requires Tracks(s) && AtDelay(s.config) && Uses(s, id, s.config.phase.t)
    requires s'.world == DelayRuns.PollDelay(s.world, id, s.config.phase.t) && s'.owners == s.owners
    requires |s'.config.tasks| == |s.config.tasks|
    requires forall u :: 0 <= u < |s.config.tasks| && u != s.config.phase.t ==> s'.config.tasks[u] == s.config.tasks[u]
    requires Machine.Waits(s'.config.tasks[s.config.phase.t]) ==> !s'.world.delays[id].over
    ensures forall a: nat, b: nat, u: nat :: Uses(s', a, u) && Uses(s', b, u) ==> a == b
    ensures forall u :: 0 <= u < |s'.config.tasks| && Machine.Waits(s'.config.tasks[u]) ==> HasDelay(s', u)
  {
    var t := s.config.phase.t;
    forall a: nat, b: nat, u: nat | Uses(s', a, u) && Uses(s', b, u)
      ensures a == b
    {
      assert Uses(s, a, u) && Uses(s, b, u);
    }
    forall u | 0 <= u < |s'.config.tasks| && Machine.Waits(s'.config.tasks[u])
      ensures HasDelay(s', u)
    {
      if u == t {
        assert Uses(s', id, t);
      } else {
        assert HasDelay(s, u);
        var other: nat :| Uses(s, other, u);
        assert Uses(s', other, u);
      }
    }
  }

  lemma {:induction false} OtherMatches(s: System, id: nat, s': System, other: nat)
    requires Tracks(s) && AtDelay(s.config) && Uses(s, id, s.config.phase.t)
    requires s'.world == DelayRuns.PollDelay(s.world, id, s.config.phase.t) && s'.owners == s.owners
    requires DelayRuns.WorldInv(s'.world)
    requires |s'.config.tasks| == |s.config.tasks|
    requires forall u :: 0 <= u < |s.config.tasks| && u != s.config.phase.t ==> s'.config.tasks[u] == s.config.tasks[u]
    requires other < |s.owners| && other != id && DelayRuns.Unfinished(s'.world, other)
    ensures Matches(s', other)
  {
    assert DelayRuns.Unfinished(s.world, other);
    assert Matches(s, other) && DelayRuns.Holds(s'.world, other);
    LeafKept(s.world, id, other, s.config.phase.t);
    assert Uses(s, other, s.owners[other]);
    assert s.owners[other] != s.config.phase.t;
  }

  // ----- arming a delay -----

  lemma {:induction false} LeafAdded(w: DelayRuns.World, deadline: nat, other: nat)
    requires DelayRuns.WorldInv(w) && DelayRuns.Apply(w, DelayRuns.Schedule(deadline)).Ok?
    ensures var w' := DelayRuns.Apply(w, DelayRuns.Schedule(deadline)).value;
            && |w'.delays| == |w.delays| + 1
            && w'.delays[|w.delays|] == DelayRuns.Delay(w'.delays[|w.delays|].slot, None, false)
            && LeafOf(w', |w.delays|) == Machine.Waiting(false)
            && (other < |w.delays| ==> w'.delays[other] == w.delays[other] && LeafOf(w', other) == LeafOf(w, other))
  {
    DelayRuns.SchedulePanics(w, deadline);
    DelayRuns.ScheduleWorld(w, deadline);
    AsyncTimers.ScheduleKeeps(w.timer, deadline);
    var w' := DelayRuns.Apply(w, DelayRuns.Schedule(deadline)).value;
    assert DelayRuns.Holds(w', |w.delays|);
    if other < |w.delays| {
      assert DelayRuns.Holds(w, other);
    }
  }

  /** Scheduling panics, or arms the delay, exactly as the machine says. */
  lemma {:induction false} ArmRefines(s: System)
    requires Tracks(s) && AtDelay(s.config) && !HasDelay(s, s.config.phase.t) && !s.panicked
    ensures DelayStep(s).config == if DelayStep(s).panicked then s.config else Machine.Exec(s.config)
    ensures DelayStep(s).panicked ==> s.config.tasks[s.config.phase.t].prog.ms > AsyncTimers.LONGEST
  {
    var c, t := s.config, s.config.phase.t;
    var ms := c.tasks[t].prog.ms;
    assert !Machine.Waits(c.tasks[t]);
    DelayRuns.SchedulePanics(s.world, ms);
    if DelayRuns.Apply(s.world, DelayRuns.Schedule(ms)).Ok? {
      LeafAdded(s.world, ms, 0);
    }
  }

  lemma {:induction false} ArmTracks(s: System)
    requires Tracks(s) && AtDelay(s.config) && !HasDelay(s, s.config.phase.t)
    ensures Tracks(DelayStep(s))
  {
    var t, s' := s.config.phase.t, DelayStep(s);
    var deadline := s.config.tasks[t].prog.ms;
    if DelayRuns.Apply(s.world, DelayRuns.Schedule(deadline)).Err? {
      SameTracks(s, s');
    } else {
      LeafAdded(s.world, deadline, 0);
      ArmedTracks(s, deadline, s');
    }
  }

  /** The configuration, the timer and the owners after a delay was armed. */
  ghost predicate Arms(s: System, deadline: nat, s': System) {
    && AtDelay(s.config)
    && DelayRuns.Apply(s.world, DelayRuns.Schedule(deadline)) == Ok(s'.world)
    && s'.owners == s.owners + [s.config.phase.t]
    && var t := s.config.phase.t;
       s'.config.tasks == s.config.tasks[t := s.config.tasks[t].(leaf := Machine.Waiting(false))]
  }

  lemma {:induction false} ArmedTracks(s: System, deadline: nat, s': System)
    requires Tracks(s) && Arms(s, deadline, s') && !HasDelay(s, s.config.phase.t)
    ensures Tracks(s')
  {
    var t, n := s.config.phase.t, |s.world.delays|;
    LeafAdded(s.world, deadline, 0);
    DelayRuns.ScheduleWorld(s.world, deadline);
    HeldUpdate(s.config.tasks, t, s'.config.tasks[t]);
    assert !Machine.Waits(s.config.tasks[t]);
    assert s'.world.delays[..n] == s.world.delays;
    ArmedMatches(s, deadline, s');
    ArmedUses(s, deadline, s');
  }

  lemma {:induction false} ArmedUses(s: System, deadline: nat, s': System)
    requires Tracks(s) && Arms(s, deadline, s') && !HasDelay(s, s.config.phase.t)
    ensures forall id: nat, other: nat, t: nat :: Uses(s', id, t) && Uses(s', other, t) ==> id == other
    ensures forall t :: 0 <= t < |s'.config.tasks| && Machine.Waits(s'.config.tasks[t]) ==> HasDelay(s', t)
  {
    var n := |s.world.delays|;
    LeafAdded(s.world, deadline, 0);
    assert s'.world.delays[..n] == s.world.delays;
    assert Uses(s', n, s.config.phase.t);
    forall id: nat, other: nat, t: nat | Uses(s', id, t) && Uses(s', other, t)
      ensures id == other
    {
      assert id < n ==> Uses(s, id, t) && HasDelay(s, t);
      assert other < n ==> Uses(s, other, t) && HasDelay(s, t);
    }
    forall t | 0 <= t < |s'.config.tasks| && Machine.Waits(s'.config.tasks[t])
      ensures HasDelay(s', t)
    {
      if t != s.config.phase.t {
        assert HasDelay(s, t);
        var id: nat :| Uses(s, id, t);
        assert Uses(s', id, t);
      }
    }
  }

  lemma {:induction false} ArmedMatches(s: System, deadline: nat, s': System)
    requires Tracks(s) && Arms(s, deadline, s') && !HasDelay(s, s.config.phase.t)
    ensures forall id :: 0 <= id < |s'.owners| ==> Matches(s', id)
  {
    var n := |s.owners|;
    DelayRuns.ScheduleWorld(s.world, deadline);
    forall id | 0 <= id < |s'.owners|
      ensures Matches(s', id)
    {
      LeafAdded(s.world, deadline, id);
      assert DelayRuns.Holds(s'.world, id);
      if id < n && DelayRuns.Unfinished(s.world, id) {
        assert Matches(s, id) && Uses(s, id, s.owners[id]);
        assert s.owners[id] != s.config.phase.t;
      }
    }
  }

  /** At a delay, the machine does what the timer says, unless the timer cannot be armed for so
      long; and the timer gets the duration that the body asks for. */
  lemma {:induction false} DelayRefines(s: System)
    requires Tracks(s) && AtDelay(s.config) && !s.panicked
    ensures Tracks(DelayStep(s))
    ensures DelayStep(s).config == if DelayStep(s).panicked then s.config else Machine.Exec(s.config)
    ensures DelayStep(s).panicked ==> s.config.tasks[s.config.phase.t].prog.ms > AsyncTimers.LONGEST
    ensures HasDelay(s, s.config.phase.t) || Stops(DelayStep(s)) || Begins(s, DelayStep(s))
  {
    if HasDelay(s, s.config.phase.t) {
      var id: nat :| Uses(s, id, s.config.phase.t);
      PollRefines(s, id);
      PollTracks(s, id, DelayStep(s));
    } else {
      ArmRefines(s);
      ArmTracks(s);
      ArmBegins(s);
    }
  }

  ghost predicate Stops(s: System) {
    s.panicked || s.config.phase.Panicked?
  }

  /** The step has begun a delay of the polled task, with just the time that its body asks for. */
  ghost predicate Begins(s: System, s': System)
    requires AtDelay(s.config)
  {
    var t, id := s.config.phase.t, |s.world.delays|;
    && s'.owners == s.owners + [t] && |s'.world.delays| == id + 1
    && DelayRuns.Unfinished(s'.world, id) && DelayRuns.Holds(s'.world, id)
    && DelayRuns.TimeLeft(s'.world, id) == s.config.tasks[t].prog.ms && s'.world.delays[id].last == None
  }

  lemma {:induction false} ArmBegins(s: System)
    requires Tracks(s) && AtDelay(s.config) && !HasDelay(s, s.config.phase.t) && !s.panicked
    ensures Stops(DelayStep(s)) || Begins(s, DelayStep(s))
  {
    var ms := s.config.tasks[s.config.phase.t].prog.ms;
    if DelayRuns.Apply(s.world, DelayRuns.Schedule(ms)).Ok? {
      DelayRuns.ScheduleWorld(s.world, ms);
      AsyncTimers.ScheduleOutcome(s.world.timer, ms);
      assert DelayRuns.Holds(DelayStep(s).world, |s.world.delays|);
    }
  }

  // ----- a tick -----

  /** The machine's ends of the delays that are due, among the first n. */
  ghost function EndsOf(s: System, n: nat): seq<Machine.Action>
    requires n <= |s.owners|
  {
    if n == 0 then []
    else EndsOf(s, n - 1) + (if DelayRuns.Due(s.world, n - 1) then [Machine.Signal(s.owners[n - 1])] else [])
  }

  /** One of the first n delays is due, and is the task's. */
  ghost predicate DueFor(s: System, n: nat, t: nat) {
    exists id: nat :: id < n && DelayRuns.Due(s.world, id) && Uses(s, id, t)
  }

  /** The task, with its delay ended. */
  function Ended(task: Machine.Tcb): Machine.Tcb {
    if !Machine.Waits(task) then task
    else
      var ended := task.(leaf := Machine.Fired(task.leaf.stored));
      if task.leaf.stored then ended.(state := Machine.Ready) else ended
  }

  /** The configuration in which the first n delays have ended, if they are due. */
  ghost function EndedConfig(s: System, n: nat): Machine.Config {
    var tasks := s.config.tasks;
    s.config.(tasks := seq(|tasks|, t requires 0 <= t < |tasks| =>
      if DueFor(s, n, t) then Ended(tasks[t]) else tasks[t]))
  }

  /** The machine's end of one delay, if it is due. */
  ghost function EndStep(s: System, id: nat, c: Machine.Config): Machine.Config
    requires id < |s.owners|
  {
    if DelayRuns.Due(s.world, id) then Machine.SignalStep(c, s.owners[id]) else c
  }

  /** The ends of the first n + 1 are those of the first n, and perhaps one more. */
  lemma {:induction false} EndsUnfold(s: System, n: nat, c: Machine.Config)
    requires n < |s.owners| && c == Machine.Run(s.config, EndsOf(s, n))
    ensures Machine.Run(s.config, EndsOf(s, n + 1)) == EndStep(s, n, c)
    ensures Machine.LegalRun(s.config, EndsOf(s, n)) ==> Machine.LegalRun(s.config, EndsOf(s, n + 1))
  {
    if DelayRuns.Due(s.world, n) {
      var a := Machine.Signal(s.owners[n]);
      Progress.RunAppend(s.config, EndsOf(s, n), [a]);
      Progress.RunOne(c, a);
    } else {
      assert EndsOf(s, n + 1) == EndsOf(s, n);
    }
  }

  lemma {:induction false} EndsLegal(s: System, n: nat)
    requires n <= |s.owners|
    ensures Machine.LegalRun(s.config, EndsOf(s, n))
  {
    if n > 0 {
      EndsLegal(s, n - 1);
      EndsUnfold(s, n - 1, Machine.Run(s.config, EndsOf(s, n - 1)));
    }
  }

  /** After the ends of the first n delays, exactly those that are due have ended. */
  lemma {:induction false} EndsRun(s: System, n: nat) returns (c: Machine.Config)
    requires Tracks(s) && n <= |s.owners|
    ensures c == Machine.Run(s.config, EndsOf(s, n)) && c == EndedConfig(s, n)
  {
    forall id | 0 <= id < n
      ensures EndsOnce(s, id)
    {
      OneMoreEnds(s, id);
    }
    c := EndsFold(s, n);
  }

  ghost predicate EndsOnce(s: System, id: nat)
    requires id < |s.owners|
  {
    EndedConfig(s, id + 1) == EndStep(s, id, EndedConfig(s, id))
  }

  lemma {:induction false} EndsFold(s: System, n: nat) returns (c: Machine.Config)
    requires n <= |s.owners| && forall id :: 0 <= id < n ==> EndsOnce(s, id)
    ensures c == Machine.Run(s.config, EndsOf(s, n)) && c == EndedConfig(s, n)
  {
    if n == 0 {
      c := s.config;
      NoneEnded(s);
    } else {
      c := EndsFold(s, n - 1);
      EndsUnfold(s, n - 1, c);
      assert EndsOnce(s, n - 1);
      c := EndStep(s, n - 1, c);
    }
  }

  lemma {:induction false} NoneEnded(s: System)
    ensures EndedConfig(s, 0) == s.config
  {
    assert EndedConfig(s, 0).tasks == s.config.tasks;
  }

  lemma {:induction false} OneMoreEnds(s: System, id: nat)
    requires Tracks(s) && id < |s.owners|
    ensures EndsOnce(s, id)
  {
    var u := s.owners[id];
    forall t: nat | !(DelayRuns.Due(s.world, id) && t == u)
      ensures DueFor(s, id + 1, t) <==> DueFor(s, id, t)
    {
      if DueFor(s, id + 1, t) {
        var other: nat :| other < id + 1 && DelayRuns.Due(s.world, other) && Uses(s, other, t);
        assert other != id;
      }
    }
    if DelayRuns.Due(s.world, id) {
      assert Matches(s, id) && Uses(s, id, u);
      assert !DueFor(s, id, u) && DueFor(s, id + 1, u);
      assert EndedConfig(s, id + 1).tasks == Machine.SignalStep(EndedConfig(s, id), u).tasks;
    } else {
      assert EndedConfig(s, id + 1).tasks == EndedConfig(s, id).tasks;
    }
  }

  lemma {:induction false} WakeAllIs(tasks: seq<Machine.Tcb>, wakers: seq<nat>)
    ensures |WakeAll(tasks, wakers)| == |tasks|
    ensures forall t: nat :: t < |tasks| ==>
              WakeAll(tasks, wakers)[t] == if t in wakers then tasks[t].(state := Machine.Ready) else tasks[t]
    decreases |wakers|
  {
    if wakers != [] {
      var n := |wakers| - 1;
      WakeAllIs(tasks, wakers[..n]);
      assert wakers == wakers[..n] + [wakers[n]];
    }
  }

  lemma {:induction false} LeafTicked(w: DelayRuns.World, id: nat)
    requires DelayRuns.WorldInv(w) && DelayRuns.Unfinished(w, id) && DelayRuns.Apply(w, DelayRuns.Signal).Ok?
    ensures var w' := DelayRuns.Apply(w, DelayRuns.Signal).value;
            LeafOf(w', id) == if DelayRuns.Due(w, id) then Machine.Fired(w.delays[id].last.Some?) else LeafOf(w, id)
  {
    DelayRuns.SignalWorld(w);
    var w' := DelayRuns.Apply(w, DelayRuns.Signal).value;
    assert DelayRuns.Holds(w, id) && DelayRuns.Holds(w', id);
  }

  /** The wakers that are fired are those of the tasks whose delays are due, if stored. */
  lemma {:induction false} FiresTasks(s: System, t: nat)
    requires Tracks(s) && t < |s.config.tasks|
    ensures t in AsyncTimers.Fired(s.world.timer) <==>
            DueFor(s, |s.owners|, t) && Machine.Waits(s.config.tasks[t]) && s.config.tasks[t].leaf.stored
  {
    DelayRuns.FiresOwners(s.world, t);
    if t in AsyncTimers.Fired(s.world.timer) {
      var id :| 0 <= id < |s.world.delays| && DelayRuns.Due(s.world, id) && s.world.delays[id].last == Some(t);
      assert Matches(s, id) && Uses(s, id, t);
    }
    if DueFor(s, |s.owners|, t) {
      var id: nat :| id < |s.owners| && DelayRuns.Due(s.world, id) && Uses(s, id, t);
      assert Matches(s, id);
    }
  }

  /** The timer can be armed again. */
  ghost predicate CanTick(s: System) {
    DelayRuns.Apply(s.world, DelayRuns.Signal).Ok?
  }

  /** A tick does to each task what the machine's ends of the delays due do. */
  lemma {:induction false} TickedTask(s: System, t: nat)
    requires Tracks(s) && t < |s.config.tasks| && CanTick(s)
    ensures |TickStep(s).config.tasks| == |s.config.tasks|
    ensures TickStep(s).config.tasks[t] ==
            if DueFor(s, |s.owners|, t) then Ended(s.config.tasks[t]) else s.config.tasks[t]
  {
    WakeAllIs(s.config.tasks, AsyncTimers.Fired(s.world.timer));
    FiresTasks(s, t);
    if HasDelay(s, t) {
      var id: nat :| Uses(s, id, t);
      assert Matches(s, id);
      LeafTicked(s.world, id);
      assert DueFor(s, |s.owners|, t) <==> DelayRuns.Due(s.world, id);
    }
  }

  /** A tick of the timer is a run of the machine: exactly the delays that are due end, and
      exactly the tasks that stored a waker with one of them become ready. */
  lemma {:induction false} TickRefines(s: System)
    requires Tracks(s) && CanTick(s)
    ensures Machine.LegalRun(s.config, EndsOf(s, |s.owners|))
    ensures TickStep(s).config == Machine.Run(s.config, EndsOf(s, |s.owners|))
  {
    EndsLegal(s, |s.owners|);
    var ended := EndsRun(s, |s.owners|);
    WakeAllIs(s.config.tasks, AsyncTimers.Fired(s.world.timer));
    forall t | 0 <= t < |s.config.tasks|
      ensures TickStep(s).config.tasks[t] == ended.tasks[t]
    {
      TickedTask(s, t);
    }
  }

  lemma {:induction false} TickTracks(s: System)
    requires Tracks(s) && CanTick(s)
    ensures Tracks(TickStep(s))
  {
    var s' := TickStep(s);
    DelayRuns.SignalWorld(s.world);
    WakeAllIs(s.config.tasks, AsyncTimers.Fired(s.world.timer));
    forall id: nat, t: nat
      ensures Uses(s', id, t) <==> Uses(s, id, t)
    {
    }
    forall id | 0 <= id < |s'.owners|
      ensures Matches(s', id)
    {
      if DelayRuns.Unfinished(s.world, id) {
        TickMatches(s, id);
      }
    }
    forall t | 0 <= t < |s'.config.tasks|
      ensures Machine.Waits(s'.config.tasks[t]) <==> Machine.Waits(s.config.tasks[t])
      ensures Machine.Waits(s'.config.tasks[t]) ==> HasDelay(s', t)
    {
      TickedTask(s, t);
      if Machine.Waits(s.config.tasks[t]) {
        assert HasDelay(s, t);
        var id: nat :| Uses(s, id, t);
        assert Uses(s', id, t);
      }
    }
    SameHeld(s.config.tasks, s'.config.tasks);
  }

  lemma {:induction false} TickMatches(s: System, id: nat)
    requires Tracks(s) && CanTick(s) && id < |s.owners| && DelayRuns.Unfinished(s.world, id)
    ensures Matches(TickStep(s), id)
  {
    var t := s.owners[id];
    assert Matches(s, id) && Uses(s, id, t);
    DelayRuns.SignalWorld(s.world);
    assert DelayRuns.Holds(TickStep(s).world, id);
    LeafTicked(s.world, id);
    TickedTask(s, t);
    assert DueFor(s, |s.owners|, t) <==> DelayRuns.Due(s.world, id);
  }

  lemma {:induction false} SameHeld(tasks: seq<Machine.Tcb>, tasks': seq<Machine.Tcb>)
    requires |tasks'| == |tasks|
    requires forall t :: 0 <= t < |tasks| ==> (Machine.Waits(tasks'[t]) <==> Machine.Waits(tasks[t]))
    ensures Machine.DelaysHeld(tasks') == Machine.DelaysHeld(tasks)
    decreases |tasks|
  {
    if tasks != [] {
      SameHeld(tasks[..|tasks| - 1], tasks'[..|tasks| - 1]);
    }
  }
}
