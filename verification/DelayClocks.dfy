/** How long a delay lasts: examples/stm32l4/src/async_timer.rs, with time that passes while the
    timer runs.

    `schedule` takes no account of how far the period under way has got, and `signal` takes the
    stored deadline off every delay whatever the timer was armed with. The results say by how
    much each of the two moves the end of a delay. */
module DelayClocks {
  import opened Wrappers
  import opened Paths
  import opened AsyncTimers
  import opened DelayRuns

  /** `since`: the milliseconds since the timer was armed. Per delay, what was requested, and how
      long it has lasted so far; that stops where it is over. */
  datatype Clock = Clock(world: World, since: nat, lasted: seq<nat>, requested: seq<nat>)

  datatype Event = Wait(ms: nat) | Do(op: Op)

  const MIDNIGHT: Clock := Clock(NOTHING, 0, [], [])

  /** `schedule` arms the timer for this delay, and so begins a new period. */
  predicate ArmsAnew(s: Timer, deadline: nat) {
    s.next.None? || deadline < s.next.value
  }

  ghost function Elapse(k: Clock, ms: nat): Clock {
    var n := |k.lasted|;
    k.(since := k.since + ms,
       lasted := seq(n, id requires 0 <= id < n => k.lasted[id] + if Left(k.world, id) > 0 then ms else 0))
  }

  ghost function Tick(k: Clock, e: Event): Result<Clock, Panic> {
    match e
    case Wait(ms) => Ok(Elapse(k, ms))
    case Do(op) =>
      match DelayRuns.Apply(k.world, op)
      case Err(panic) => Err(panic)
      case Ok(w) =>
        match op
        case Schedule(deadline) =>
          var since := if ArmsAnew(k.world.timer, deadline) then 0 else k.since;
          Ok(Clock(w, since, k.lasted + [0], k.requested + [deadline]))
        case Poll(_, _) => Ok(k.(world := w))
        case Signal => Ok(k.(world := w, since := 0))
  }

  /** Time goes on no further than the timer is armed for, and the timer signals just then. */
  ghost predicate Allowed(k: Clock, e: Event) {
    match e
    case Wait(ms) => k.world.timer.armed.Some? ==> k.since + ms <= k.world.timer.armed.value
    case Do(op) =>
      DelayRuns.Legal(k.world, op) && (op.Signal? && k.world.timer.armed.Some? ==> k.since == k.world.timer.armed.value)
  }

  ghost function Pass(k: Clock, events: seq<Event>): Result<Clock, Panic>
    decreases |events|
  {
    if events == [] then Ok(k)
    else
      match Tick(k, events[0])
      case Err(panic) => Err(panic)
      case Ok(k1) => Pass(k1, events[1..])
  }

  ghost predicate AllAllowed(k: Clock, events: seq<Event>)
    decreases |events|
  {
    || events == []
    || (&& Allowed(k, events[0])
        && (Tick(k, events[0]).Ok? ==> AllAllowed(Tick(k, events[0]).value, events[1..])))
  }

  ghost predicate ClockInv(k: Clock) {
    WorldInv(k.world) && |k.lasted| == |k.requested| == |k.world.delays|
  }

  lemma {:induction false} TickKeeps(k: Clock, e: Event)
    requires ClockInv(k) && Allowed(k, e) && Tick(k, e).Ok?
    ensures ClockInv(Tick(k, e).value)
  {
    if e.Do? {
      ApplyKeeps(k.world, e.op);
    }
  }

  /** The clock of the timer is honest: a period goes on only while the timer was not armed anew, and
      a schedule that begins one has armed the timer for its own delay. */
  lemma {:induction false} PeriodGoesOn(k: Clock, e: Event)
    requires ClockInv(k) && Allowed(k, e) && Tick(k, e).Ok?
    ensures var k' := Tick(k, e).value;
            && (k'.world.timer.armed == k.world.timer.armed || k'.since == 0)
            && (e.Wait? ==> k'.world == k.world && k'.since == k.since + e.ms)
            && (e.Do? && e.op.Poll? ==> k'.since == k.since && k'.world.timer.armed == k.world.timer.armed)
            && (e.Do? && e.op.Schedule? ==>
                  if k.world.timer.next.Some? && k.world.timer.next.value <= e.op.deadline
                  then k'.since == k.since && k'.world.timer.armed == k.world.timer.armed
                  else k'.since == 0 && k'.world.timer.armed == Some(e.op.deadline))
  {
    if e.Do? {
      match e.op
      case Schedule(deadline) => ScheduleOutcome(k.world.timer, deadline);
      case Poll(id, waker) =>
        assert Holds(k.world, id);
        PollOutcome(k.world.timer, k.world.delays[id].slot, waker);
      case Signal =>
    }
  }

  // ----- the error of a delay -----

  /** By how many milliseconds the delay would end late, or early if negative, if the timer ran
      out for it when its time is over: what it has lasted and what it has left, against what was
      requested. */
  ghost function Error(k: Clock, id: nat): int
    requires id < |k.lasted| == |k.requested|
  {
    k.lasted[id] + (if Left(k.world, id) > 0 then Left(k.world, id) - k.since else 0) - k.requested[id]
  }

  /** By how much an event moves the end of a delay that waits. Arming the timer in the middle of
      a period forgets the part that has passed; a signal after `armed` milliseconds takes the
      stored deadline off, or what is left of the delay. */
  ghost function Shift(k: Clock, e: Event, id: nat): int {
    if Left(k.world, id) == 0 then 0
    else
      match e
      case Wait(_) => 0
      case Do(Schedule(deadline)) => if ArmsAnew(k.world.timer, deadline) then k.since else 0
      case Do(Poll(_, _)) => 0
      case Do(Signal) => OnSignal(k.world.timer, Left(k.world, id))
  }

  function OnSignal(s: Timer, left: nat): int {
    if s.armed.None? || s.next.None? then 0
    else s.armed.value - if left <= s.next.value then left else s.next.value
  }

  /** With what error a delay begins: in the middle of a period it is taken to have begun with it. */
  ghost function FirstShift(k: Clock, deadline: nat): int {
    if ArmsAnew(k.world.timer, deadline) then 0 else 0 - k.since
  }

  lemma {:induction false} NewError(k: Clock, deadline: nat)
    requires ClockInv(k) && Tick(k, Do(Schedule(deadline))).Ok?
    ensures Error(Tick(k, Do(Schedule(deadline))).value, |k.lasted|) == FirstShift(k, deadline)
  {
    ScheduleWorld(k.world, deadline);
    ScheduleKeeps(k.world.timer, deadline);
    assert Holds(Apply(k.world, Schedule(deadline)).value, |k.lasted|);
  }

  /** A delay that waits keeps the timer armed. */
  lemma {:induction false} LeftArmed(w: World, id: nat)
    requires WorldInv(w) && Left(w, id) > 0
    ensures w.timer.armed.Some? && w.timer.next.Some?
  {
    assert Unexpired(w.timer.waiters[w.delays[id].slot]);
  }

  lemma {:induction false} ErrorShifts(k: Clock, e: Event, id: nat)
    requires ClockInv(k) && Allowed(k, e) && Tick(k, e).Ok? && id < |k.lasted|
    ensures Error(Tick(k, e).value, id) == Error(k, id) + Shift(k, e, id)
  {
    if Left(k.world, id) > 0 {
      LeftArmed(k.world, id);
    }
    if e.Do? {
      LeftAfter(k.world, e.op, id);
    }
  }

  // ----- over runs -----

  ghost function Shifts(k: Clock, events: seq<Event>, id: nat): int
    decreases |events|
  {
    if events == [] then 0
    else
      match Tick(k, events[0])
      case Err(_) => 0
      case Ok(k1) => Shift(k, events[0], id) + Shifts(k1, events[1..], id)
  }

  lemma {:induction false} ErrorSum(k: Clock, events: seq<Event>, id: nat)
    requires ClockInv(k) && AllAllowed(k, events) && Pass(k, events).Ok? && id < |k.lasted|
    ensures ClockInv(Pass(k, events).value) && id < |Pass(k, events).value.lasted|
    ensures Pass(k, events).value.requested[id] == k.requested[id]
    ensures Error(Pass(k, events).value, id) == Error(k, id) + Shifts(k, events, id)
    decreases |events|
  {
    if events != [] {
      ErrorShifts(k, events[0], id);
      TickKeeps(k, events[0]);
      ErrorSum(Tick(k, events[0]).value, events[1..], id);
    }
  }

  /** Every clock that starts with an idle timer is in the invariant. */
  lemma {:induction false} ClockReachable(events: seq<Event>)
    requires AllAllowed(MIDNIGHT, events) && Pass(MIDNIGHT, events).Ok?
    ensures ClockInv(Pass(MIDNIGHT, events).value)
  {
    DelayRuns.Reachable([]);
    PassKeeps(MIDNIGHT, events);
  }

  lemma {:induction false} PassKeeps(k: Clock, events: seq<Event>)
    requires ClockInv(k) && AllAllowed(k, events) && Pass(k, events).Ok?
    ensures ClockInv(Pass(k, events).value)
    decreases |events|
  {
    if events != [] {
      TickKeeps(k, events[0]);
      PassKeeps(Tick(k, events[0]).value, events[1..]);
    }
  }

  /** From k to k' by a run. */
  ghost predicate Passes(k: Clock, events: seq<Event>, k': Clock) {
    AllAllowed(k, events) && Pass(k, events) == Ok(k')
  }

  /** How long a delay lasts, over every run that goes on until it is over: what was requested,
      and the sum of what the schedule and signal steps shift. It lasts exactly as requested if
      and only if they add up to nothing. */
  lemma {:induction false} DelayLasts(k: Clock, deadline: nat, k1: Clock, after: seq<Event>, k': Clock)
    requires ClockInv(k) && Tick(k, Do(Schedule(deadline))) == Ok(k1) && Passes(k1, after, k')
    requires IsOver(k'.world, |k.lasted|)
    ensures |k'.lasted| > |k.lasted|
    ensures k'.lasted[|k.lasted|] == deadline + FirstShift(k, deadline) + Shifts(k1, after, |k.lasted|)
    ensures k'.lasted[|k.lasted|] == deadline <==> FirstShift(k, deadline) + Shifts(k1, after, |k.lasted|) == 0
  {
    TickKeeps(k, Do(Schedule(deadline)));
    NewError(k, deadline);
    ErrorSum(k1, after, |k.lasted|);
  }

  // ----- a delay that lasts as requested -----

  /** No delay that is scheduled is shorter than the given one. */
  ghost predicate NoneShorter(events: seq<Event>, deadline: nat) {
    forall i :: 0 <= i < |events| && events[i].Do? && events[i].op.Schedule? ==> events[i].op.deadline >= deadline
  }

  /** The timer runs for this delay. */
  ghost predicate RunsFor(k: Clock, id: nat, deadline: nat) {
    Left(k.world, id) > 0 ==>
      Left(k.world, id) == deadline && k.world.timer.armed == Some(deadline) && k.world.timer.next == Some(deadline)
  }

  lemma {:induction false} RunsForKept(k: Clock, e: Event, id: nat, deadline: nat)
    requires ClockInv(k) && Allowed(k, e) && Tick(k, e).Ok? && id < |k.lasted| && RunsFor(k, id, deadline)
    requires NoneShorter([e], deadline)
    ensures RunsFor(Tick(k, e).value, id, deadline) && Shift(k, e, id) == 0
  {
    assert e.Do? && e.op.Schedule? ==> [e][0].op.deadline >= deadline;
    if e.Do? {
      LeftAfter(k.world, e.op, id);
    }
  }

  lemma {:induction false} NoShifts(k: Clock, events: seq<Event>, id: nat, deadline: nat)
    requires ClockInv(k) && AllAllowed(k, events) && Pass(k, events).Ok? && id < |k.lasted|
    requires RunsFor(k, id, deadline) && NoneShorter(events, deadline)
    ensures Shifts(k, events, id) == 0
    decreases |events|
  {
    if events != [] {
      RunsForKept(k, events[0], id, deadline);
      TickKeeps(k, events[0]);
      NoShifts(Tick(k, events[0]).value, events[1..], id, deadline);
    }
  }

  /** A delay for which the timer is armed when it is scheduled, and before whose end none shorter
      is scheduled, lasts exactly as requested. */
  lemma {:induction false} SoonestLastsExactly(k: Clock, deadline: nat, k1: Clock, after: seq<Event>, k': Clock)
    requires ClockInv(k) && Tick(k, Do(Schedule(deadline))) == Ok(k1) && Passes(k1, after, k')
    requires IsOver(k'.world, |k.lasted|)
    requires ArmsAnew(k.world.timer, deadline) && NoneShorter(after, deadline)
    ensures |k'.lasted| > |k.lasted| && k'.lasted[|k.lasted|] == deadline
  {
    DelayLasts(k, deadline, k1, after, k');
    TickKeeps(k, Do(Schedule(deadline)));
    ScheduleKeeps(k.world.timer, deadline);
    assert Holds(k1.world, |k.lasted|);
    NoShifts(k1, after, |k.lasted|, deadline);
  }

  // ----- delays that do not -----

  ghost predicate Steps(k: Clock, e: Event, k': Clock) {
    Allowed(k, e) && Tick(k, e) == Ok(k')
  }

  /** Such steps make a run. */
  lemma {:induction false} TracePasses(k: Clock, events: seq<Event>, k': Clock)
    requires Trace(Steps, k, events, k')
    ensures Passes(k, events, k')
    decreases |events|
  {
    if events != [] {
      var k1 := TraceFirst(Steps, k, events, k');
      TracePasses(k1, events[1..], k');
    }
  }

  /** One delay, in the first slot, for which the timer runs. */
  function One(a: nat, since: nat): Clock {
    Clock(World(Timer(IDLE.waiters[0 := Some(Waiter(a, None))], Some(a), Some(a)), [Delay(0, None, false)]),
          since, [since], [a])
  }

  /** Two delays in the first two slots. */
  function Pair(
    x: nat, y: nat, next: Option<nat>, armed: Option<nat>, since: nat, lasted: seq<nat>, requested: seq<nat>)
    : Clock
  {
    Clock(World(Timer([Some(Waiter(x, None)), Some(Waiter(y, None))] + IDLE.waiters[2..], next, armed),
                [Delay(0, None, false), Delay(1, None, false)]), since, lasted, requested)
  }

  lemma {:induction false} FirstStep(a: nat)
    requires 0 < a <= LONGEST
    ensures Trace(Steps, MIDNIGHT, [Do(Schedule(a))], One(a, 0))
  {
    FreeSlotIs(IDLE.waiters, 0);
    assert NOTHING.delays + [Delay(0, None, false)] == One(a, 0).world.delays;
    assert MIDNIGHT.lasted + [0] == [0] && MIDNIGHT.requested + [a] == [a];
    TraceOne(Steps, MIDNIGHT, Do(Schedule(a)), One(a, 0));
  }

  lemma {:induction false} OneWaits(a: nat, t: nat)
    requires 0 < a && t <= a
    ensures Trace(Steps, One(a, 0), [Wait(t)], One(a, t))
  {
    assert Left(One(a, 0).world, 0) == a;
    assert Elapse(One(a, 0), t).lasted == [t];
    TraceOne(Steps, One(a, 0), Wait(t), One(a, t));
  }

  /** The clock after the second request. */
  function Requested(a: nat, t: nat, b: nat): Clock {
    if b < a then Pair(a, b, Some(b), Some(b), 0, [t, 0], [a, b]) else Pair(a, b, Some(a), Some(a), t, [t, 0], [a, b])
  }

  lemma {:induction false} SecondStep(a: nat, t: nat, b: nat)
    requires t <= a <= LONGEST && 0 < b <= LONGEST
    ensures Trace(Steps, One(a, t), [Do(Schedule(b))], Requested(a, t, b))
  {
    var k := One(a, t);
    FreeSlotIs(k.world.timer.waiters, 1);
    assert k.world.timer.waiters[1 := Some(Waiter(b, None))] ==
           [Some(Waiter(a, None)), Some(Waiter(b, None))] + IDLE.waiters[2..];
    assert k.world.delays + [Delay(1, None, false)] == [Delay(0, None, false), Delay(1, None, false)];
    assert k.lasted + [0] == [t, 0] && k.requested + [b] == [a, b];
    TraceOne(Steps, k, Do(Schedule(b)), Requested(a, t, b));
  }

  /** A delay of a milliseconds, and t milliseconds later one of b. */
  lemma {:induction false} TwoRequested(a: nat, t: nat, b: nat)
    requires 0 < a && t <= a <= LONGEST && 0 < b <= LONGEST
    ensures Trace(Steps, MIDNIGHT, [Do(Schedule(a)), Wait(t), Do(Schedule(b))], Requested(a, t, b))
  {
    FirstStep(a);
    OneWaits(a, t);
    SecondStep(a, t, b);
    TraceAppend(Steps, MIDNIGHT, [Do(Schedule(a))], One(a, 0), [Wait(t)], One(a, t));
    assert [Do(Schedule(a))] + [Wait(t)] == [Do(Schedule(a)), Wait(t)];
    TraceAppend(Steps, MIDNIGHT, [Do(Schedule(a)), Wait(t)], One(a, t), [Do(Schedule(b))], Requested(a, t, b));
    assert [Do(Schedule(a)), Wait(t)] + [Do(Schedule(b))] == [Do(Schedule(a)), Wait(t), Do(Schedule(b))];
  }

  lemma {:induction false} PairWaits(
    x: nat, y: nat, next: Option<nat>, armed: nat, since: nat, l: nat, m: nat, requested: seq<nat>, ms: nat)
    requires since + ms <= armed && |requested| == 2
    ensures Trace(Steps, Pair(x, y, next, Some(armed), since, [l, m], requested), [Wait(ms)],
                  Pair(x, y, next, Some(armed), since + ms, [Longer(l, x, ms), Longer(m, y, ms)], requested))
  {
    var k := Pair(x, y, next, Some(armed), since, [l, m], requested);
    assert Left(k.world, 0) == x && Left(k.world, 1) == y;
    assert Elapse(k, ms).lasted == [Longer(l, x, ms), Longer(m, y, ms)];
    TraceOne(Steps, k, Wait(ms), Elapse(k, ms));
  }

  function Longer(lasted: nat, left: nat, ms: nat): nat {
    if left > 0 then lasted + ms else lasted
  }

  function Minus(x: nat, y: nat): nat {
    if x <= y then 0 else x - y
  }

  /** The clock after a signal that leaves at most one of the two. */
  function Signalled(x: nat, y: nat, next: nat, lasted: seq<nat>, requested: seq<nat>): Clock {
    var left := Minus(x, next) + Minus(y, next);
    Pair(Minus(x, next), Minus(y, next), if left > 0 then Some(next) else None, if left > 0 then Some(left) else None,
         0, lasted, requested)
  }

  lemma {:induction false} PairSignals(x: nat, y: nat, next: nat, armed: nat, lasted: seq<nat>, requested: seq<nat>)
    requires (x <= next || y <= next) && x - next <= LONGEST && y - next <= LONGEST
    ensures Trace(Steps, Pair(x, y, Some(next), Some(armed), armed, lasted, requested), [Do(Signal)],
                  Signalled(x, y, next, lasted, requested))
  {
    PairSoonest(x, y, next);
    TraceOne(Steps, Pair(x, y, Some(next), Some(armed), armed, lasted, requested), Do(Signal),
             Signalled(x, y, next, lasted, requested));
  }

  lemma {:induction false} PairSoonest(x: nat, y: nat, next: nat)
    requires x <= next || y <= next
    ensures var ws := [Some(Waiter(x, None)), Some(Waiter(y, None))] + IDLE.waiters[2..];
            var left := Minus(x, next) + Minus(y, next);
            && AllAged(ws, next) ==
               [Some(Waiter(Minus(x, next), None)), Some(Waiter(Minus(y, next), None))] + IDLE.waiters[2..]
            && Soonest(AllAged(ws, next)) == if left > 0 then Some(left) else None
  {
    var ws := [Some(Waiter(x, None)), Some(Waiter(y, None))] + IDLE.waiters[2..];
    var aged := [Some(Waiter(Minus(x, next), None)), Some(Waiter(Minus(y, next), None))] + IDLE.waiters[2..];
    assert AllAged(ws, next) == aged;
    OneLeft(aged, Minus(x, next), Minus(y, next));
  }

  /** The soonest of two, one of which is over. */
  lemma {:induction false} OneLeft(ws: seq<Option<Waiter>>, x: nat, y: nat)
    requires ws == [Some(Waiter(x, None)), Some(Waiter(y, None))] + IDLE.waiters[2..] && (x == 0 || y == 0)
    ensures Soonest(ws) == if x + y > 0 then Some(x + y) else None
  {
    SoonestMeaning(ws);
    assert ws[0].value.deadline == x && ws[1].value.deadline == y;
    assert forall i :: 2 <= i < |ws| ==> ws[i].None?;
  }

  /** The rest of a period, and the signal that ends it. */
  lemma {:induction false} Period(
    before: seq<Event>, x: nat, y: nat, next: nat, armed: nat, since: nat, l: nat, m: nat, requested: seq<nat>, ms: nat)
    requires Trace(Steps, MIDNIGHT, before, Pair(x, y, Some(next), Some(armed), since, [l, m], requested))
    requires since + ms == armed && |requested| == 2
    requires (x <= next || y <= next) && x - next <= LONGEST && y - next <= LONGEST
    ensures Trace(Steps, MIDNIGHT, before + [Wait(ms), Do(Signal)],
                  Signalled(x, y, next, [Longer(l, x, ms), Longer(m, y, ms)], requested))
  {
    var lasted := [Longer(l, x, ms), Longer(m, y, ms)];
    var k0 := Pair(x, y, Some(next), Some(armed), since, [l, m], requested);
    var k1 := Pair(x, y, Some(next), Some(armed), armed, lasted, requested);
    PairWaits(x, y, Some(next), armed, since, l, m, requested, ms);
    PairSignals(x, y, next, armed, lasted, requested);
    TraceAppend(Steps, k0, [Wait(ms)], k1, [Do(Signal)], Signalled(x, y, next, lasted, requested));
    assert [Wait(ms)] + [Do(Signal)] == [Wait(ms), Do(Signal)];
    TraceAppend(Steps, MIDNIGHT, before, k0, [Wait(ms), Do(Signal)], Signalled(x, y, next, lasted, requested));
  }

  /** Early: a delay that is scheduled t milliseconds into the period of a shorter one is taken to
      have begun with it, and ends t milliseconds too soon. */
  lemma {:induction false} MayEndEarly(t: nat, a: nat, b: nat) returns (k: Clock)
    requires 0 < t <= a < b <= 2 * a && a <= LONGEST && b <= LONGEST
    ensures Passes(MIDNIGHT, [Do(Schedule(a)), Wait(t), Do(Schedule(b))] + [Wait(a - t), Do(Signal)]
                             + [Wait(b - a), Do(Signal)], k)
    ensures k.requested == [a, b] && IsOver(k.world, 1) && k.lasted == [a, b - t]
  {
    var requests := [Do(Schedule(a)), Wait(t), Do(Schedule(b))];
    TwoRequested(a, t, b);
    Period(requests, a, b, a, a, t, t, 0, [a, b], a - t);
    Period(requests + [Wait(a - t), Do(Signal)], 0, b - a, a, b - a, 0, a, a - t, [a, b], b - a);
    k := Pair(0, 0, None, None, 0, [a, b - t], [a, b]);
    TracePasses(MIDNIGHT, requests + [Wait(a - t), Do(Signal)] + [Wait(b - a), Do(Signal)], k);
  }

  /** Late: a shorter delay that is scheduled t milliseconds into a period begins another one, and
      the longer delay loses those milliseconds. */
  lemma {:induction false} MayRestart(t: nat, a: nat, b: nat) returns (k: Clock)
    requires 0 < t <= a && 0 < b < a <= 2 * b && a <= LONGEST
    ensures Passes(MIDNIGHT, [Do(Schedule(a)), Wait(t), Do(Schedule(b))] + [Wait(b), Do(Signal)]
                             + [Wait(a - b), Do(Signal)], k)
    ensures k.requested == [a, b] && IsOver(k.world, 0) && k.lasted == [a + t, b]
  {
    var requests := [Do(Schedule(a)), Wait(t), Do(Schedule(b))];
    TwoRequested(a, t, b);
    Period(requests, a, b, b, b, 0, t, 0, [a, b], b);
    Period(requests + [Wait(b), Do(Signal)], a - b, 0, b, a - b, 0, t + b, b, [a, b], a - b);
    k := Pair(0, 0, None, None, 0, [a + t, b], [a, b]);
    TracePasses(MIDNIGHT, requests + [Wait(b), Do(Signal)] + [Wait(a - b), Do(Signal)], k);
  }

  // ----- late without a restart -----

  /** The second of two delays, when the first is over and its poll has returned. */
  function Second(y: nat, next: Option<nat>, armed: Option<nat>, since: nat, lasted: seq<nat>, requested: seq<nat>)
    : Clock
  {
    Clock(World(Timer([None, Some(Waiter(y, None))] + IDLE.waiters[2..], next, armed),
                [Delay(0, None, true), Delay(1, None, false)]), since, lasted, requested)
  }

  lemma {:induction false} FirstPolled(y: nat, a: nat, lasted: seq<nat>, requested: seq<nat>, waker: nat)
    requires y > 0
    ensures Trace(Steps, Pair(0, y, Some(a), Some(y), 0, lasted, requested), [Do(Poll(0, waker))],
                  Second(y, Some(a), Some(y), 0, lasted, requested))
  {
    var k := Pair(0, y, Some(a), Some(y), 0, lasted, requested);
    var k' := Second(y, Some(a), Some(y), 0, lasted, requested);
    assert k.world.timer.waiters[0 := None] == k'.world.timer.waiters;
    assert k.world.delays[0 := Delay(0, None, true)] == k'.world.delays;
    TraceOne(Steps, k, Do(Poll(0, waker)), k');
  }

  lemma {:induction false} SecondWaits(
    y: nat, a: nat, armed: nat, since: nat, l: nat, m: nat, requested: seq<nat>, ms: nat)
    requires y > 0 && since + ms <= armed
    ensures Trace(Steps, Second(y, Some(a), Some(armed), since, [l, m], requested), [Wait(ms)],
                  Second(y, Some(a), Some(armed), since + ms, [l, m + ms], requested))
  {
    var k := Second(y, Some(a), Some(armed), since, [l, m], requested);
    assert Left(k.world, 0) == 0 && Left(k.world, 1) == y;
    assert Elapse(k, ms).lasted == [l, m + ms];
    TraceOne(Steps, k, Wait(ms), Elapse(k, ms));
  }

  function SecondSignalled(y: nat, a: nat, lasted: seq<nat>, requested: seq<nat>): Clock {
    if y <= a then Second(0, None, None, 0, lasted, requested)
    else Second(y - a, Some(a), Some(y - a), 0, lasted, requested)
  }

  lemma {:induction false} SecondSignals(y: nat, a: nat, armed: nat, lasted: seq<nat>, requested: seq<nat>)
    requires y <= LONGEST
    ensures Trace(Steps, Second(y, Some(a), Some(armed), armed, lasted, requested), [Do(Signal)],
                  SecondSignalled(y, a, lasted, requested))
  {
    var k := Second(y, Some(a), Some(armed), armed, lasted, requested);
    var aged := [None, Some(Waiter(Minus(y, a), None))] + IDLE.waiters[2..];
    assert AllAged(k.world.timer.waiters, a) == aged;
    SoonestMeaning(aged);
    assert aged[1].value.deadline == Minus(y, a);
    assert forall i :: 0 <= i < |aged| && i != 1 ==> aged[i].None?;
    TraceOne(Steps, k, Do(Signal), SecondSignalled(y, a, lasted, requested));
  }

  /** The timer runs for what is left, and the signal takes off only the stored deadline; so on. */
  function Periods(y: nat, a: nat): seq<Event>
    requires a > 0
  {
    [Wait(y), Do(Signal)] + if y <= a then [] else Periods(y - a, a)
  }

  /** For how long the timer runs in all. */
  function Ran(y: nat, a: nat): nat
    requires a > 0
  {
    y + if y <= a then 0 else Ran(y - a, a)
  }

  /** In closed form, with the number of signals that do not end the delay. */
  lemma {:induction false} RanClosed(y: nat, a: nat, n: nat)
    requires a > 0 && n * a < y <= (n + 1) * a
    ensures 2 * Ran(y, a) == 2 * (n + 1) * y - n * (n + 1) * a
    decreases n
  {
    if n > 0 {
      OneLess(y, a, n);
      RanClosed(y - a, a, n - 1);
      OneMorePeriod(y, a, n);
    }
  }

  lemma {:induction false} OneLess(y: nat, a: nat, n: nat)
    requires a > 0 && n > 0 && n * a < y <= (n + 1) * a
    ensures y > a && (n - 1) * a < y - a <= n * a
  {
    assert (n - 1) * a == n * a - a && (n + 1) * a == n * a + a;
    assert (n - 1) * a >= 0;
  }

  lemma {:induction false} OneMorePeriod(y: int, a: int, n: int)
    ensures 2 * y + (2 * n * (y - a) - (n - 1) * n * a) == 2 * (n + 1) * y - n * (n + 1) * a
  {
  }

  lemma {:induction false} SecondPeriod(y: nat, a: nat, l: nat, m: nat, requested: seq<nat>)
    requires 0 < a && 0 < y <= LONGEST
    ensures Trace(Steps, Second(y, Some(a), Some(y), 0, [l, m], requested), [Wait(y), Do(Signal)],
                  SecondSignalled(y, a, [l, m + y], requested))
  {
    var k0 := Second(y, Some(a), Some(y), 0, [l, m], requested);
    var k1 := Second(y, Some(a), Some(y), y, [l, m + y], requested);
    SecondWaits(y, a, y, 0, l, m, requested, y);
    SecondSignals(y, a, y, [l, m + y], requested);
    TraceAppend(Steps, k0, [Wait(y)], k1, [Do(Signal)], SecondSignalled(y, a, [l, m + y], requested));
    assert [Wait(y)] + [Do(Signal)] == [Wait(y), Do(Signal)];
  }

  lemma {:induction false} SecondPeriods(y: nat, a: nat, l: nat, m: nat, requested: seq<nat>)
    requires 0 < a && 0 < y <= LONGEST
    ensures Trace(Steps, Second(y, Some(a), Some(y), 0, [l, m], requested), Periods(y, a),
                  Second(0, None, None, 0, [l, m + Ran(y, a)], requested))
    decreases y
  {
    SecondPeriod(y, a, l, m, requested);
    if y <= a {
      assert Periods(y, a) == [Wait(y), Do(Signal)];
    } else {
      SecondPeriods(y - a, a, l, m + y, requested);
      TraceAppend(Steps, Second(y, Some(a), Some(y), 0, [l, m], requested), [Wait(y), Do(Signal)],
                  Second(y - a, Some(a), Some(y - a), 0, [l, m + y], requested), Periods(y - a, a),
                  Second(0, None, None, 0, [l, m + Ran(y, a)], requested));
    }
  }

  /** Both requested together, and the first over and polled. */
  lemma {:induction false} FirstOver(a: nat, b: nat, waker: nat) returns (before: seq<Event>)
    requires 0 < a < b <= LONGEST
    ensures before == [Do(Schedule(a)), Wait(0), Do(Schedule(b))] + [Wait(a), Do(Signal)] + [Do(Poll(0, waker))]
    ensures Trace(Steps, MIDNIGHT, before, Second(b - a, Some(a), Some(b - a), 0, [a, a], [a, b]))
  {
    var requests := [Do(Schedule(a)), Wait(0), Do(Schedule(b))];
    var first := requests + [Wait(a), Do(Signal)];
    TwoRequested(a, 0, b);
    Period(requests, a, b, a, a, 0, 0, 0, [a, b], a);
    FirstPolled(b - a, a, [a, a], [a, b], waker);
    before := first + [Do(Poll(0, waker))];
    TraceAppend(Steps, MIDNIGHT, first, Pair(0, b - a, Some(a), Some(b - a), 0, [a, a], [a, b]),
                [Do(Poll(0, waker))], Second(b - a, Some(a), Some(b - a), 0, [a, a], [a, b]));
  }

  /** Late, too, without a restart: of two delays requested together the second ends when the timer
      has run for what it has left after each signal, although each takes off only the first
      request. It lasts as requested exactly if it is at most twice as long as the first. */
  lemma {:induction false} MayEndLate(a: nat, b: nat, waker: nat) returns (k: Clock)
    requires 0 < a < b <= LONGEST
    ensures Passes(MIDNIGHT, [Do(Schedule(a)), Wait(0), Do(Schedule(b))] + [Wait(a), Do(Signal)]
                             + [Do(Poll(0, waker))] + Periods(b - a, a), k)
    ensures k.requested == [a, b] && IsOver(k.world, 1) && k.lasted == [a, a + Ran(b - a, a)]
    ensures k.lasted[1] >= b && (k.lasted[1] == b <==> b <= 2 * a)
  {
    var before := FirstOver(a, b, waker);
    k := Second(0, None, None, 0, [a, a + Ran(b - a, a)], [a, b]);
    SecondPeriods(b - a, a, a, a, [a, b]);
    TraceAppend(Steps, MIDNIGHT, before, Second(b - a, Some(a), Some(b - a), 0, [a, a], [a, b]), Periods(b - a, a), k);
    TracePasses(MIDNIGHT, before + Periods(b - a, a), k);
  }
}
