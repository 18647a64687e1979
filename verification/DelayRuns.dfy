/** Runs of the timer with the delays that use it: examples/stm32l4/src/async_timer.rs.

    Delays are numbered in the order in which they were scheduled. Each remembers its slot and
    the waker it stored last, and is polled until a poll finds that it is over. */
module DelayRuns {
  import opened Wrappers
  import opened AsyncTimers

  datatype Delay = Delay(slot: nat, last: Option<nat>, over: bool)

  datatype World = World(timer: Timer, delays: seq<Delay>)

  datatype Op = Schedule(deadline: nat) | Poll(id: nat, waker: nat) | Signal

  /** `Delay::poll` */
  function PollDelay(w: World, id: nat, waker: nat): World {
    if id >= |w.delays| then w
    else
      var d := w.delays[id];
      World(PollStep(w.timer, d.slot, waker),
            w.delays[id := if PollResult(w.timer, d.slot) then d.(over := true) else d.(last := Some(waker))])
  }

  function Apply(w: World, op: Op): Result<World, Panic> {
    match op
    case Schedule(deadline) =>
      (match ScheduleStep(w.timer, deadline)
       case Err(panic) => Err(panic)
       case Ok(timer) => Ok(World(timer, w.delays + [Delay(FreeSlot(w.timer.waiters), None, false)])))
    case Poll(id, waker) => Ok(PollDelay(w, id, waker))
    case Signal =>
      (match SignalStep(w.timer)
       case Err(panic) => Err(panic)
       case Ok(timer) => Ok(w.(timer := timer)))
  }

  /** A run ends at a panic. */
  function Run(w: World, ops: seq<Op>): Result<World, Panic>
    decreases |ops|
  {
    if ops == [] then Ok(w)
    else
      match Apply(w, ops[0])
      case Err(panic) => Err(panic)
      case Ok(w1) => Run(w1, ops[1..])
  }

  ghost predicate Unfinished(w: World, id: nat) {
    id < |w.delays| && !w.delays[id].over
  }

  /** What the language guarantees: a delay is polled through its own future, and not again
      after that has returned. */
  ghost predicate Legal(w: World, op: Op) {
    op.Poll? ==> Unfinished(w, op.id)
  }

  ghost predicate LegalRun(w: World, ops: seq<Op>)
    decreases |ops|
  {
    ops == [] || (Legal(w, ops[0]) && (Apply(w, ops[0]).Ok? ==> LegalRun(Apply(w, ops[0]).value, ops[1..])))
  }

  lemma {:induction false} RunAppend(w: World, xs: seq<Op>, ys: seq<Op>)
    requires Run(w, xs).Ok?
    ensures Run(w, xs + ys) == Run(Run(w, xs).value, ys)
    ensures LegalRun(w, xs + ys) <==> LegalRun(w, xs) && LegalRun(Run(w, xs).value, ys)
    decreases |xs|
  {
    if xs == [] {
      assert xs + ys == ys;
    } else {
      assert (xs + ys)[1..] == xs[1..] + ys;
      RunAppend(Apply(w, xs[0]).value, xs[1..], ys);
    }
  }

  const NOTHING: World := World(IDLE, [])

  // ----- counting -----

  /** How many delays are not finished. */
  function Count(delays: seq<Delay>): nat {
    if delays == [] then 0 else Count(delays[..|delays| - 1]) + if delays[|delays| - 1].over then 0 else 1
  }

  /** How many slots are taken. */
  function Taken(ws: seq<Option<Waiter>>): nat {
    if ws == [] then 0 else Taken(ws[..|ws| - 1]) + if ws[|ws| - 1].Some? then 1 else 0
  }

  lemma {:induction false} CountUpdate(delays: seq<Delay>, id: nat, d: Delay)
    requires id < |delays|
    ensures Count(delays[id := d]) == Count(delays) - (if delays[id].over then 0 else 1) + (if d.over then 0 else 1)
    decreases |delays|
  {
    var n := |delays| - 1;
    if id == n {
      assert delays[id := d][..n] == delays[..n];
    } else {
      assert delays[id := d][..n] == delays[..n][id := d];
      CountUpdate(delays[..n], id, d);
    }
  }

  lemma {:induction false} TakenUpdate(ws: seq<Option<Waiter>>, i: nat, w: Option<Waiter>)
    requires i < |ws|
    ensures Taken(ws[i := w]) == Taken(ws) - (if ws[i].Some? then 1 else 0) + (if w.Some? then 1 else 0)
    decreases |ws|
  {
    var n := |ws| - 1;
    if i == n {
      assert ws[i := w][..n] == ws[..n];
    } else {
      assert ws[i := w][..n] == ws[..n][i := w];
      TakenUpdate(ws[..n], i, w);
    }
  }

  lemma {:induction false} TakenAged(ws: seq<Option<Waiter>>, passed: nat)
    ensures Taken(AllAged(ws, passed)) == Taken(ws)
    decreases |ws|
  {
    if ws != [] {
      var n := |ws| - 1;
      TakenAged(ws[..n], passed);
      assert AllAged(ws, passed)[..n] == AllAged(ws[..n], passed);
    }
  }

  /** All slots are taken exactly when the count says so. */
  lemma {:induction false} TakenAll(ws: seq<Option<Waiter>>)
    ensures Taken(ws) <= |ws|
    ensures Taken(ws) == |ws| <==> forall i :: 0 <= i < |ws| ==> ws[i].Some?
    decreases |ws|
  {
    if ws != [] {
      var n := |ws| - 1;
      TakenAll(ws[..n]);
      assert forall i :: 0 <= i < n ==> ws[..n][i] == ws[i];
    }
  }

  // ----- who owns a slot -----

  /** The slot of an unfinished delay holds the waker that the delay stored last. */
  ghost predicate Holds(w: World, id: nat) {
    Unfinished(w, id) ==>
      var d := w.delays[id];
      d.slot < |w.timer.waiters| && w.timer.waiters[d.slot].Some? && w.timer.waiters[d.slot].value.waker == d.last
  }

  ghost predicate Owns(w: World, id: nat, i: nat) {
    Unfinished(w, id) && w.delays[id].slot == i
  }

  ghost predicate Owned(w: World, i: nat) {
    exists id :: 0 <= id < |w.delays| && Owns(w, id, i)
  }

  /** The timer is armed as it should be, and slots and unfinished delays belong together: each
      such delay has a slot, no two have the same, and no slot is taken by anything else. */
  ghost predicate WorldInv(w: World) {
    && Inv(w.timer)
    && (forall id :: 0 <= id < |w.delays| ==> Holds(w, id))
    && (forall id: nat, other: nat, i: nat :: Owns(w, id, i) && Owns(w, other, i) ==> id == other)
    && (forall i :: 0 <= i < SLOTS && w.timer.waiters[i].Some? ==> Owned(w, i))
    && Count(w.delays) == Taken(w.timer.waiters)
  }

  /** What scheduling adds. */
  ghost predicate Adds(w: World, w': World, i: nat, deadline: nat) {
    && i < |w.timer.waiters| && w.timer.waiters[i].None?
    && w'.timer.waiters == w.timer.waiters[i := Some(Waiter(deadline, None))]
    && w'.delays == w.delays + [Delay(i, None, false)]
  }

  lemma {:induction false} AddedHolds(w: World, w': World, i: nat, deadline: nat)
    requires WorldInv(w) && Adds(w, w', i, deadline)
    ensures forall id :: 0 <= id < |w'.delays| ==> Holds(w', id)
    ensures Count(w'.delays) == Taken(w'.timer.waiters)
  {
    TakenUpdate(w.timer.waiters, i, Some(Waiter(deadline, None)));
    assert w'.delays[..|w.delays|] == w.delays;
    forall id | 0 <= id < |w'.delays|
      ensures Holds(w', id)
    {
      assert id < |w.delays| ==> Holds(w, id);
    }
  }

  lemma {:induction false} AddedOwns(w: World, w': World, i: nat, deadline: nat)
    requires WorldInv(w) && Adds(w, w', i, deadline)
    ensures forall j :: 0 <= j < SLOTS && w'.timer.waiters[j].Some? ==> Owned(w', j)
    ensures forall id: nat, other: nat, j: nat :: Owns(w', id, j) && Owns(w', other, j) ==> id == other
  {
    assert Owns(w', |w.delays|, i);
    forall j | 0 <= j < SLOTS && w'.timer.waiters[j].Some?
      ensures Owned(w', j)
    {
      if j != i {
        var id :| 0 <= id < |w.delays| && Owns(w, id, j);
        assert Owns(w', id, j);
      }
    }
    forall id: nat, other: nat, j: nat | Owns(w', id, j) && Owns(w', other, j)
      ensures id == other
    {
      assert id < |w.delays| ==> Owns(w, id, j) && Holds(w, id);
      assert other < |w.delays| ==> Owns(w, other, j) && Holds(w, other);
    }
  }

  lemma {:induction false} ScheduleWorld(w: World, deadline: nat)
    requires WorldInv(w) && Apply(w, Schedule(deadline)).Ok?
    ensures WorldInv(Apply(w, Schedule(deadline)).value)
  {
    var w' := Apply(w, Schedule(deadline)).value;
    ScheduleKeeps(w.timer, deadline);
    AddedHolds(w, w', FreeSlot(w.timer.waiters), deadline);
    AddedOwns(w, w', FreeSlot(w.timer.waiters), deadline);
  }

  lemma {:induction false} PollWorld(w: World, id: nat, waker: nat)
    requires WorldInv(w) && Unfinished(w, id)
    ensures WorldInv(PollDelay(w, id, waker))
  {
    var w' := PollDelay(w, id, waker);
    var i := w.delays[id].slot;
    assert Holds(w, id) && Owns(w, id, i);
    PollKeeps(w.timer, i, waker);
    CountUpdate(w.delays, id, w'.delays[id]);
    TakenUpdate(w.timer.waiters, i, w'.timer.waiters[i]);
    forall k | 0 <= k < |w.delays|
      ensures Holds(w', k)
    {
      assert Holds(w, k);
      assert k != id && Unfinished(w, k) ==> !Owns(w, k, i);
    }
    forall j | 0 <= j < SLOTS && w'.timer.waiters[j].Some?
      ensures Owned(w', j)
    {
      var k :| 0 <= k < |w.delays| && Owns(w, k, j);
      assert Owns(w', k, j);
    }
    forall k: nat, other: nat, j: nat | Owns(w', k, j) && Owns(w', other, j)
      ensures k == other
    {
      assert Owns(w, k, j) && Owns(w, other, j);
    }
  }

  lemma {:induction false} SignalWorld(w: World)
    requires WorldInv(w) && Apply(w, Signal).Ok?
    ensures WorldInv(Apply(w, Signal).value)
  {
    var w' := Apply(w, Signal).value;
    SignalKeeps(w.timer);
    if w.timer.next.Some? {
      TakenAged(w.timer.waiters, w.timer.next.value);
    }
    forall id | 0 <= id < |w.delays|
      ensures Holds(w', id)
    {
      assert Holds(w, id);
    }
    forall j | 0 <= j < SLOTS && w'.timer.waiters[j].Some?
      ensures Owned(w', j)
    {
      var k :| 0 <= k < |w.delays| && Owns(w, k, j);
      assert Owns(w', k, j);
    }
    forall k: nat, other: nat, j: nat | Owns(w', k, j) && Owns(w', other, j)
      ensures k == other
    {
      assert Owns(w, k, j) && Owns(w, other, j);
    }
  }

  lemma {:induction false} ApplyKeeps(w: World, op: Op)
    requires WorldInv(w) && Legal(w, op) && Apply(w, op).Ok?
    ensures WorldInv(Apply(w, op).value)
  {
    match op
    case Schedule(deadline) => ScheduleWorld(w, deadline);
    case Poll(id, waker) => PollWorld(w, id, waker);
    case Signal => SignalWorld(w);
  }

  lemma {:induction false} RunKeeps(w: World, ops: seq<Op>)
    requires WorldInv(w) && LegalRun(w, ops) && Run(w, ops).Ok?
    ensures WorldInv(Run(w, ops).value)
    decreases |ops|
  {
    if ops != [] {
      ApplyKeeps(w, ops[0]);
      RunKeeps(Apply(w, ops[0]).value, ops[1..]);
    }
  }

  /** Every run from an idle timer keeps slots and unfinished delays together, and the timer is
      armed exactly while some delay is not over. */
  lemma {:induction false} Reachable(ops: seq<Op>)
    requires LegalRun(NOTHING, ops) && Run(NOTHING, ops).Ok?
    ensures WorldInv(Run(NOTHING, ops).value)
  {
    IdleInv();
    TakenAll(IDLE.waiters);
    assert Taken(IDLE.waiters) == 0 by {
      NoneTaken(IDLE.waiters);
    }
    RunKeeps(NOTHING, ops);
  }

  lemma {:induction false} NoneTaken(ws: seq<Option<Waiter>>)
    requires forall i :: 0 <= i < |ws| ==> ws[i].None?
    ensures Taken(ws) == 0
    decreases |ws|
  {
    if ws != [] {
      NoneTaken(ws[..|ws| - 1]);
    }
  }

  /** Scheduling panics exactly for a ninth unfinished delay, for a delay of zero, and for one
      that has no rate while no other waits. */
  lemma {:induction false} SchedulePanics(w: World, deadline: nat)
    requires WorldInv(w)
    ensures Apply(w, Schedule(deadline)) == Err(SlotsTaken) <==> Count(w.delays) >= 8
    ensures Apply(w, Schedule(deadline)) == Err(NoRate) <==>
            && Count(w.delays) < 8
            && (deadline == 0 || (deadline > LONGEST && forall id :: 0 <= id < |w.delays| ==> !Waits(w, id)))
  {
    TakenAll(w.timer.waiters);
    ScheduleKeeps(w.timer, deadline);
    SomeWaits(w);
  }

  /** The delay is unfinished and has time left. */
  ghost predicate Waits(w: World, id: nat) {
    Unfinished(w, id) && Holds(w, id) && TimeLeft(w, id) > 0
  }

  lemma {:induction false} SomeWaits(w: World)
    requires WorldInv(w)
    ensures SomeUnexpired(w.timer.waiters) <==> exists id :: 0 <= id < |w.delays| && Waits(w, id)
  {
    if SomeUnexpired(w.timer.waiters) {
      var i :| 0 <= i < |w.timer.waiters| && Unexpired(w.timer.waiters[i]);
      assert Owned(w, i);
      var id :| 0 <= id < |w.delays| && Owns(w, id, i);
      assert Holds(w, id) && Waits(w, id);
    }
    if id :| 0 <= id < |w.delays| && Waits(w, id) {
      assert Unexpired(w.timer.waiters[w.delays[id].slot]);
    }
  }

  /** A signal panics exactly if each of the delays that go on has more left than the timer can
      be armed with, and there is one. */
  lemma {:induction false} SignalPanics(w: World)
    requires WorldInv(w)
    ensures Apply(w, Signal).Err? <==>
            && (exists id :: 0 <= id < |w.delays| && GoesOn(w, id))
            && (forall id :: 0 <= id < |w.delays| && GoesOn(w, id) ==>
                  TimeLeft(w, id) - w.timer.next.value > LONGEST)
  {
    SignalKeeps(w.timer);
    var ws := w.timer.waiters;
    if w.timer.next.Some? {
      var current := w.timer.next.value;
      forall i | 0 <= i < SLOTS && Outlasts(ws[i], current)
        ensures exists id :: 0 <= id < |w.delays| && GoesOn(w, id) && w.delays[id].slot == i
      {
        assert Owned(w, i);
        var id :| 0 <= id < |w.delays| && Owns(w, id, i);
        assert Holds(w, id) && GoesOn(w, id);
      }
      forall id | 0 <= id < |w.delays| && GoesOn(w, id)
        ensures Outlasts(ws[w.delays[id].slot], current)
      {
      }
    }
  }

  /** No delay that waits is longer than the timer can be armed with. */
  ghost predicate Short(s: Timer) {
    forall i :: 0 <= i < |s.waiters| && s.waiters[i].Some? ==> s.waiters[i].value.deadline <= LONGEST
  }

  /** As long as only such delays are scheduled, the timer can be armed. */
  lemma {:induction false} ShortKept(w: World, op: Op)
    requires WorldInv(w) && Short(w.timer) && (op.Schedule? ==> 0 < op.deadline <= LONGEST)
    ensures Apply(w, op).Ok? ==> Short(Apply(w, op).value.timer)
    ensures Apply(w, op).Err? ==> op.Schedule? && Apply(w, op) == Err(SlotsTaken)
  {
    match op
    case Schedule(deadline) => ScheduleKeeps(w.timer, deadline);
    case Poll(_, _) =>
    case Signal => SignalKeeps(w.timer);
  }

  /** The next signal does not end the delay. */
  ghost predicate GoesOn(w: World, id: nat) {
    Unfinished(w, id) && Holds(w, id) && w.timer.next.Some? && TimeLeft(w, id) > w.timer.next.value
  }

  // ----- the stored deadline -----

  /** The request of the last operation that armed the timer: a schedule while no delay waited, or
      one shorter than the last that did. */
  ghost function LastArming(ops: seq<Op>): Option<nat> {
    if ops == [] then None
    else
      var before, op := ops[..|ops| - 1], ops[|ops| - 1];
      Later(LastArming(before), NothingWaits(Run(NOTHING, before)), op)
  }

  function Later(last: Option<nat>, nothingWaits: bool, op: Op): Option<nat> {
    if op.Schedule? && (nothingWaits || last.None? || op.deadline < last.value) then Some(op.deadline) else last
  }

  ghost predicate NothingWaits(w: Result<World, Panic>) {
    w.Ok? ==> forall id :: 0 <= id < |w.value.delays| ==> !Waits(w.value, id)
  }

  /** Over every run from an idle timer the stored deadline is the request of the last schedule
      that armed the timer, as long as a delay waits; no signal and no poll changes it. */
  lemma {:induction false} StoredDeadline(ops: seq<Op>)
    requires LegalRun(NOTHING, ops) && Run(NOTHING, ops).Ok?
    ensures Run(NOTHING, ops).value.timer.next ==
            if NothingWaits(Run(NOTHING, ops)) then None else LastArming(ops)
    decreases |ops|
  {
    if ops == [] {
      NextThere(ops);
    } else {
      var before, op := ops[..|ops| - 1], ops[|ops| - 1];
      assert ops == before + [op];
      NextStep(before, op);
      StoredDeadline(before);
      StoredStep(before, op);
    }
  }

  lemma {:induction false} StoredStep(before: seq<Op>, op: Op)
    requires LegalRun(NOTHING, before + [op]) && Run(NOTHING, before + [op]).Ok?
    requires LegalRun(NOTHING, before) && Run(NOTHING, before).Ok?
    requires Run(NOTHING, before).value.timer.next ==
             if NothingWaits(Run(NOTHING, before)) then None else LastArming(before)
    ensures Run(NOTHING, before + [op]).value.timer.next ==
            if NothingWaits(Run(NOTHING, before + [op])) then None else LastArming(before + [op])
  {
    var next, next' := Run(NOTHING, before).value.timer.next, Run(NOTHING, before + [op]).value.timer.next;
    NextStep(before, op);
    NextThere(before);
    NextThere(before + [op]);
    assert (before + [op])[..|before|] == before;
    assert LastArming(before + [op]) == Later(LastArming(before), next.None?, op);
    assert next'.Some? ==> next' == Later(LastArming(before), next.None?, op);
  }

  lemma {:induction false} NextThere(ops: seq<Op>)
    requires LegalRun(NOTHING, ops) && Run(NOTHING, ops).Ok?
    ensures Run(NOTHING, ops).value.timer.next.None? <==> NothingWaits(Run(NOTHING, ops))
  {
    Reachable(ops);
    SomeWaits(Run(NOTHING, ops).value);
  }

  /** What one more operation does to the stored deadline. */
  lemma {:induction false} NextStep(before: seq<Op>, op: Op)
    requires LegalRun(NOTHING, before + [op]) && Run(NOTHING, before + [op]).Ok?
    ensures LegalRun(NOTHING, before) && Run(NOTHING, before).Ok?
    ensures NextMoves(Run(NOTHING, before).value.timer.next, op, Run(NOTHING, before + [op]).value.timer.next)
  {
    PrefixRun(before, op);
    Reachable(before);
    NextAfter(Run(NOTHING, before).value, op);
  }

  predicate NextMoves(next: Option<nat>, op: Op, next': Option<nat>) {
    if op.Schedule? then next' == if next.Some? && next.value <= op.deadline then next else Some(op.deadline)
    else next' == None || next' == next
  }

  lemma {:induction false} NextAfter(w: World, op: Op)
    requires WorldInv(w) && Legal(w, op) && Apply(w, op).Ok?
    ensures NextMoves(w.timer.next, op, Apply(w, op).value.timer.next)
  {
    match op
    case Schedule(deadline) => ScheduleOutcome(w.timer, deadline);
    case Poll(id, waker) =>
      assert Holds(w, id);
      PollOutcome(w.timer, w.delays[id].slot, waker);
    case Signal => SignalOutcome(w.timer);
  }

  lemma {:induction false} PrefixRun(before: seq<Op>, op: Op)
    requires LegalRun(NOTHING, before + [op]) && Run(NOTHING, before + [op]).Ok?
    ensures LegalRun(NOTHING, before) && Run(NOTHING, before).Ok?
    ensures Legal(Run(NOTHING, before).value, op)
    ensures Run(NOTHING, before + [op]) == Apply(Run(NOTHING, before).value, op)
  {
    PrefixOk(NOTHING, before, [op]);
    RunAppend(NOTHING, before, [op]);
    var w := Run(NOTHING, before).value;
    assert Run(w, [op]) == if Apply(w, op).Ok? then Run(Apply(w, op).value, []) else Apply(w, op);
  }

  lemma {:induction false} PrefixOk(w: World, xs: seq<Op>, ys: seq<Op>)
    requires Run(w, xs + ys).Ok?
    ensures Run(w, xs).Ok?
    decreases |xs|
  {
    if xs != [] {
      assert (xs + ys)[1..] == xs[1..] + ys;
      PrefixOk(Apply(w, xs[0]).value, xs[1..], ys);
    }
  }

  // ----- the waker that is fired -----

  /** The milliseconds that an unfinished delay has left. */
  function TimeLeft(w: World, id: nat): nat
    requires Unfinished(w, id) && Holds(w, id)
  {
    w.timer.waiters[w.delays[id].slot].value.deadline
  }

  /** The signal finds the delay over. */
  ghost predicate Due(w: World, id: nat) {
    Unfinished(w, id) && Holds(w, id) && w.timer.next.Some? && TimeLeft(w, id) <= w.timer.next.value
  }

  /** A signal fires exactly what the delays that are due stored last. */
  lemma {:induction false} FiresOwners(w: World, waker: nat)
    requires WorldInv(w)
    ensures waker in Fired(w.timer) <==>
            exists id :: 0 <= id < |w.delays| && Due(w, id) && w.delays[id].last == Some(waker)
  {
    var ws := w.timer.waiters;
    if w.timer.next.Some? {
      var current := w.timer.next.value;
      OverMeaning(ws, current, waker);
      if waker in Fired(w.timer) {
        var i :| 0 <= i < |ws| && ws[i].Some? && ws[i].value.deadline <= current && ws[i].value.waker == Some(waker);
        assert Owned(w, i);
        var id :| 0 <= id < |w.delays| && Owns(w, id, i);
        assert Holds(w, id) && Due(w, id);
      }
    }
  }

  /** The waker that a run stored last for the delay. */
  function LastPoll(ops: seq<Op>, id: nat): Option<nat> {
    if ops == [] then None
    else
      var later := LastPoll(ops[1..], id);
      if later.None? && ops[0].Poll? && ops[0].id == id then Some(ops[0].waker) else later
  }

  lemma {:induction false} LastIsLast(w: World, ops: seq<Op>, id: nat)
    requires LegalRun(w, ops) && Run(w, ops).Ok? && Unfinished(Run(w, ops).value, id)
    ensures Run(w, ops).value.delays[id].last ==
            if LastPoll(ops, id).Some? then LastPoll(ops, id)
            else if id < |w.delays| then w.delays[id].last else None
    ensures id < |w.delays| ==> !w.delays[id].over
    decreases |ops|
  {
    if ops != [] {
      LastIsLast(Apply(w, ops[0]).value, ops[1..], id);
    }
  }

  /** Over all runs from an idle timer: the waker fired when a delay ends is the one that its
      owner's poll stored last, and no other waker is fired. */
  lemma {:induction false} FiresLatest(ops: seq<Op>)
    requires LegalRun(NOTHING, ops) && Run(NOTHING, ops).Ok?
    ensures var w := Run(NOTHING, ops).value;
            && (forall id :: 0 <= id < |w.delays| && Due(w, id) && LastPoll(ops, id).Some? ==>
                  LastPoll(ops, id).value in Fired(w.timer))
            && (forall waker :: waker in Fired(w.timer) ==>
                  exists id :: 0 <= id < |w.delays| && Due(w, id) && LastPoll(ops, id) == Some(waker))
  {
    Reachable(ops);
    var w := Run(NOTHING, ops).value;
    forall id | 0 <= id < |w.delays| && Due(w, id)
      ensures w.delays[id].last == LastPoll(ops, id)
      ensures LastPoll(ops, id).Some? ==> LastPoll(ops, id).value in Fired(w.timer)
    {
      LastIsLast(NOTHING, ops, id);
      if LastPoll(ops, id).Some? {
        FiresOwners(w, LastPoll(ops, id).value);
      }
    }
    forall waker | waker in Fired(w.timer)
      ensures exists id :: 0 <= id < |w.delays| && Due(w, id) && LastPoll(ops, id) == Some(waker)
    {
      FiresOwners(w, waker);
      var id :| 0 <= id < |w.delays| && Due(w, id) && w.delays[id].last == Some(waker);
    }
  }

  // ----- every delay ends -----

  /** A poll returns exactly when no time is left. */
  lemma {:induction false} PollReturns(w: World, id: nat, waker: nat)
    requires WorldInv(w) && Unfinished(w, id)
    ensures Holds(w, id)
    ensures PollDelay(w, id, waker).delays[id].over <==> TimeLeft(w, id) == 0
  {
    assert Holds(w, id);
  }

  /** The end of a delay is never missed: the signal leaves no time, so that the next poll
      returns; and a waker that was stored before is fired. */
  lemma {:induction false} EndIsSeen(w: World, id: nat, waker: nat)
    requires WorldInv(w) && Due(w, id)
    ensures Apply(w, Signal).Ok? ==> PollDelay(Apply(w, Signal).value, id, waker).delays[id].over
    ensures w.delays[id].last.Some? ==> w.delays[id].last.value in Fired(w.timer)
  {
    if Apply(w, Signal).Ok? {
      SignalWorld(w);
      PollReturns(Apply(w, Signal).value, id, waker);
    }
    if w.delays[id].last.Some? {
      FiresOwners(w, w.delays[id].last.value);
    }
  }

  function Signals(ops: seq<Op>): nat {
    if ops == [] then 0 else (if ops[0].Signal? then 1 else 0) + Signals(ops[1..])
  }

  /** The delay has no time left, or its poll has returned. */
  ghost predicate IsOver(w: World, id: nat) {
    id < |w.delays| && (w.delays[id].over || (Holds(w, id) && TimeLeft(w, id) == 0))
  }

  /** At some point of the run the delay is over. */
  ghost predicate Ends(w: World, ops: seq<Op>, id: nat) {
    exists k :: 0 <= k <= |ops| && Run(w, ops[..k]).Ok? && IsOver(Run(w, ops[..k]).value, id)
  }

  /** Every delay ends, after at most as many signals as it has milliseconds left, whatever is
      scheduled and polled meanwhile. */
  lemma {:induction false} DelayEnds(w: World, ops: seq<Op>, id: nat)
    requires WorldInv(w) && LegalRun(w, ops) && Run(w, ops).Ok? && Unfinished(w, id) && Holds(w, id)
    requires Signals(ops) >= TimeLeft(w, id)
    ensures Ends(w, ops, id)
    decreases |ops|
  {
    if TimeLeft(w, id) == 0 {
      assert ops[..0] == [] && IsOver(Run(w, ops[..0]).value, id);
    } else {
      var w1 := Apply(w, ops[0]).value;
      ApplyKeeps(w, ops[0]);
      StillThere(w, ops[0], id);
      DelayEnds(w1, ops[1..], id);
      var k :| 0 <= k <= |ops[1..]| && Run(w1, ops[1..][..k]).Ok? && IsOver(Run(w1, ops[1..][..k]).value, id);
      assert ops[..k + 1][1..] == ops[1..][..k];
      assert IsOver(Run(w, ops[..k + 1]).value, id);
    }
  }

  /** A waiting delay stays unfinished, and has less time left after every signal. */
  lemma {:induction false} StillThere(w: World, op: Op, id: nat)
    requires WorldInv(w) && Legal(w, op) && Apply(w, op).Ok?
    requires Unfinished(w, id) && Holds(w, id) && TimeLeft(w, id) > 0
    ensures var w' := Apply(w, op).value;
            && Unfinished(w', id) && Holds(w', id)
            && (if op.Signal? then TimeLeft(w', id) < TimeLeft(w, id) else TimeLeft(w', id) == TimeLeft(w, id))
  {
    ApplyKeeps(w, op);
    assert Holds(Apply(w, op).value, id);
    match op
    case Schedule(_) =>
    case Poll(other, waker) =>
      var i := w.delays[id].slot;
      assert Owns(w, id, i);
      assert other != id ==> !Owns(w, other, i);
    case Signal =>
      assert Unexpired(w.timer.waiters[w.delays[id].slot]);
  }

  /** The milliseconds left; none, once the delay is over. */
  ghost function Left(w: World, id: nat): nat {
    if Unfinished(w, id) && Holds(w, id) then TimeLeft(w, id) else 0
  }

  /** Only a signal changes what a delay has left: it takes the stored deadline off, as far as
      that goes. */
  lemma {:induction false} LeftAfter(w: World, op: Op, id: nat)
    requires WorldInv(w) && Legal(w, op) && Apply(w, op).Ok? && id < |w.delays|
    ensures Left(Apply(w, op).value, id) ==
            if op.Signal? && w.timer.next.Some? then
              if Left(w, id) <= w.timer.next.value then 0 else Left(w, id) - w.timer.next.value
            else Left(w, id)
  {
    ApplyKeeps(w, op);
    var w' := Apply(w, op).value;
    assert Holds(w, id) && Holds(w', id);
    match op
    case Schedule(_) =>
    case Poll(other, waker) =>
      if Unfinished(w, id) && other != id {
        assert Owns(w, id, w.delays[id].slot) && !Owns(w, other, w.delays[id].slot);
      }
    case Signal =>
  }
}
