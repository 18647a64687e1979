/** The timer behind delays: examples/stm32l4/src/async_timer.rs.

    Eight slots hold the waiting delays with the time each has left. The hardware timer is a
    one-shot that is armed with a duration or idle. Durations are in milliseconds. */
module AsyncTimers {
  import opened Wrappers

  datatype Waiter = Waiter(deadline: nat, waker: Option<nat>)

  const SLOTS: nat := 8

  /** The slots, the stored `next_deadline`, and what the hardware timer is armed with. */
  datatype Timer = Timer(waiters: seq<Option<Waiter>>, next: Option<nat>, armed: Option<nat>)

  // ----- one signal -----

  ghost predicate Unexpired(w: Option<Waiter>) {
    w.Some? && w.value.deadline > 0
  }

  /** A slot after `passed` milliseconds. */
  function Aged(w: Option<Waiter>, passed: nat): Option<Waiter> {
    match w
    case None => None
    case Some(waiter) =>
      Some(waiter.(deadline := if waiter.deadline <= passed then 0 else waiter.deadline - passed))
  }

  function AllAged(ws: seq<Option<Waiter>>, passed: nat): (r: seq<Option<Waiter>>)
    ensures |r| == |ws| && forall i :: 0 <= i < |ws| ==> r[i] == Aged(ws[i], passed)
  {
    seq(|ws|, i requires 0 <= i < |ws| => Aged(ws[i], passed))
  }

  /** The delay is over after `passed` milliseconds, and has stored a waker. */
  predicate Fires(w: Option<Waiter>, passed: nat) {
    w.Some? && w.value.deadline <= passed && w.value.waker.Some?
  }

  /** The wakers of the delays that are over after `passed` milliseconds, by slot. */
  function Over(ws: seq<Option<Waiter>>, passed: nat): seq<nat> {
    if ws == [] then []
    else
      var n := |ws| - 1;
      Over(ws[..n], passed) +
      (if Fires(ws[n], passed) then [ws[n].value.waker.value] else [])
  }

  function Least(a: Option<nat>, b: nat): Option<nat> {
    match a
    case None => Some(b)
    case Some(m) => if b < m then Some(b) else a
  }

  /** The least time left of any delay that is not over. */
  function Soonest(ws: seq<Option<Waiter>>): Option<nat> {
    if ws == [] then None
    else
      var n := |ws| - 1;
      if ws[n].Some? && ws[n].value.deadline > 0 then Least(Soonest(ws[..n]), ws[n].value.deadline)
      else Soonest(ws[..n])
  }

  /** `Soonest` is the minimum, and is there exactly when some delay is not over. */
  lemma {:induction false} SoonestMeaning(ws: seq<Option<Waiter>>)
    ensures Soonest(ws).Some? <==> exists i :: 0 <= i < |ws| && Unexpired(ws[i])
    ensures Soonest(ws).Some? ==>
              && Soonest(ws).value > 0
              && (exists i :: 0 <= i < |ws| && ws[i].Some? && ws[i].value.deadline == Soonest(ws).value)
              && (forall i :: 0 <= i < |ws| && Unexpired(ws[i]) ==> Soonest(ws).value <= ws[i].value.deadline)
    decreases |ws|
  {
    if ws != [] {
      var n := |ws| - 1;
      SoonestMeaning(ws[..n]);
      assert forall i :: 0 <= i < n ==> ws[..n][i] == ws[i];
    }
  }

  /** Exactly the stored wakers of the delays that are over are fired. */
  lemma {:induction false} OverMeaning(ws: seq<Option<Waiter>>, passed: nat, w: nat)
    ensures w in Over(ws, passed) <==>
            exists i :: 0 <= i < |ws| && ws[i].Some? && ws[i].value.deadline <= passed && ws[i].value.waker == Some(w)
    decreases |ws|
  {
    if ws != [] {
      var n := |ws| - 1;
      OverMeaning(ws[..n], passed, w);
      assert forall i :: 0 <= i < n ==> ws[..n][i] == ws[i];
    }
  }

  // ----- operations on values -----

  function FreeSlot(ws: seq<Option<Waiter>>): (i: nat)
    ensures i <= |ws| && (forall j :: 0 <= j < i ==> ws[j].Some?) && (i < |ws| ==> ws[i].None?)
  {
    if ws == [] || ws[0].None? then 0 else 1 + FreeSlot(ws[1..])
  }

  datatype Panic = SlotsTaken | NoRate

  type AtLeastOneMillihertz = ms: nat | ms >= 1_000_000 witness 1_000_000

  /** The longest duration whose rate is not rounded to zero millihertz. A million milliseconds
      have a rate of one; how longer ones are rounded is left open. */
  const LONGEST: AtLeastOneMillihertz

  /** `Timer::start`: arms the one-shot. It divides by the rate that belongs to the duration;
      zero has none, and that of a very long duration is zero. */
  function Arm(s: Timer, duration: nat): Result<Timer, Panic> {
    if 0 < duration <= LONGEST then Ok(s.(armed := Some(duration))) else Err(NoRate)
  }

  /** `schedule`: takes the first free slot, and arms the timer if this delay ends sooner than
      the stored deadline. */
  function ScheduleStep(s: Timer, deadline: nat): Result<Timer, Panic> {
    var i := FreeSlot(s.waiters);
    if i >= |s.waiters| then Err(SlotsTaken)
    else
      var taken := s.(waiters := s.waiters[i := Some(Waiter(deadline, None))]);
      if s.next.None? || deadline < s.next.value then Arm(taken.(next := Some(deadline)), deadline) else Ok(taken)
  }

  /** `has_expired`, asked by the delay in slot i: frees the slot of a delay that is over, and
      stores the waker of one that is not. */
  function PollStep(s: Timer, i: nat, waker: nat): Timer {
    if i >= |s.waiters| || s.waiters[i].None? then s
    else if s.waiters[i].value.deadline == 0 then s.(waiters := s.waiters[i := None])
    else s.(waiters := s.waiters[i := Some(s.waiters[i].value.(waker := Some(waker)))])
  }

  function PollResult(s: Timer, i: nat): bool {
    i < |s.waiters| && s.waiters[i].Some? && s.waiters[i].value.deadline == 0
  }

  /** The one-shot has run out, and `signal` is called. It arms the timer again for the soonest
      delay, but leaves the stored deadline as it was unless no delay is left. */
  function SignalStep(s: Timer): Result<Timer, Panic> {
    match s.next
    case None => Ok(s.(armed := None))
    case Some(current) =>
      var ws := AllAged(s.waiters, current);
      match Soonest(ws)
      case None => Ok(Timer(ws, None, None))
      case Some(soonest) => Arm(Timer(ws, s.next, None), soonest)
  }

  /** The wakers that `signal` fires. */
  function Fired(s: Timer): seq<nat> {
    match s.next
    case None => []
    case Some(current) => Over(s.waiters, current)
  }

  // ----- when the timer is armed -----

  ghost predicate SomeUnexpired(ws: seq<Option<Waiter>>) {
    exists i :: 0 <= i < |ws| && Unexpired(ws[i])
  }

  /** The stored deadline is there exactly when the timer is armed, which is exactly when some
      delay is not over; and both have a rate. */
  ghost predicate Inv(s: Timer) {
    && |s.waiters| == SLOTS
    && (s.next.Some? <==> SomeUnexpired(s.waiters))
    && (s.armed.Some? <==> s.next.Some?)
    && (s.next.Some? ==> 0 < s.next.value <= LONGEST)
    && (s.armed.Some? ==> 0 < s.armed.value <= LONGEST)
  }

  const IDLE: Timer := Timer([None, None, None, None, None, None, None, None], None, None)

  lemma {:induction false} IdleInv()
    ensures Inv(IDLE)
  {
  }

  /** Scheduling panics exactly when all slots are taken, or the delay is zero, or it is too long
      and would be the only one that waits; and keeps the arming invariant otherwise. */
  lemma {:induction false} ScheduleKeeps(s: Timer, deadline: nat)
    requires Inv(s)
    ensures ScheduleStep(s, deadline) == Err(SlotsTaken) <==> forall i :: 0 <= i < SLOTS ==> s.waiters[i].Some?
    ensures ScheduleStep(s, deadline).Ok? <==>
            && (exists i :: 0 <= i < SLOTS && s.waiters[i].None?)
            && deadline > 0 && (deadline <= LONGEST || SomeUnexpired(s.waiters))
    ensures ScheduleStep(s, deadline).Ok? ==> Inv(ScheduleStep(s, deadline).value)
  {
    var i := FreeSlot(s.waiters);
    if i < |s.waiters| && ScheduleStep(s, deadline).Ok? {
      var s' := ScheduleStep(s, deadline).value;
      assert Unexpired(s'.waiters[i]);
    }
  }

  lemma {:induction false} PollKeeps(s: Timer, i: nat, waker: nat)
    requires Inv(s)
    ensures Inv(PollStep(s, i, waker))
  {
    var s' := PollStep(s, i, waker);
    forall j | 0 <= j < |s.waiters|
      ensures Unexpired(s'.waiters[j]) <==> Unexpired(s.waiters[j])
    {
    }
  }

  /** A signal panics exactly if the timer cannot be armed for the soonest of the delays that go
      on, and keeps the arming invariant otherwise. */
  lemma {:induction false} SignalKeeps(s: Timer)
    requires Inv(s)
    ensures SignalStep(s).Err? <==>
            && s.next.Some? && (exists i :: 0 <= i < SLOTS && Outlasts(s.waiters[i], s.next.value))
            && (forall i :: 0 <= i < SLOTS && Outlasts(s.waiters[i], s.next.value) ==>
                  s.waiters[i].value.deadline - s.next.value > LONGEST)
    ensures SignalStep(s).Ok? ==> Inv(SignalStep(s).value)
  {
    if s.next.Some? {
      var ws := AllAged(s.waiters, s.next.value);
      SoonestMeaning(ws);
      assert forall i :: 0 <= i < SLOTS ==> (Unexpired(ws[i]) <==> Outlasts(s.waiters[i], s.next.value));
    }
  }

  /** The delay is not over after `passed` milliseconds. */
  predicate Outlasts(w: Option<Waiter>, passed: nat) {
    w.Some? && w.value.deadline > passed
  }

  /** After a signal the timer is armed with the least time left of any waiting delay, which is
      never zero. */
  lemma {:induction false} SignalArmsSoonest(s: Timer)
    requires Inv(s) && SignalStep(s).Ok?
    ensures var s' := SignalStep(s).value;
            && (s'.armed.Some? <==> SomeUnexpired(s'.waiters))
            && (s'.armed.Some? ==>
                  && s'.armed.value > 0
                  && (exists i :: 0 <= i < |s'.waiters| && Unexpired(s'.waiters[i])
                                  && s'.waiters[i].value.deadline == s'.armed.value)
                  && (forall i :: 0 <= i < |s'.waiters| && Unexpired(s'.waiters[i]) ==>
                        s'.armed.value <= s'.waiters[i].value.deadline))
  {
    if s.next.Some? {
      SoonestMeaning(AllAged(s.waiters, s.next.value));
    }
  }

  // ----- what each operation leaves -----

  /** A delay gets the first free slot. The timer is armed for it, and its deadline stored, exactly
      if none that is as short is stored; otherwise the timer runs on. */
  lemma {:induction false} ScheduleOutcome(s: Timer, deadline: nat)
    requires Inv(s) && ScheduleStep(s, deadline).Ok?
    ensures var s' := ScheduleStep(s, deadline).value;
            && (exists i :: && 0 <= i < SLOTS && s.waiters[i].None? && (forall j :: 0 <= j < i ==> s.waiters[j].Some?)
                            && s'.waiters == s.waiters[i := Some(Waiter(deadline, None))])
            && (if s.next.Some? && s.next.value <= deadline then s'.next == s.next && s'.armed == s.armed
                else s'.next == Some(deadline) && s'.armed == Some(deadline))
  {
    var i := FreeSlot(s.waiters);
    assert s.waiters[i].None?;
  }

  /** A poll changes no slot but its own, and neither the stored deadline nor the timer. */
  lemma {:induction false} PollOutcome(s: Timer, i: nat, waker: nat)
    requires i < |s.waiters|
    ensures var s' := PollStep(s, i, waker);
            && s'.next == s.next && s'.armed == s.armed && |s'.waiters| == |s.waiters|
            && (forall j :: 0 <= j < |s.waiters| && j != i ==> s'.waiters[j] == s.waiters[j])
            && s'.waiters[i] == match s.waiters[i]
                                case None => None
                                case Some(w) => if w.deadline == 0 then None else Some(w.(waker := Some(waker)))
  {
  }

  /** A signal takes the stored deadline off every delay, down to nothing. It leaves the stored
      deadline as it was while a delay goes on, and drops it with the last one. */
  lemma {:induction false} SignalOutcome(s: Timer)
    requires Inv(s) && SignalStep(s).Ok?
    ensures var s' := SignalStep(s).value;
            && |s'.waiters| == SLOTS
            && (forall i :: 0 <= i < SLOTS ==> Shortened(s.waiters[i], s'.waiters[i], s.next))
            && s'.next == if SomeUnexpired(s'.waiters) then s.next else None
  {
    if s.next.Some? {
      SoonestMeaning(AllAged(s.waiters, s.next.value));
    }
  }

  ghost predicate Shortened(before: Option<Waiter>, after: Option<Waiter>, taken: Option<nat>) {
    match before
    case None => after == None
    case Some(w) =>
      && after.Some? && after.value.waker == w.waker
      && after.value.deadline == 
         if taken.None? then w.deadline else if w.deadline > taken.value then w.deadline - taken.value else 0
  }

  // ----- the timer in memory -----

  class AsyncTimer {
    const waiters: array<Option<Waiter>>
    var nextDeadline: Option<nat>
    var armed: Option<nat>

    ghost function View(): Timer
      reads this, waiters
    {
      Timer(waiters[..], nextDeadline, armed)
    }

    ghost predicate Valid()
      reads this, waiters
    {
      Inv(View())
    }

    constructor Initialize()
      ensures Valid() && View() == IDLE && fresh(waiters)
    {
      waiters := new Option<Waiter>[SLOTS](_ => None);
      nextDeadline, armed := None, None;
      new;
      assert waiters[..] == IDLE.waiters;
    }

    /** `has_expired`, for the delay in slot `index`. */
    method HasExpired(index: nat, waker: nat) returns (expired: bool)
      requires Valid() && index < waiters.Length
      modifies waiters
      ensures Valid() && View() == PollStep(old(View()), index, waker)
      ensures expired == PollResult(old(View()), index)
    {
      PollKeeps(View(), index, waker);
      expired := false;
      match waiters[index] {
        case None =>
        case Some(waiter) =>
          if waiter.deadline == 0 {
            waiters[index] := None;
            expired := true;
          } else {
            waiters[index] := Some(waiter.(waker := Some(waker)));
          }
      }
      assert View() == PollStep(old(View()), index, waker);
    }

    /** `Timer::start` */
    method Start(duration: nat) returns (ok: bool)
      modifies this`armed
      ensures Arm(old(View()), duration) == if ok then Ok(View()) else Err(NoRate)
    {
      ok := 0 < duration <= LONGEST;
      if ok {
        armed := Some(duration);
      }
    }

    /** `schedule`; after a panic nothing is claimed of the timer. */
    method Schedule(deadline: nat) returns (r: Result<nat, Panic>)
      requires Valid()
      modifies this, waiters
      ensures match r
              case Err(panic) => ScheduleStep(old(View()), deadline) == Err(panic)
              case Ok(i) => && ScheduleStep(old(View()), deadline) == Ok(View())
                            && Valid() && i == FreeSlot(old(waiters[..])) && i < SLOTS
    {
      ScheduleKeeps(View(), deadline);
      var i := 0;
      while i < waiters.Length && waiters[i].Some?
        invariant i <= waiters.Length && forall j :: 0 <= j < i ==> waiters[j].Some?
      {
        i := i + 1;
      }
      FreeSlotIs(waiters[..], i);
      if i == waiters.Length {
        return Err(SlotsTaken);
      }
      waiters[i] := Some(Waiter(deadline, None));
      assert waiters[..] == old(waiters[..])[i := Some(Waiter(deadline, None))];
      if nextDeadline.None? || deadline < nextDeadline.value {
        nextDeadline := Some(deadline);
        var ok := Start(deadline);
        if !ok {
          return Err(NoRate);
        }
      }
      r := Ok(i);
    }

    /** One turn of the loop of `signal`. */
    method AgeSlot(i: nat, current: nat, next: Option<nat>, fired: seq<nat>)
      returns (next': Option<nat>, fired': seq<nat>)
      requires i < waiters.Length
      modifies waiters
      ensures waiters[i] == Aged(old(waiters[i]), current)
      ensures forall j :: 0 <= j < waiters.Length && j != i ==> waiters[j] == old(waiters[j])
      ensures fired' == fired + (if Fires(old(waiters[i]), current) then [old(waiters[i]).value.waker.value] else [])
      ensures next' == if Unexpired(waiters[i]) then Least(next, waiters[i].value.deadline) else next
    {
      next', fired' := next, fired;
      match waiters[i] {
        case None =>
        case Some(waiter) =>
          if waiter.deadline <= current {
            waiters[i] := Some(waiter.(deadline := 0));
            if waiter.waker.Some? {
              fired' := fired + [waiter.waker.value];
            }
          } else {
            waiters[i] := Some(waiter.(deadline := waiter.deadline - current));
            next' := Least(next, waiter.deadline - current);
          }
      }
    }

    /** The loop of `signal`: takes `current` off every waiting delay, fires the wakers of
        those that are over, and finds the soonest of the others. */
    method Age(current: nat) returns (next: Option<nat>, fired: seq<nat>)
      modifies waiters
      ensures waiters[..] == AllAged(old(waiters[..]), current)
      ensures next == Soonest(AllAged(old(waiters[..]), current)) && fired == Over(old(waiters[..]), current)
    {
      next, fired := None, [];
      ghost var before := waiters[..];
      for i := 0 to waiters.Length
        invariant forall j :: 0 <= j < i ==> waiters[j] == Aged(before[j], current)
        invariant forall j :: i <= j < waiters.Length ==> waiters[j] == before[j]
        invariant next == Soonest(AllAged(before[..i], current)) && fired == Over(before[..i], current)
      {
        OneMore(before, current, i);
        next, fired := AgeSlot(i, current, next, fired);
      }
      assert before[..waiters.Length] == before;
    }

    /** The timer has run out. The wakers that `signal` fires are returned in order; after a
        panic nothing is claimed of the timer. */
    method Signal() returns (fired: Result<seq<nat>, Panic>)
      requires Valid()
      modifies this, waiters
      ensures match fired
              case Err(panic) => SignalStep(old(View())) == Err(panic)
              case Ok(wakers) => && SignalStep(old(View())) == Ok(View())
                                 && Valid() && wakers == Fired(old(View()))
    {
      SignalKeeps(View());
      armed := None;
      match nextDeadline {
        case None => fired := Ok([]);
        case Some(current) =>
          var soonest, wakers := Age(current);
          if soonest.Some? {
            var ok := Start(soonest.value);
            if !ok {
              return Err(NoRate);
            }
          } else {
            nextDeadline := None;
          }
          fired := Ok(wakers);
      }
    }
  }

  lemma {:induction false} FreeSlotIs(ws: seq<Option<Waiter>>, i: nat)
    requires i <= |ws| && (forall j :: 0 <= j < i ==> ws[j].Some?) && (i < |ws| ==> ws[i].None?)
    ensures FreeSlot(ws) == i
  {
    var k := FreeSlot(ws);
    assert !(k < i) && !(i < k);
  }

  /** The two folds of the loop of `signal`, one slot further. */
  lemma {:induction false} OneMore(ws: seq<Option<Waiter>>, passed: nat, i: nat)
    requires i < |ws|
    ensures Over(ws[..i + 1], passed) == Over(ws[..i], passed) +
              (if Fires(ws[i], passed) then [ws[i].value.waker.value] else [])
    ensures Soonest(AllAged(ws[..i + 1], passed)) ==
              if ws[i].Some? && ws[i].value.deadline > passed
              then Least(Soonest(AllAged(ws[..i], passed)), ws[i].value.deadline - passed)
              else Soonest(AllAged(ws[..i], passed))
  {
    assert ws[..i + 1][..i] == ws[..i];
    assert AllAged(ws[..i + 1], passed)[..i] == AllAged(ws[..i], passed);
  }
}
