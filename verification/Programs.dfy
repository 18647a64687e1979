/** Task bodies, and what they mean.

    A body is what an `async` block compiles to, cut down to the operations that concern the
    executor: awaiting `defer()`, awaiting a delay that an interrupt ends, `spawn` with some
    handles moved into the new task, awaiting a handle, branching on values computed so far,
    looping for ever, and returning a value. A task's variables are the values of its awaits so
    far, in order; a spawned task captures a copy of them. Handles are named by the variable
    that holds them. */
module Programs {
  import opened Wrappers

  /** A turn of a loop ends where its body returns; `needs` are the handles that every turn
      begins with. */
  datatype Prog =
    | Return(result: seq<int> -> int)
    | Branch(test: seq<int> -> bool, yes: Prog, no: Prog)
    | Defer(next: Prog)
    | Delay(ms: nat, next: Prog)
    | Spawn(handle: nat, child: Prog, moved: set<nat>, next: Prog)
    | Await(handle: nat, next: Prog)
    | Loop(body: Prog, needs: set<nat>)

  /** The body p, and k where it returns. */
  function Then(p: Prog, k: Prog): Prog {
    match p
    case Return(_) => k
    case Branch(test, yes, no) => Branch(test, Then(yes, k), Then(no, k))
    case Defer(next) => Defer(Then(next, k))
    case Delay(ms, next) => Delay(ms, Then(next, k))
    case Spawn(h, child, moved, next) => Spawn(h, child, moved, Then(next, k))
    case Await(h, next) => Await(h, Then(next, k))
    case Loop(_, _) => p
  }

  /** The bindings of `m` whose names are in `names`. */
  function Restrict<T>(m: map<nat, T>, names: set<nat>): map<nat, T> {
    map h | h in m && h in names :: m[h]
  }

  /** Moving `names` away, and then binding `h`. */
  function Rebind<T>(m: map<nat, T>, names: set<nat>, h: nat, v: T): map<nat, T> {
    (m - names)[h := v]
  }

  /** What the borrow checker guarantees: a body uses and moves only handles that it holds.
      `JoinHandle` is not `Clone`, so a moved handle is gone. Where it returns, it still holds
      those in `kept`. */
  ghost predicate LinearTo(p: Prog, held: set<nat>, kept: set<nat>) {
    match p
    case Return(_) => kept <= held
    case Branch(_, yes, no) => LinearTo(yes, held, kept) && LinearTo(no, held, kept)
    case Defer(next) => LinearTo(next, held, kept)
    case Delay(_, next) => LinearTo(next, held, kept)
    case Spawn(h, child, moved, next) =>
      moved <= held && LinearTo(child, moved, {}) && LinearTo(next, held - moved + {h}, kept)
    case Await(h, next) => h in held && LinearTo(next, held, kept)
    case Loop(body, needs) => needs <= held && LinearTo(body, needs, needs)
  }

  ghost predicate Linear(p: Prog, held: set<nat>) {
    LinearTo(p, held, {})
  }

  /** More handles do no harm. */
  lemma {:induction false} LinearMore(p: Prog, held: set<nat>, more: set<nat>, kept: set<nat>)
    requires LinearTo(p, held, kept) && held <= more
    ensures LinearTo(p, more, kept)
  {
    match p
    case Return(_) =>
    case Branch(_, yes, no) =>
      LinearMore(yes, held, more, kept);
      LinearMore(no, held, more, kept);
    case Defer(next) => LinearMore(next, held, more, kept);
    case Delay(_, next) => LinearMore(next, held, more, kept);
    case Spawn(h, _, moved, next) => LinearMore(next, held - moved + {h}, more - moved + {h}, kept);
    case Await(_, next) => LinearMore(next, held, more, kept);
    case Loop(_, _) =>
  }

  /** One turn of a loop, and then the loop again. */
  lemma {:induction false} ThenLinear(p: Prog, held: set<nat>, loop: Prog)
    requires loop.Loop? && Linear(loop, loop.needs) && LinearTo(p, held, loop.needs)
    ensures Linear(Then(p, loop), held)
  {
    match p
    case Return(_) => LinearMore(loop, loop.needs, held, {});
    case Branch(_, yes, no) =>
      ThenLinear(yes, held, loop);
      ThenLinear(no, held, loop);
    case Defer(next) => ThenLinear(next, held, loop);
    case Delay(_, next) => ThenLinear(next, held, loop);
    case Spawn(h, _, moved, next) => ThenLinear(next, held - moved + {h}, loop);
    case Await(_, next) => ThenLinear(next, held, loop);
    case Loop(_, _) =>
  }

  /** The value of a body by direct evaluation: spawning evaluates the child on the spot,
      awaiting a handle looks its value up, and deferring or delaying does nothing. No value
      means that the body never ends: it comes to a loop, or awaits a task that never ends. */
  ghost function Eval(p: Prog, env: seq<int>, values: map<nat, Option<int>>): Option<int>
    requires Linear(p, values.Keys)
  {
    match p
    case Return(f) => Some(f(env))
    case Branch(test, yes, no) => if test(env) then Eval(yes, env, values) else Eval(no, env, values)
    case Defer(next) => Eval(next, env, values)
    case Delay(_, next) => Eval(next, env, values)
    case Spawn(h, child, moved, next) =>
      assert Restrict(values, moved).Keys == moved;
      var v := Eval(child, env, Restrict(values, moved));
      assert Rebind(values, moved, h, v).Keys == values.Keys - moved + {h};
      Eval(next, env, Rebind(values, moved, h, v))
    case Await(h, next) =>
      (match values[h]
       case None => None
       case Some(v) => Eval(next, env + [v], values))
    case Loop(_, _) => None
  }

  /** What comes to a loop never ends. */
  lemma {:induction false} ThenNeverEnds(p: Prog, loop: Prog, env: seq<int>, values: map<nat, Option<int>>)
    requires loop.Loop? && Linear(loop, loop.needs) && LinearTo(p, values.Keys, loop.needs)
    ensures Linear(Then(p, loop), values.Keys) && Eval(Then(p, loop), env, values) == None
  {
    ThenLinear(p, values.Keys, loop);
    match p
    case Return(_) =>
    case Branch(_, yes, no) =>
      ThenNeverEnds(yes, loop, env, values);
      ThenNeverEnds(no, loop, env, values);
    case Defer(next) => ThenNeverEnds(next, loop, env, values);
    case Delay(_, next) => ThenNeverEnds(next, loop, env, values);
    case Spawn(h, child, moved, next) =>
      assert Restrict(values, moved).Keys == moved;
      var v := Eval(child, env, Restrict(values, moved));
      assert Rebind(values, moved, h, v).Keys == values.Keys - moved + {h};
      ThenNeverEnds(next, loop, env, Rebind(values, moved, h, v));
    case Await(h, next) =>
      if values[h].Some? {
        ThenNeverEnds(next, loop, env + [values[h].value], values);
      }
    case Loop(_, _) =>
  }

  /** Which delays a body may have. */
  datatype Lengths = NoDelay | AnyDelay | Positive | UpTo(most: nat)

  predicate Allowed(ms: nat, delays: Lengths) {
    match delays
    case NoDelay => false
    case AnyDelay => true
    case Positive => ms > 0
    case UpTo(most) => 0 < ms <= most
  }

  /** The body has only delays of the given lengths, and loops only if they are allowed. */
  ghost predicate Within(p: Prog, loops: bool, delays: Lengths) {
    match p
    case Return(_) => true
    case Branch(_, yes, no) => Within(yes, loops, delays) && Within(no, loops, delays)
    case Defer(next) => Within(next, loops, delays)
    case Delay(ms, next) => Allowed(ms, delays) && Within(next, loops, delays)
    case Spawn(_, child, _, next) => Within(child, loops, delays) && Within(next, loops, delays)
    case Await(_, next) => Within(next, loops, delays)
    case Loop(body, _) => loops && Within(body, loops, delays)
  }

  lemma {:induction false} ThenWithin(p: Prog, k: Prog, loops: bool, delays: Lengths)
    requires Within(p, loops, delays) && Within(k, loops, delays)
    ensures Within(Then(p, k), loops, delays)
  {
    match p
    case Return(_) =>
    case Branch(_, yes, no) =>
      ThenWithin(yes, k, loops, delays);
      ThenWithin(no, k, loops, delays);
    case Defer(next) => ThenWithin(next, k, loops, delays);
    case Delay(_, next) => ThenWithin(next, k, loops, delays);
    case Spawn(_, _, _, next) => ThenWithin(next, k, loops, delays);
    case Await(_, next) => ThenWithin(next, k, loops, delays);
    case Loop(_, _) =>
  }

  function Max(a: nat, b: nat): nat {
    if a >= b then a else b
  }

  /** An upper bound on the work of a body up to its next loop; a spawn weighs its whole child,
      and the flag that makes the child ready. */
  ghost function Weight(p: Prog): (w: nat)
    ensures w >= 2
  {
    match p
    case Return(_) => 2
    case Branch(_, yes, no) => 1 + Max(Weight(yes), Weight(no))
    case Defer(next) => 2 + Weight(next)
    case Delay(_, next) => 6 + Weight(next)
    case Spawn(_, child, _, next) => 2 + Weight(child) + Weight(next)
    case Await(_, next) => 1 + Weight(next)
    case Loop(_, _) => 2
  }

  /** How many tasks a body may spawn, with all they spawn in turn. */
  function Spawns(p: Prog): nat {
    match p
    case Return(_) => 0
    case Branch(_, yes, no) => Max(Spawns(yes), Spawns(no))
    case Defer(next) => Spawns(next)
    case Delay(_, next) => Spawns(next)
    case Spawn(_, child, _, next) => 1 + Spawns(child) + Spawns(next)
    case Await(_, next) => Spawns(next)
    case Loop(body, _) => Spawns(body)
  }

  /** No loop of the body spawns. */
  ghost predicate CountedSpawns(p: Prog) {
    match p
    case Return(_) => true
    case Branch(_, yes, no) => CountedSpawns(yes) && CountedSpawns(no)
    case Defer(next) => CountedSpawns(next)
    case Delay(_, next) => CountedSpawns(next)
    case Spawn(_, child, _, next) => CountedSpawns(child) && CountedSpawns(next)
    case Await(_, next) => CountedSpawns(next)
    case Loop(body, _) => Spawns(body) == 0
  }
}
