/** What a body does, step by step: the defers, delays, spawns and awaits on its path, in order.
    A run does exactly that, whatever happens in between; and a loop does it turn by turn. */
module Doings {
  import opened Wrappers
  import opened Programs
  import opened Machine
  import opened Ownership
  import opened Protocol
  import opened Progress

  datatype Doing =
    | Deferred
    | Armed(ms: nat)
    | Spawned(child: Prog, env: seq<int>, handles: map<nat, nat>, task: nat)
    | Awaited(task: nat, value: int)

  /** What a body learns on its way: the task that a spawn gave it, the value of an await. */
  datatype Answer = Task(t: nat) | Value(v: int)

  function AnswerOf(doing: Doing): seq<Answer> {
    match doing
    case Spawned(_, _, _, t) => [Task(t)]
    case Awaited(_, v) => [Value(v)]
    case _ => []
  }

  function AnswersOf(log: seq<Doing>): seq<Answer> {
    if log == [] then [] else AnswerOf(log[0]) + AnswersOf(log[1..])
  }

  /** What a body does with these variables, handles and answers, up to its return, to a loop, or to
      where it needs another answer. */
  function Does(p: Prog, env: seq<int>, handles: map<nat, nat>, answers: seq<Answer>): seq<Doing> {
    match p
    case Return(_) => []
    case Branch(test, yes, no) =>
      if test(env) then Does(yes, env, handles, answers) else Does(no, env, handles, answers)
    case Defer(next) => [Deferred] + Does(next, env, handles, answers)
    case Delay(ms, next) => [Armed(ms)] + Does(next, env, handles, answers)
    case Spawn(h, child, moved, next) =>
      if answers == [] || !answers[0].Task? then []
      else
        [Spawned(child, env, Restrict(handles, moved), answers[0].t)] +
        Does(next, env, Rebind(handles, moved, h, answers[0].t), answers[1..])
    case Await(h, next) =>
      if answers == [] || !answers[0].Value? || h !in handles then []
      else [Awaited(handles[h], answers[0].v)] + Does(next, env + [answers[0].v], handles, answers[1..])
    case Loop(_, _) => []
  }

  /** Where that ends: at its return, or in front of what is left. */
  datatype End =
    | Returned(env: seq<int>, handles: map<nat, nat>, left: seq<Answer>)
    | Halted(rest: Prog, env: seq<int>, handles: map<nat, nat>, left: seq<Answer>)

  function EndOf(p: Prog, env: seq<int>, handles: map<nat, nat>, answers: seq<Answer>): (end: End)
    ensures end.Halted? ==> end.rest.Spawn? || end.rest.Await? || end.rest.Loop?
  {
    match p
    case Return(_) => Returned(env, handles, answers)
    case Branch(test, yes, no) =>
      if test(env) then EndOf(yes, env, handles, answers) else EndOf(no, env, handles, answers)
    case Defer(next) => EndOf(next, env, handles, answers)
    case Delay(_, next) => EndOf(next, env, handles, answers)
    case Spawn(h, child, moved, next) =>
      if answers == [] || !answers[0].Task? then Halted(p, env, handles, answers)
      else EndOf(next, env, Rebind(handles, moved, h, answers[0].t), answers[1..])
    case Await(h, next) =>
      if answers == [] || !answers[0].Value? || h !in handles then Halted(p, env, handles, answers)
      else EndOf(next, env + [answers[0].v], handles, answers[1..])
    case Loop(_, _) => Halted(p, env, handles, answers)
  }

  /** What k does from the return of what comes before it. */
  function DoesFrom(end: End, k: Prog): seq<Doing> {
    match end
    case Returned(env, handles, left) => Does(k, env, handles, left)
    case Halted(_, _, _, _) => []
  }

  function EndFrom(end: End, k: Prog): End {
    match end
    case Returned(env, handles, left) => EndOf(k, env, handles, left)
    case Halted(rest, env, handles, left) => Halted(Then(rest, k), env, handles, left)
  }

  /** What p and then k does is what p does, and from its return what k does. */
  lemma {:induction false} ThenDoes(p: Prog, k: Prog, env: seq<int>, handles: map<nat, nat>, answers: seq<Answer>)
    ensures Does(Then(p, k), env, handles, answers) ==
            Does(p, env, handles, answers) + DoesFrom(EndOf(p, env, handles, answers), k)
  {
    match p
    case Return(_) =>
    case Branch(test, yes, no) =>
      ThenDoes(if test(env) then yes else no, k, env, handles, answers);
    case Defer(next) =>
      ThenDoes(next, k, env, handles, answers);
      Associate([Deferred], Does(next, env, handles, answers), DoesFrom(EndOf(next, env, handles, answers), k));
    case Delay(ms, next) =>
      ThenDoes(next, k, env, handles, answers);
      Associate([Armed(ms)], Does(next, env, handles, answers), DoesFrom(EndOf(next, env, handles, answers), k));
    case Spawn(h, child, moved, next) =>
      if answers != [] && answers[0].Task? {
        var u := answers[0].t;
        var held := Rebind(handles, moved, h, u);
        ThenDoes(next, k, env, held, answers[1..]);
        Associate([Spawned(child, env, Restrict(handles, moved), u)], Does(next, env, held, answers[1..]),
                  DoesFrom(EndOf(next, env, held, answers[1..]), k));
      }
    case Await(h, next) =>
      if answers != [] && answers[0].Value? && h in handles {
        var v := answers[0].v;
        ThenDoes(next, k, env + [v], handles, answers[1..]);
        Associate([Awaited(handles[h], v)], Does(next, env + [v], handles, answers[1..]),
                  DoesFrom(EndOf(next, env + [v], handles, answers[1..]), k));
      }
    case Loop(_, _) =>
  }

  lemma {:induction false} Associate<T>(xs: seq<T>, ys: seq<T>, zs: seq<T>)
    ensures xs + (ys + zs) == xs + ys + zs
  {
  }

  /** And it ends where k ends, or halts in front of what is left of p, and k. */
  lemma {:induction false} ThenEnds(p: Prog, k: Prog, env: seq<int>, handles: map<nat, nat>, answers: seq<Answer>)
    ensures EndOf(Then(p, k), env, handles, answers) == EndFrom(EndOf(p, env, handles, answers), k)
  {
    match p
    case Return(_) =>
    case Branch(test, yes, no) => ThenEnds(if test(env) then yes else no, k, env, handles, answers);
    case Defer(next) => ThenEnds(next, k, env, handles, answers);
    case Delay(_, next) => ThenEnds(next, k, env, handles, answers);
    case Spawn(h, _, moved, next) =>
      if answers != [] && answers[0].Task? {
        ThenEnds(next, k, env, Rebind(handles, moved, h, answers[0].t), answers[1..]);
      }
    case Await(_, next) =>
      if answers != [] && answers[0].Value? {
        ThenEnds(next, k, env + [answers[0].v], handles, answers[1..]);
      }
    case Loop(_, _) =>
  }

  // ----- what a run does -----

  /** What task t does in a step, as it shows in its record and in the task list. */
  function Observed(c: Config, c': Config, t: nat): seq<Doing>
    requires t < |c.tasks| && t < |c'.tasks|
  {
    var a, b := c.tasks[t], c'.tasks[t];
    if c.phase.Poll? && c.phase.t == t && |c'.tasks| > |c.tasks| then
      var child := c'.tasks[|c.tasks|];
      [Spawned(child.prog, child.env, child.handles, |c.tasks|)]
    else if b.leaf.Yielded? && !a.leaf.Yielded? then [Deferred]
    else if Waits(b) && !Waits(a) then [Armed(if a.prog.Delay? then a.prog.ms else 0)]
    else if |b.env| > |a.env| then
      [Awaited(if a.prog.Await? && a.prog.handle in a.handles then a.handles[a.prog.handle] else 0, b.env[|a.env|])]
    else []
  }

  /** The step begins another turn of a loop of task t. */
  predicate Turns(c: Config, a: Action, t: nat) {
    a.Execute? && c.phase.Poll? && c.phase.t == t && t < |c.tasks| && c.tasks[t].prog.Loop?
  }

  /** What the task has still to do; the defer or delay it waits in is done already. */
  function Rest(task: Tcb, answers: seq<Answer>): seq<Doing> {
    var does := Does(task.prog, task.env, task.handles, answers);
    if (task.prog.Defer? && task.leaf.Yielded?) || (task.prog.Delay? && Waits(task)) then does[1..] else does
  }

  function RestEnd(task: Tcb, answers: seq<Answer>): End {
    EndOf(task.prog, task.env, task.handles, answers)
  }

  /** What was to do before the step is what was done in it, and what is to do after it. */
  ghost predicate Conserved(before: Tcb, log: seq<Doing>, after: Tcb, more: seq<Answer>) {
    && Rest(before, AnswersOf(log) + more) == log + Rest(after, more)
    && RestEnd(before, AnswersOf(log) + more) == RestEnd(after, more)
  }

  /** A step in which the task does nothing. */
  lemma {:induction false} NothingDone(before: Tcb, after: Tcb, more: seq<Answer>)
    requires Untouched(before, after)
    ensures Conserved(before, [], after, more)
  {
    assert AnswersOf([]) + more == more;
  }

  lemma {:induction false} OneDone(before: Tcb, doing: Doing, after: Tcb, more: seq<Answer>)
    requires Rest(before, AnswerOf(doing) + more) == [doing] + Rest(after, more)
    requires RestEnd(before, AnswerOf(doing) + more) == RestEnd(after, more)
    ensures Conserved(before, [doing], after, more)
  {
    assert [doing][1..] == [] && AnswersOf([doing][1..]) == [];
    assert AnswersOf([doing]) == AnswerOf(doing);
  }

  /** The step left the task where it is in its body. */
  ghost predicate Untouched(a: Tcb, b: Tcb) {
    SameCode(a, b) && (a.leaf.Yielded? <==> b.leaf.Yielded?) && (Waits(a) <==> Waits(b))
  }

  /** The part of a step that does not concern the task. */
  lemma {:induction false} OthersDone(c: Config, a: Action, g: Ghosts, t: nat)
    requires Inv(c, g) && Legal(c, a) && t < |c.tasks| && !(a.Execute? && c.phase.Poll? && c.phase.t == t)
    ensures t < |Apply(c, a).tasks| && Untouched(c.tasks[t], Apply(c, a).tasks[t])
    ensures Observed(c, Apply(c, a), t) == []
  {
    if !a.Execute? {
      OutsideDone(c, a, t);
    } else if c.phase.Poll? {
      OtherPolled(c, g, t);
    } else {
      BetweenDone(c, t);
    }
  }

  lemma {:induction false} OutsideDone(c: Config, a: Action, t: nat)
    requires Legal(c, a) && t < |c.tasks| && !a.Execute?
    ensures t < |Apply(c, a).tasks| && Untouched(c.tasks[t], Apply(c, a).tasks[t])
    ensures Observed(c, Apply(c, a), t) == []
  {
  }

  lemma {:induction false} BetweenDone(c: Config, t: nat)
    requires t < |c.tasks| && !c.phase.Poll?
    ensures t < |Exec(c).tasks| && Untouched(c.tasks[t], Exec(c).tasks[t])
    ensures Observed(c, Exec(c), t) == []
  {
  }

  lemma {:induction false} OtherPolled(c: Config, g: Ghosts, t: nat)
    requires Inv(c, g) && t < |c.tasks| && c.phase.Poll? && c.phase.t != t
    ensures t < |Exec(c).tasks| && Untouched(c.tasks[t], Exec(c).tasks[t])
    ensures Observed(c, Exec(c), t) == []
  {
    var task := c.tasks[c.phase.t];
    if task.prog.Await? {
      OtherAwaits(c, g, t);
    } else {
      assert t < |Exec(c).tasks| && Exec(c).tasks[t] == c.tasks[t];
    }
  }

  lemma {:induction false} OtherAwaits(c: Config, g: Ghosts, t: nat)
    requires Inv(c, g) && t < |c.tasks| && c.phase.Poll? && c.phase.t != t && c.tasks[c.phase.t].prog.Await?
    ensures t < |Exec(c).tasks| && Untouched(c.tasks[t], Exec(c).tasks[t])
    ensures Observed(c, Exec(c), t) == []
  {
  }

  lemma {:induction false} BranchDone(c: Config, g: Ghosts, more: seq<Answer>)
    requires Inv(c, g) && c.phase.Poll? && (c.tasks[c.phase.t].prog.Branch? || c.tasks[c.phase.t].prog.Return?)
    ensures Observed(c, Exec(c), c.phase.t) == []
    ensures Conserved(c.tasks[c.phase.t], [], Exec(c).tasks[c.phase.t], more)
  {
    assert TaskOk(c, c.phase.t, g);
    assert AnswersOf([]) + more == more;
    var left := Rest(Exec(c).tasks[c.phase.t], more);
    assert [] + left == left;
  }

  lemma {:induction false} DeferDone(c: Config, g: Ghosts, more: seq<Answer>)
    requires Inv(c, g) && c.phase.Poll? && c.tasks[c.phase.t].prog.Defer?
    ensures Conserved(c.tasks[c.phase.t], Observed(c, Exec(c), c.phase.t), Exec(c).tasks[c.phase.t], more)
  {
    var t := c.phase.t;
    assert TaskOk(c, t, g);
    assert AnswersOf([]) + more == more && [] + more == more;
    if !c.tasks[t].leaf.Yielded? {
      OneDone(c.tasks[t], Deferred, Exec(c).tasks[t], more);
    }
  }

  lemma {:induction false} DelayDone(c: Config, g: Ghosts, more: seq<Answer>)
    requires Inv(c, g) && c.phase.Poll? && c.tasks[c.phase.t].prog.Delay?
    ensures Conserved(c.tasks[c.phase.t], Observed(c, Exec(c), c.phase.t), Exec(c).tasks[c.phase.t], more)
  {
    var t := c.phase.t;
    assert TaskOk(c, t, g);
    assert AnswersOf([]) + more == more && [] + more == more;
    if !Waits(c.tasks[t]) && !Exec(c).phase.Panicked? {
      OneDone(c.tasks[t], Armed(c.tasks[t].prog.ms), Exec(c).tasks[t], more);
    }
  }

  lemma {:induction false} SpawnDone(c: Config, g: Ghosts, more: seq<Answer>)
    requires Inv(c, g) && c.phase.Poll? && c.tasks[c.phase.t].prog.Spawn?
    ensures Conserved(c.tasks[c.phase.t], Observed(c, Exec(c), c.phase.t), Exec(c).tasks[c.phase.t], more)
  {
    var t := c.phase.t;
    var task, p := c.tasks[t], c.tasks[t].prog;
    assert TaskOk(c, t, g);
    if |c.tasks| >= MAX_TASKS {
      NothingDone(task, Exec(c).tasks[t], more);
    } else {
      assert ([Task(|c.tasks|)] + more)[1..] == more;
      OneDone(task, Spawned(p.child, task.env, Restrict(task.handles, p.moved), |c.tasks|), Exec(c).tasks[t], more);
    }
  }

  lemma {:induction false} AwaitDone(c: Config, g: Ghosts, more: seq<Answer>)
    requires Inv(c, g) && c.phase.Poll? && c.tasks[c.phase.t].prog.Await?
    ensures Conserved(c.tasks[c.phase.t], Observed(c, Exec(c), c.phase.t), Exec(c).tasks[c.phase.t], more)
  {
    var t := c.phase.t;
    var task := c.tasks[t];
    assert CodeOk(task, t, g) && TaskOk(c, t, g);
    var u := task.handles[task.prog.handle];
    assert TaskOk(c, u, g);
    if c.tasks[u].state.Terminated? {
      var v := c.tasks[u].exit.value;
      assert ([Value(v)] + more)[1..] == more;
      OneDone(task, Awaited(u, v), Exec(c).tasks[t], more);
    } else {
      NothingDone(task, Exec(c).tasks[t], more);
    }
  }

  /** Every step conserves what a task does, but for the turn of a loop. */
  lemma {:induction false} StepConserves(c: Config, a: Action, g: Ghosts, t: nat, more: seq<Answer>)
    requires Inv(c, g) && Legal(c, a) && t < |c.tasks| && !Turns(c, a, t)
    ensures t < |Apply(c, a).tasks|
    ensures Conserved(c.tasks[t], Observed(c, Apply(c, a), t), Apply(c, a).tasks[t], more)
  {
    if a.Execute? && c.phase.Poll? && c.phase.t == t {
      PollConserves(c, g, more);
    } else {
      OthersDone(c, a, g, t);
      NothingDone(c.tasks[t], Apply(c, a).tasks[t], more);
    }
  }

  lemma {:induction false} PollConserves(c: Config, g: Ghosts, more: seq<Answer>)
    requires Inv(c, g) && c.phase.Poll? && !c.tasks[c.phase.t].prog.Loop?
    ensures |c.tasks| <= |Exec(c).tasks|
    ensures Conserved(c.tasks[c.phase.t], Observed(c, Exec(c), c.phase.t), Exec(c).tasks[c.phase.t], more)
  {
    match c.tasks[c.phase.t].prog
    case Return(_) => BranchDone(c, g, more);
    case Branch(_, _, _) => BranchDone(c, g, more);
    case Defer(_) => DeferDone(c, g, more);
    case Delay(_, _) => DelayDone(c, g, more);
    case Spawn(_, _, _, _) => SpawnDone(c, g, more);
    case Await(_, _) => AwaitDone(c, g, more);
  }

  // ----- over runs -----

  /** What task t does in a run, in order. */
  function Log(c: Config, acts: seq<Action>, t: nat): seq<Doing>
    decreases |acts|
  {
    if acts == [] then []
    else
      var c1 := Apply(c, acts[0]);
      (if t < |c.tasks| && t < |c1.tasks| then Observed(c, c1, t) else []) + Log(c1, acts[1..], t)
  }

  predicate NoTurns(c: Config, acts: seq<Action>, t: nat)
    decreases |acts|
  {
    acts == [] || (!Turns(c, acts[0], t) && NoTurns(Apply(c, acts[0]), acts[1..], t))
  }

  lemma {:induction false} AnswersAppend(xs: seq<Doing>, ys: seq<Doing>)
    ensures AnswersOf(xs + ys) == AnswersOf(xs) + AnswersOf(ys)
  {
    if xs == [] {
      assert xs + ys == ys;
    } else {
      assert (xs + ys)[1..] == xs[1..] + ys;
      AnswersAppend(xs[1..], ys);
      Associate(AnswerOf(xs[0]), AnswersOf(xs[1..]), AnswersOf(ys));
    }
  }

  lemma {:induction false} ConservedTrans(a: Tcb, xs: seq<Doing>, b: Tcb, ys: seq<Doing>, c: Tcb, more: seq<Answer>)
    requires Conserved(a, xs, b, AnswersOf(ys) + more) && Conserved(b, ys, c, more)
    ensures Conserved(a, xs + ys, c, more)
  {
    AnswersAppend(xs, ys);
    Associate(AnswersOf(xs), AnswersOf(ys), more);
    Associate(xs, ys, Rest(c, more));
  }

  /** Whatever happens in between: a run of a task's body does what the body does, in its order, up to
      where the body is now; and what is left is what was left. */
  lemma {:induction false} RunConserves(c: Config, acts: seq<Action>, g: Ghosts, t: nat, more: seq<Answer>)
    requires Inv(c, g) && LegalRun(c, acts) && t < |c.tasks| && NoTurns(c, acts, t)
    ensures t < |Run(c, acts).tasks|
    ensures Conserved(c.tasks[t], Log(c, acts, t), Run(c, acts).tasks[t], more)
    decreases |acts|
  {
    if acts == [] {
      NothingDone(c.tasks[t], c.tasks[t], more);
    } else {
      var c1 := Apply(c, acts[0]);
      var log := Log(c1, acts[1..], t);
      StepConserves(c, acts[0], g, t, AnswersOf(log) + more);
      var g1 := ApplyKeeps(c, acts[0], g);
      RunConserves(c1, acts[1..], g1, t, more);
      ConservedTrans(c.tasks[t], Observed(c, c1, t), c1.tasks[t], log, Run(c, acts).tasks[t], more);
    }
  }

  /** A task that has terminated without a loop has done its whole body, and its exit value is what the
      body returns with the variables it had there. */
  lemma {:induction false} EndedDoesBody(c: Config, acts: seq<Action>, g: Ghosts, t: nat)
    requires Inv(c, g) && LegalRun(c, acts) && t < |c.tasks| && NoTurns(c, acts, t)
    requires t < |Run(c, acts).tasks| && Run(c, acts).tasks[t].state.Terminated?
    ensures var log, task := Log(c, acts, t), Run(c, acts).tasks[t];
            && log == Rest(c.tasks[t], AnswersOf(log))
            && RestEnd(c.tasks[t], AnswersOf(log)) == Returned(task.env, task.handles, [])
            && task.prog.Return? && task.exit == Some(task.prog.result(task.env))
  {
    var c', log := Run(c, acts), Log(c, acts, t);
    RunConserves(c, acts, g, t, []);
    var g' := RunKeeps(c, acts, g);
    assert TaskOk(c', t, g') && CodeOk(c'.tasks[t], t, g');
    assert AnswersOf(log) + [] == AnswersOf(log) && log + [] == log;
  }

  // ----- loops -----

  /** A loop does its body. From one turn of a loop to the next time that the task is at a loop, the
      task does exactly what one turn of the body does; then it is at the same loop again, with the
      variables and handles that the body has at its return, or at a loop inside the body. */
  lemma {:induction false} TurnDoesBody(c: Config, acts: seq<Action>, g: Ghosts)
    requires Inv(c, g) && AtTurn(c) && LegalRun(Exec(c), acts) && NoTurns(Exec(c), acts, c.phase.t)
    ensures var t, c' := c.phase.t, Run(Exec(c), acts);
            && t < |c'.tasks|
            && (c'.tasks[t].prog.Loop? ==>
                  var task, loop, log := c.tasks[t], c.tasks[t].prog, Log(Exec(c), acts, t);
                  var end := EndOf(loop.body, task.env, task.handles, AnswersOf(log));
                  && log == Does(loop.body, task.env, task.handles, AnswersOf(log))
                  && end.left == []
                  && end.env == c'.tasks[t].env && end.handles == c'.tasks[t].handles
                  && c'.tasks[t].prog == if end.Returned? then loop else end.rest)
  {
    var t, c1 := c.phase.t, Exec(c);
    var loop := c.tasks[t].prog;
    var g1 := ExecKeeps(c, g);
    TurnBegins(c, g);
    RunConserves(c1, acts, g1, t, []);
    var c' := Run(c1, acts);
    var log := Log(c1, acts, t);
    if c'.tasks[t].prog.Loop? {
      TurnEnds(c1.tasks[t], c.tasks[t], loop, log, c'.tasks[t]);
    }
  }

  predicate AtTurn(c: Config) {
    Turns(c, Execute, if c.phase.Poll? then c.phase.t else 0)
  }

  lemma {:induction false} TurnBegins(c: Config, g: Ghosts)
    requires Inv(c, g) && AtTurn(c)
    ensures var t, task := c.phase.t, c.tasks[c.phase.t];
            Exec(c).tasks[t] == task.(prog := Then(task.prog.body, task.prog)) && task.leaf.Fresh?
  {
    assert TaskOk(c, c.phase.t, g);
  }

  lemma {:induction false} TurnEnds(begun: Tcb, task: Tcb, loop: Prog, log: seq<Doing>, after: Tcb)
    requires loop.Loop? && after.prog.Loop? && task.leaf.Fresh? && begun == task.(prog := Then(loop.body, loop))
    requires Conserved(begun, log, after, [])
    ensures var end := EndOf(loop.body, task.env, task.handles, AnswersOf(log));
            && log == Does(loop.body, task.env, task.handles, AnswersOf(log))
            && end.left == [] && end.env == after.env && end.handles == after.handles
            && after.prog == if end.Returned? then loop else end.rest
  {
    var answers := AnswersOf(log);
    assert answers + [] == answers;
    assert log + Rest(after, []) == log;
    ThenDoes(loop.body, loop, task.env, task.handles, answers);
    ThenEnds(loop.body, loop, task.env, task.handles, answers);
  }

  // ----- answers are honest -----

  /** Every value that a task awaited is the exit value of the task it awaited, and every task that
      it spawned is there. */
  ghost predicate Honest(log: seq<Doing>, c: Config) {
    forall i :: 0 <= i < |log| ==> HonestDoing(log[i], c)
  }

  ghost predicate HonestDoing(doing: Doing, c: Config) {
    match doing
    case Awaited(u, v) => u < |c.tasks| && c.tasks[u].state.Terminated? && c.tasks[u].exit == Some(v)
    case Spawned(_, _, _, u) => u < |c.tasks|
    case _ => true
  }

  lemma {:induction false} StepHonest(c: Config, a: Action, g: Ghosts, t: nat)
    requires Inv(c, g) && Legal(c, a) && t < |c.tasks|
    ensures t < |Apply(c, a).tasks| && Honest(Observed(c, Apply(c, a), t), Apply(c, a))
  {
    if a.Execute? && c.phase.Poll? && c.phase.t == t {
      if c.tasks[t].prog.Await? {
        AwaitHonest(c, g);
      }
    } else {
      OthersDone(c, a, g, t);
    }
  }

  lemma {:induction false} AwaitHonest(c: Config, g: Ghosts)
    requires Inv(c, g) && c.phase.Poll? && c.tasks[c.phase.t].prog.Await?
    ensures Honest(Observed(c, Exec(c), c.phase.t), Exec(c))
  {
    var t := c.phase.t;
    assert CodeOk(c.tasks[t], t, g) && TaskOk(c, t, g);
    assert TaskOk(c, c.tasks[t].handles[c.tasks[t].prog.handle], g);
  }

  lemma {:induction false} HonestKept(log: seq<Doing>, c: Config, acts: seq<Action>, g: Ghosts)
    requires Inv(c, g) && LegalRun(c, acts) && Honest(log, c)
    ensures Honest(log, Run(c, acts))
  {
    forall i | 0 <= i < |log|
      ensures HonestDoing(log[i], Run(c, acts))
    {
      match log[i]
      case Awaited(u, _) => TerminationFinal(c, acts, g, u);
      case Spawned(_, _, _, u) => TasksStay(c, acts, g);
      case _ =>
    }
  }

  lemma {:induction false} TasksStay(c: Config, acts: seq<Action>, g: Ghosts)
    requires Inv(c, g) && LegalRun(c, acts)
    ensures |c.tasks| <= |Run(c, acts).tasks|
  {
    var g' := RunKeeps(c, acts, g);
  }

  lemma {:induction false} RunHonest(c: Config, acts: seq<Action>, g: Ghosts, t: nat)
    requires Inv(c, g) && LegalRun(c, acts) && t < |c.tasks|
    ensures Honest(Log(c, acts, t), Run(c, acts))
    decreases |acts|
  {
    if acts != [] {
      var c1 := Apply(c, acts[0]);
      StepHonest(c, acts[0], g, t);
      var g1 := ApplyKeeps(c, acts[0], g);
      HonestKept(Observed(c, c1, t), c1, acts[1..], g1);
      RunHonest(c1, acts[1..], g1, t);
    }
  }
}
