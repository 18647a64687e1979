/** The part of the machine's invariant that concerns code and handles: every handle has one
    holder, holders are ranked below what they hold, and what is left of a body still
    evaluates to the value that the task was spawned for. */
module Ownership {
  import opened Wrappers
  import opened Programs
  import opened Machine

  /** Per task, the value its body evaluates to, if it ends, and a rank that grows from a holder to what
      it holds. Ranks are dense, so that a new task fits between its parent and the handles
      moved into it. */
  datatype Ghosts = Ghosts(values: seq<Option<int>>, ranks: seq<real>)

  ghost predicate InRange(handles: map<nat, nat>, n: nat) {
    forall h :: h in handles ==> handles[h] < n
  }

  function Targets(handles: map<nat, nat>, values: seq<Option<int>>): map<nat, Option<int>> {
    map h | h in handles && handles[h] < |values| :: values[handles[h]]
  }

  /** The code of one task: well typed, meaning its value, and ranked below its handles. */
  ghost predicate CodeOk(task: Tcb, t: nat, g: Ghosts)
    requires t < |g.values| == |g.ranks|
  {
    && InRange(task.handles, |g.values|)
    && Linear(task.prog, task.handles.Keys)
    && Evaluates(task.prog, task.env, task.handles, g.values, g.values[t])
    && RankedAbove(task.handles, g.ranks, g.ranks[t])
  }

  ghost predicate Evaluates(p: Prog, env: seq<int>, handles: map<nat, nat>, values: seq<Option<int>>, v: Option<int>) {
    Linear(p, Targets(handles, values).Keys) && Eval(p, env, Targets(handles, values)) == v
  }

  ghost predicate RankedAbove(handles: map<nat, nat>, ranks: seq<real>, r: real) {
    forall h :: h in handles ==> handles[h] < |ranks| && r < ranks[handles[h]]
  }

  /** The handles of task i, or of the code outside for i = -1. */
  function HandlesOf(tasks: seq<Tcb>, main: map<nat, nat>, i: int): map<nat, nat>
    requires -1 <= i < |tasks|
  {
    if i == -1 then main else tasks[i].handles
  }

  /** No two variables, of one holder or of two, hold a handle of the same task. */
  ghost predicate SoleHolders(tasks: seq<Tcb>, main: map<nat, nat>) {
    forall i, h, j, k | -1 <= i < |tasks| && -1 <= j < |tasks|
                        && h in HandlesOf(tasks, main, i) && k in HandlesOf(tasks, main, j)
                        && HandlesOf(tasks, main, i)[h] == HandlesOf(tasks, main, j)[k] ::
      i == j && h == k
  }

  ghost predicate CodeInv(tasks: seq<Tcb>, main: map<nat, nat>, g: Ghosts) {
    && |tasks| == |g.values| == |g.ranks|
    && InRange(main, |tasks|)
    && (forall t :: 0 <= t < |tasks| ==> CodeOk(tasks[t], t, g))
    && SoleHolders(tasks, main)
  }

  // ----- steps that leave code and handles alone -----

  lemma {:induction false} SoleHoldersSame(tasks: seq<Tcb>, tasks': seq<Tcb>, main: map<nat, nat>)
    requires SoleHolders(tasks, main) && |tasks'| == |tasks|
    requires forall t :: 0 <= t < |tasks| ==> tasks'[t].handles == tasks[t].handles
    ensures SoleHolders(tasks', main)
  {
    assert forall i :: -1 <= i < |tasks| ==> HandlesOf(tasks', main, i) == HandlesOf(tasks, main, i);
  }

  ghost predicate SameCode(a: Tcb, b: Tcb) {
    a.prog == b.prog && a.env == b.env && a.handles == b.handles
  }

  lemma {:induction false} SameCodeKept(tasks: seq<Tcb>, tasks': seq<Tcb>, main: map<nat, nat>, g: Ghosts)
    requires CodeInv(tasks, main, g) && |tasks'| == |tasks|
    requires forall t :: 0 <= t < |tasks| ==> SameCode(tasks[t], tasks'[t])
    ensures CodeInv(tasks', main, g)
  {
    forall t | 0 <= t < |tasks|
      ensures CodeOk(tasks'[t], t, g)
    {
      assert CodeOk(tasks[t], t, g) && SameCode(tasks[t], tasks'[t]);
    }
    SoleHoldersSame(tasks, tasks', main);
  }

  // ----- steps inside one body -----

  /** Going on in the body with the same handles. */
  lemma {:induction false} BodyAdvances(tasks: seq<Tcb>, t: nat, task: Tcb, main: map<nat, nat>, g: Ghosts)
    requires CodeInv(tasks, main, g) && t < |tasks| && task.handles == tasks[t].handles
    requires Linear(task.prog, task.handles.Keys)
    requires Evaluates(task.prog, task.env, task.handles, g.values, g.values[t])
    ensures CodeInv(tasks[t := task], main, g)
  {
    var tasks' := tasks[t := task];
    forall i | 0 <= i < |tasks|
      ensures CodeOk(tasks'[i], i, g)
    {
      assert CodeOk(tasks[i], i, g);
    }
    SoleHoldersSame(tasks, tasks', main);
  }

  lemma {:induction false} TargetsKeys(handles: map<nat, nat>, values: seq<Option<int>>)
    requires InRange(handles, |values|)
    ensures Targets(handles, values).Keys == handles.Keys
  {
  }

  lemma {:induction false} TargetsRestrict(handles: map<nat, nat>, values: seq<Option<int>>, moved: set<nat>)
    requires InRange(handles, |values|)
    ensures Targets(Restrict(handles, moved), values) == Restrict(Targets(handles, values), moved)
  {
  }

  lemma {:induction false} TargetsRebind(
    handles: map<nat, nat>, values: seq<Option<int>>, moved: set<nat>, h: nat, v: Option<int>)
    requires InRange(handles, |values|)
    ensures Targets(Rebind(handles, moved, h, |values|), values + [v]) == Rebind(Targets(handles, values), moved, h, v)
  {
  }

  lemma {:induction false} TargetsGrow(handles: map<nat, nat>, values: seq<Option<int>>, v: Option<int>)
    requires InRange(handles, |values|)
    ensures Targets(handles, values + [v]) == Targets(handles, values)
  {
  }

  // ----- spawning -----

  /** A rank between a lower bound and the ranks of what `names` hold. */
  lemma {:induction false} RankBetween(low: real, handles: map<nat, nat>, ranks: seq<real>, names: set<nat>)
    returns (r: real)
    requires names <= handles.Keys && RankedAbove(handles, ranks, low)
    ensures low < r && forall h :: h in names ==> r < ranks[handles[h]]
    decreases names
  {
    if names == {} {
      r := low + 1.0;
    } else {
      var h :| h in names;
      var q := RankBetween(low, handles, ranks, names - {h});
      var x := ranks[handles[h]];
      r := (low + if q < x then q else x) / 2.0;
    }
  }

  /** A rank below the ranks of what `names` hold. */
  lemma {:induction false} RankBelow(handles: map<nat, nat>, ranks: seq<real>, names: set<nat>) returns (r: real)
    requires names <= handles.Keys && InRange(handles, |ranks|)
    ensures forall h :: h in names ==> r < ranks[handles[h]]
    decreases names
  {
    if names == {} {
      r := 0.0;
    } else {
      var h :| h in names;
      var q := RankBelow(handles, ranks, names - {h});
      var x := ranks[handles[h]];
      r := (if q < x then q else x) - 1.0;
    }
  }

  /** The holder of a new handle, with the moved handles taken away. */
  lemma {:induction false} HolderOk(
    task: Tcb, t: nat, h: nat, child: Prog, moved: set<nat>, next: Prog, g: Ghosts, v: Option<int>, r: real)
    requires |g.values| == |g.ranks| && t < |g.values| && CodeOk(task, t, g)
    requires task.prog == Spawn(h, child, moved, next)
    requires Evaluates(child, task.env, Restrict(task.handles, moved), g.values, v)
    requires g.ranks[t] < r
    ensures CodeOk(task.(prog := next, handles := Rebind(task.handles, moved, h, |g.values|)), t,
                   Ghosts(g.values + [v], g.ranks + [r]))
  {
    TargetsKeys(task.handles, g.values);
    TargetsRestrict(task.handles, g.values, moved);
    TargetsRebind(task.handles, g.values, moved, h, v);
    assert Restrict(Targets(task.handles, g.values), moved).Keys == moved;
    assert Rebind(Targets(task.handles, g.values), moved, h, v).Keys == task.handles.Keys - moved + {h};
    assert Rebind(task.handles, moved, h, |g.values|).Keys == task.handles.Keys - moved + {h};
  }

  /** The new task, with the moved handles. */
  lemma {:induction false} ChildOk(
    body: Prog, env: seq<int>, handles: map<nat, nat>, moved: set<nat>, g: Ghosts, v: Option<int>, r: real)
    requires |g.values| == |g.ranks| && InRange(handles, |g.values|)
    requires moved <= handles.Keys && Linear(body, moved)
    requires Evaluates(body, env, Restrict(handles, moved), g.values, v)
    requires RankedAbove(Restrict(handles, moved), g.ranks, r)
    ensures CodeOk(NewTask(body, env, Restrict(handles, moved)), |g.values|, Ghosts(g.values + [v], g.ranks + [r]))
  {
    TargetsGrow(Restrict(handles, moved), g.values, v);
    assert Restrict(handles, moved).Keys == moved;
  }

  lemma {:induction false} OtherOk(task: Tcb, t: nat, g: Ghosts, v: Option<int>, r: real)
    requires |g.values| == |g.ranks| && t < |g.values| && CodeOk(task, t, g)
    ensures CodeOk(task, t, Ghosts(g.values + [v], g.ranks + [r]))
  {
    TargetsGrow(task.handles, g.values, v);
  }

  /** The value and the rank of the task that a spawn adds. */
  lemma {:induction false} SpawnGhosts(
    body: Prog, env: seq<int>, handles: map<nat, nat>, moved: set<nat>, g: Ghosts, bounded: bool, low: real)
    returns (v: Option<int>, r: real)
    requires |g.values| == |g.ranks| && InRange(handles, |g.values|)
    requires moved <= handles.Keys && Linear(body, moved)
    requires bounded ==> RankedAbove(handles, g.ranks, low)
    ensures Evaluates(body, env, Restrict(handles, moved), g.values, v)
    ensures RankedAbove(Restrict(handles, moved), g.ranks, r) && (bounded ==> low < r)
  {
    TargetsKeys(Restrict(handles, moved), g.values);
    assert Restrict(handles, moved).Keys == moved;
    v := Eval(body, env, Targets(Restrict(handles, moved), g.values));
    if bounded {
      r := RankBetween(low, handles, g.ranks, moved);
    } else {
      r := RankBelow(handles, g.ranks, moved);
    }
  }

  /** Holder i spawns: its moved handles go to the new task, whose handle it gets. No other
      holder changes, so every handle still has one holder. */
  lemma {:induction false} SoleHoldersSpawn(
    tasks: seq<Tcb>, main: map<nat, nat>, tasks': seq<Tcb>, main': map<nat, nat>, i: int, h: nat, moved: set<nat>)
    requires SoleHolders(tasks, main) && -1 <= i < |tasks| && |tasks'| == |tasks| + 1
    requires InRange(main, |tasks|) && forall t :: 0 <= t < |tasks| ==> InRange(tasks[t].handles, |tasks|)
    requires forall j :: -1 <= j < |tasks| && j != i ==> HandlesOf(tasks', main', j) == HandlesOf(tasks, main, j)
    requires HandlesOf(tasks', main', i) == Rebind(HandlesOf(tasks, main, i), moved, h, |tasks|)
    requires HandlesOf(tasks', main', |tasks|) == Restrict(HandlesOf(tasks, main, i), moved)
    ensures SoleHolders(tasks', main')
  {
    forall a, x, b, y | -1 <= a < |tasks'| && -1 <= b < |tasks'|
                        && x in HandlesOf(tasks', main', a) && y in HandlesOf(tasks', main', b)
                        && HandlesOf(tasks', main', a)[x] == HandlesOf(tasks', main', b)[y]
      ensures a == b && x == y
    {
      var a0, b0 := if a == |tasks| then i else a, if b == |tasks| then i else b;
      HolderBefore(tasks, main, tasks', main', i, h, moved, a, x);
      HolderBefore(tasks, main, tasks', main', i, h, moved, b, y);
    }
  }

  /** Where a handle was before the spawn: it is the new one, or it had the same name, and
      was with the spawner if it is with the new task. */
  lemma {:induction false} HolderBefore(
    tasks: seq<Tcb>, main: map<nat, nat>, tasks': seq<Tcb>, main': map<nat, nat>,
    i: int, h: nat, moved: set<nat>, a: int, x: nat)
    requires -1 <= i < |tasks| && |tasks'| == |tasks| + 1
    requires InRange(main, |tasks|) && forall t :: 0 <= t < |tasks| ==> InRange(tasks[t].handles, |tasks|)
    requires forall j :: -1 <= j < |tasks| && j != i ==> HandlesOf(tasks', main', j) == HandlesOf(tasks, main, j)
    requires HandlesOf(tasks', main', i) == Rebind(HandlesOf(tasks, main, i), moved, h, |tasks|)
    requires HandlesOf(tasks', main', |tasks|) == Restrict(HandlesOf(tasks, main, i), moved)
    requires -1 <= a < |tasks'| && x in HandlesOf(tasks', main', a)
    ensures HandlesOf(tasks', main', a)[x] == |tasks| ==> a == i && x == h
    ensures HandlesOf(tasks', main', a)[x] != |tasks| ==>
              var a0 := if a == |tasks| then i else a;
              && x in HandlesOf(tasks, main, a0) && HandlesOf(tasks, main, a0)[x] == HandlesOf(tasks', main', a)[x]
              && (a == |tasks| ==> x in moved) && (a == i ==> x !in moved)
  {
    if a == i {
    } else if a == |tasks| {
      assert InRange(HandlesOf(tasks, main, i), |tasks|);
    } else {
      assert InRange(HandlesOf(tasks, main, a), |tasks|);
    }
  }

  /** A task spawns a child. */
  lemma {:induction false} TaskSpawns(tasks: seq<Tcb>, main: map<nat, nat>, t: nat, g: Ghosts) returns (g': Ghosts)
    requires CodeInv(tasks, main, g) && t < |tasks| && tasks[t].prog.Spawn?
    ensures var p := tasks[t].prog;
            var parent := tasks[t].(prog := p.next, handles := Rebind(tasks[t].handles, p.moved, p.handle, |tasks|));
            var child := NewTask(p.child, tasks[t].env, Restrict(tasks[t].handles, p.moved));
            CodeInv(tasks[t := parent] + [child], main, g')
    ensures |g'.values| == |g.values| + 1 && g.values <= g'.values
  {
    var task, p := tasks[t], tasks[t].prog;
    assert CodeOk(task, t, g);
    var v, r := SpawnGhosts(p.child, task.env, task.handles, p.moved, g, true, g.ranks[t]);
    g' := Ghosts(g.values + [v], g.ranks + [r]);
    var parent := task.(prog := p.next, handles := Rebind(task.handles, p.moved, p.handle, |tasks|));
    var child := NewTask(p.child, task.env, Restrict(task.handles, p.moved));
    HolderOk(task, t, p.handle, p.child, p.moved, p.next, g, v, r);
    ChildOk(p.child, task.env, task.handles, p.moved, g, v, r);
    AllCodeOk(tasks, main, t, parent, child, g, v, r);
    AllInRange(tasks, main, g);
    TaskSpawnHolders(tasks, main, t, p.handle, p.moved, parent, child);
  }

  lemma {:induction false} TaskSpawnHolders(
    tasks: seq<Tcb>, main: map<nat, nat>, t: nat, h: nat, moved: set<nat>, parent: Tcb, child: Tcb)
    requires SoleHolders(tasks, main) && t < |tasks|
    requires InRange(main, |tasks|) && forall i :: 0 <= i < |tasks| ==> InRange(tasks[i].handles, |tasks|)
    requires parent.handles == Rebind(tasks[t].handles, moved, h, |tasks|)
    requires child.handles == Restrict(tasks[t].handles, moved)
    ensures SoleHolders(tasks[t := parent] + [child], main)
  {
    var tasks' := tasks[t := parent] + [child];
    assert forall j :: -1 <= j < |tasks| && j != t ==> HandlesOf(tasks', main, j) == HandlesOf(tasks, main, j);
    SoleHoldersSpawn(tasks, main, tasks', main, t, h, moved);
  }

  lemma {:induction false} AllCodeOk(
    tasks: seq<Tcb>, main: map<nat, nat>, t: nat, parent: Tcb, child: Tcb, g: Ghosts, v: Option<int>, r: real)
    requires CodeInv(tasks, main, g) && t < |tasks|
    requires CodeOk(parent, t, Ghosts(g.values + [v], g.ranks + [r]))
    requires CodeOk(child, |tasks|, Ghosts(g.values + [v], g.ranks + [r]))
    ensures var tasks' := tasks[t := parent] + [child];
            forall i :: 0 <= i < |tasks'| ==> CodeOk(tasks'[i], i, Ghosts(g.values + [v], g.ranks + [r]))
  {
    var tasks' := tasks[t := parent] + [child];
    forall i | 0 <= i < |tasks'|
      ensures CodeOk(tasks'[i], i, Ghosts(g.values + [v], g.ranks + [r]))
    {
      if i < |tasks| && i != t {
        assert CodeOk(tasks[i], i, g);
        OtherOk(tasks[i], i, g, v, r);
      }
    }
  }

  lemma {:induction false} AllInRange(tasks: seq<Tcb>, main: map<nat, nat>, g: Ghosts)
    requires CodeInv(tasks, main, g)
    ensures forall t :: 0 <= t < |tasks| ==> InRange(tasks[t].handles, |tasks|)
  {
    forall t | 0 <= t < |tasks|
      ensures InRange(tasks[t].handles, |tasks|)
    {
      assert CodeOk(tasks[t], t, g);
    }
  }

  /** The code outside spawns a task. */
  lemma {:induction false} MainSpawns(
    tasks: seq<Tcb>, main: map<nat, nat>, h: nat, body: Prog, env: seq<int>, moved: set<nat>, g: Ghosts)
    returns (g': Ghosts)
    requires CodeInv(tasks, main, g) && moved <= main.Keys && Linear(body, moved)
    ensures CodeInv(tasks + [NewTask(body, env, Restrict(main, moved))], Rebind(main, moved, h, |tasks|), g')
    ensures |g'.values| == |g.values| + 1 && g.values <= g'.values
    ensures Evaluates(body, env, Restrict(main, moved), g.values, g'.values[|tasks|])
  {
    var v, r := SpawnGhosts(body, env, main, moved, g, false, 0.0);
    g' := Ghosts(g.values + [v], g.ranks + [r]);
    var tasks', main' := tasks + [NewTask(body, env, Restrict(main, moved))], Rebind(main, moved, h, |tasks|);
    ChildOk(body, env, main, moved, g, v, r);
    forall i | 0 <= i < |tasks'|
      ensures CodeOk(tasks'[i], i, g')
    {
      if i < |tasks| {
        assert CodeOk(tasks[i], i, g);
        OtherOk(tasks[i], i, g, v, r);
      }
    }
    AllInRange(tasks, main, g);
    SoleHoldersSpawn(tasks, main, tasks', main', -1, h, moved);
  }

  /** Handles dropped by the code outside. */
  lemma {:induction false} MainDrops(tasks: seq<Tcb>, main: map<nat, nat>, moved: set<nat>, g: Ghosts)
    requires CodeInv(tasks, main, g)
    ensures CodeInv(tasks, main - moved, g)
  {
    forall i, h, j, k | -1 <= i < |tasks| && -1 <= j < |tasks|
                        && h in HandlesOf(tasks, main - moved, i) && k in HandlesOf(tasks, main - moved, j)
                        && HandlesOf(tasks, main - moved, i)[h] == HandlesOf(tasks, main - moved, j)[k]
      ensures i == j && h == k
    {
      assert h in HandlesOf(tasks, main, i) && k in HandlesOf(tasks, main, j);
      assert HandlesOf(tasks, main, i)[h] == HandlesOf(tasks, main, j)[k];
    }
  }
}
