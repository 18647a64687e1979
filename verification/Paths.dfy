/** Sequences of states that follow one another by a relation. */
module Paths {

  ghost predicate Path<T(!new)>(next: (T, T) -> bool, path: seq<T>) {
    |path| > 0 && forall i :: 0 <= i < |path| - 1 ==> StepAt(next, path, i)
  }

  ghost predicate StepAt<T(!new)>(next: (T, T) -> bool, path: seq<T>, i: nat)
    requires i + 1 < |path|
  {
    next(path[i], path[i + 1])
  }

  lemma {:induction false} PathOne<T(!new)>(next: (T, T) -> bool, a: T, b: T)
    requires next(a, b)
    ensures Path(next, [a, b])
  {
    assert StepAt(next, [a, b], 0);
  }

  lemma {:induction false} PathFrom<T(!new)>(next: (T, T) -> bool, path: seq<T>, k: nat)
    requires Path(next, path) && k < |path|
    ensures Path(next, path[k..])
  {
    forall i | 0 <= i < |path[k..]| - 1
      ensures StepAt(next, path[k..], i)
    {
      assert StepAt(next, path, k + i);
    }
  }

  lemma {:induction false} PathTo<T(!new)>(next: (T, T) -> bool, path: seq<T>, k: nat) returns (before: seq<T>)
    requires Path(next, path) && k < |path|
    ensures before == path[..k + 1] && Path(next, before)
  {
    before := path[..k + 1];
    forall i | 0 <= i < |before| - 1
      ensures StepAt(next, before, i)
    {
      assert StepAt(next, path, i);
    }
  }

  /** Two paths, joined where they meet. */
  lemma {:induction false} PathAppend<T(!new)>(next: (T, T) -> bool, xs: seq<T>, ys: seq<T>) returns (path: seq<T>)
    requires Path(next, xs) && Path(next, ys) && xs[|xs| - 1] == ys[0]
    ensures path == xs + ys[1..] && Path(next, path)
    ensures |path| == |xs| + |ys| - 1 && path[0] == xs[0] && path[|path| - 1] == ys[|ys| - 1]
  {
    path := xs + ys[1..];
    forall i | 0 <= i < |path| - 1
      ensures StepAt(next, path, i)
    {
      if i < |xs| - 1 {
        assert StepAt(next, xs, i);
      } else {
        assert StepAt(next, ys, i - (|xs| - 1));
      }
    }
  }

  /** One state leads to the other. */
  ghost predicate Leads<T(!new)>(next: (T, T) -> bool, a: T, b: T) {
    exists path :: Path(next, path) && path[0] == a && path[|path| - 1] == b
  }

  lemma {:induction false} LeadsRefl<T(!new)>(next: (T, T) -> bool, a: T)
    ensures Leads(next, a, a)
  {
    assert Path(next, [a]);
  }

  lemma {:induction false} LeadsStep<T(!new)>(next: (T, T) -> bool, a: T, b: T)
    requires next(a, b)
    ensures Leads(next, a, b)
  {
    PathOne(next, a, b);
  }

  lemma {:induction false} LeadsTrans<T(!new)>(next: (T, T) -> bool, a: T, b: T, c: T)
    requires Leads(next, a, b) && Leads(next, b, c)
    ensures Leads(next, a, c)
  {
    var xs :| Path(next, xs) && xs[0] == a && xs[|xs| - 1] == b;
    var ys :| Path(next, ys) && ys[0] == b && ys[|ys| - 1] == c;
    var path := PathAppend(next, xs, ys);
  }

  // ----- with events -----

  /** The events lead from one state to the other. */
  ghost predicate Trace<S(!new), E(!new)>(step: (S, E, S) -> bool, a: S, events: seq<E>, b: S) {
    exists states {:trigger IsTrace(step, states, events)} ::
      IsTrace(step, states, events) && states[0] == a && states[|events|] == b
  }

  ghost predicate IsTrace<S(!new), E(!new)>(step: (S, E, S) -> bool, states: seq<S>, events: seq<E>) {
    |states| == |events| + 1 && forall i :: 0 <= i < |events| ==> EventAt(step, states, events, i)
  }

  ghost predicate EventAt<S(!new), E(!new)>(step: (S, E, S) -> bool, states: seq<S>, events: seq<E>, i: nat)
    requires i < |events| && i + 1 < |states|
  {
    step(states[i], events[i], states[i + 1])
  }

  lemma {:induction false} TraceOne<S(!new), E(!new)>(step: (S, E, S) -> bool, a: S, e: E, b: S)
    requires step(a, e, b)
    ensures Trace(step, a, [e], b)
  {
    assert EventAt(step, [a, b], [e], 0);
    assert IsTrace(step, [a, b], [e]);
  }

  lemma {:induction false} TraceAppend<S(!new), E(!new)>(
    step: (S, E, S) -> bool, a: S, xs: seq<E>, b: S, ys: seq<E>, c: S)
    requires Trace(step, a, xs, b) && Trace(step, b, ys, c)
    ensures Trace(step, a, xs + ys, c)
  {
    var ss :| IsTrace(step, ss, xs) && ss[0] == a && ss[|xs|] == b;
    var ts :| IsTrace(step, ts, ys) && ts[0] == b && ts[|ys|] == c;
    var states, events := ss + ts[1..], xs + ys;
    forall i | 0 <= i < |events|
      ensures EventAt(step, states, events, i)
    {
      if i < |xs| {
        assert EventAt(step, ss, xs, i);
      } else {
        assert EventAt(step, ts, ys, i - |xs|);
      }
    }
    assert IsTrace(step, states, events);
  }

  /** The first event of a trace, and the rest. */
  lemma {:induction false} TraceFirst<S(!new), E(!new)>(step: (S, E, S) -> bool, a: S, events: seq<E>, c: S)
    returns (b: S)
    requires Trace(step, a, events, c) && events != []
    ensures step(a, events[0], b) && Trace(step, b, events[1..], c)
  {
    var states :| IsTrace(step, states, events) && states[0] == a && states[|events|] == c;
    b := states[1];
    assert EventAt(step, states, events, 0);
    forall i | 0 <= i < |events| - 1
      ensures EventAt(step, states[1..], events[1..], i)
    {
      assert EventAt(step, states, events, i + 1);
    }
    assert IsTrace(step, states[1..], events[1..]);
  }
}
