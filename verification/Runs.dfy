/** Runs of a transition system, given by its initial states and its labelled steps. */
module Runs {
  import opened Common

  /** `run` visits the states between the events `ev`, starting at an initial state. */
  ghost predicate IsRun<S(!new), E(!new)>(init: S -> bool, step: (S, E, S) -> bool, run: seq<S>, ev: seq<E>) {
    && |run| == |ev| + 1
    && init(run[0])
    && forall i {:trigger ev[i]} :: 0 <= i < |ev| ==> step(run[i], ev[i], run[i + 1])
  }

  /** Some run ends in `st`. */
  ghost predicate Reachable<S(!new), E(!new)>(init: S -> bool, step: (S, E, S) -> bool, st: S) {
    exists run: seq<S>, ev: seq<E> :: IsRun(init, step, run, ev) && run[|run| - 1] == st
  }

  lemma ReachableStart<S(!new), E(!new)>(init: S -> bool, step: (S, E, S) -> bool, st: S)
    requires init(st)
    ensures Reachable(init, step, st)
  {
    var run, ev: seq<E> := [st], [];
    assert IsRun(init, step, run, ev) && run[|run| - 1] == st;
  }

  lemma Extend<S(!new), E(!new)>(
    init: S -> bool, step: (S, E, S) -> bool, run: seq<S>, ev: seq<E>, e: E, s: S)
    requires IsRun(init, step, run, ev) && step(run[|ev|], e, s)
    ensures IsRun(init, step, run + [s], ev + [e])
  {
    var run', ev' := run + [s], ev + [e];
    forall k | 0 <= k < |ev'| ensures step(run'[k], ev'[k], run'[k + 1]) {
      if k < |ev| {
        assert step(run[k], ev[k], run[k + 1]);
      }
    }
  }

  lemma ReachableStep<S(!new), E(!new)>(init: S -> bool, step: (S, E, S) -> bool, st: S, e: E, st': S)
    requires Reachable(init, step, st) && step(st, e, st')
    ensures Reachable(init, step, st')
  {
    var run: seq<S>, ev: seq<E> :| IsRun(init, step, run, ev) && run[|run| - 1] == st;
    var run', ev' := run + [st'], ev + [e];
    Extend(init, step, run, ev, e, st');
    assert IsRun(init, step, run', ev') && run'[|run'| - 1] == st';
  }

  /**
   * Induction over a run: what holds at one of its states and is kept by every step holds
   * from there on.
   */
  lemma {:induction false} Along<S(!new), E(!new)>(
    init: S -> bool, step: (S, E, S) -> bool, inv: S -> bool, run: seq<S>, ev: seq<E>, i: nat, n: nat)
    requires IsRun(init, step, run, ev) && i <= n < |run| && inv(run[i])
    requires forall s, e, s' {:trigger step(s, e, s')} :: inv(s) && step(s, e, s') ==> inv(s')
    ensures inv(run[n])
    decreases n
  {
    if i < n {
      Along(init, step, inv, run, ev, i, n - 1);
      assert step(run[n - 1], ev[n - 1], run[n]);
    }
  }

  /** What only the steps of one kind bring about, and nothing undoes, has come from one. */
  lemma {:induction false} ComesFrom<S(!new), E(!new)>(
    init: S -> bool, step: (S, E, S) -> bool, flag: S -> bool, at: (S, E) -> bool, run: seq<S>, ev: seq<E>, n: nat)
    requires IsRun(init, step, run, ev) && n < |run| && !flag(run[0])
    requires forall s, e, s' {:trigger step(s, e, s')} :: step(s, e, s') ==> (flag(s') <==> flag(s) || at(s, e))
    ensures flag(run[n]) <==> exists k {:trigger at(run[k], ev[k])} :: 0 <= k < n && at(run[k], ev[k])
    decreases n
  {
    if n > 0 {
      ComesFrom(init, step, flag, at, run, ev, n - 1);
      assert step(run[n - 1], ev[n - 1], run[n]);
    }
  }

  /** How many of the first `n` steps of a run satisfy `at`. */
  ghost function Count<S(!new), E(!new)>(at: (S, E) -> bool, run: seq<S>, ev: seq<E>, n: nat): nat
    requires |run| == |ev| + 1 && n <= |ev|
  {
    if n == 0 then 0 else Count(at, run, ev, n - 1) + if at(run[n - 1], ev[n - 1]) then 1 else 0
  }

  lemma {:induction false} CountPositive<S(!new), E(!new)>(at: (S, E) -> bool, run: seq<S>, ev: seq<E>, n: nat)
    requires |run| == |ev| + 1 && n <= |ev|
    ensures Count(at, run, ev, n) > 0 <==> exists k :: 0 <= k < n && at(run[k], ev[k])
    decreases n
  {
    if n > 0 {
      CountPositive(at, run, ev, n - 1);
    }
  }

  /** How many of the events satisfy `mine`. */
  function Steps<E>(mine: E -> bool, ev: seq<E>): nat {
    if ev == [] then 0 else Steps(mine, ev[..|ev| - 1]) + if mine(ev[|ev| - 1]) then 1 else 0
  }

  lemma StepsOneMore<E>(mine: E -> bool, ev: seq<E>, i: nat, j: nat)
    requires i < j <= |ev|
    ensures Steps(mine, ev[i..j]) == Steps(mine, ev[i..j - 1]) + if mine(ev[j - 1]) then 1 else 0
  {
    assert ev[i..j][..j - i - 1] == ev[i..j - 1];
  }

  lemma StepsTake<E>(mine: E -> bool, ev: seq<E>, n: nat)
    requires n < |ev|
    ensures Steps(mine, ev[..n + 1]) == Steps(mine, ev[..n]) + if mine(ev[n]) then 1 else 0
  {
    assert ev[..n + 1][..n] == ev[..n];
  }

  /**
   * A ranking: as long as `stop` is not reached, no step raises the rank and each of `mine`
   * lowers it, so there are no more of those than the rank one started from.
   */
  lemma {:induction false} Descends<S(!new), E(!new)>(
    init: S -> bool, step: (S, E, S) -> bool, due: S -> bool, stop: S -> bool, rank: S -> nat, mine: E -> bool,
    run: seq<S>, ev: seq<E>, i: nat, j: nat)
    requires IsRun(init, step, run, ev) && i <= j < |run| && due(run[i])
    requires forall s, e, s' {:trigger step(s, e, s')} :: due(s) && step(s, e, s') && !stop(s') ==>
               due(s') && rank(s') + (if mine(e) then 1 else 0) <= rank(s)
    requires forall k {:trigger stop(run[k])} :: i <= k <= j ==> !stop(run[k])
    ensures due(run[j]) && rank(run[j]) + Steps(mine, ev[i..j]) <= rank(run[i])
    decreases j
  {
    if i < j {
      Descends(init, step, due, stop, rank, mine, run, ev, i, j - 1);
      assert step(run[j - 1], ev[j - 1], run[j]);
      assert !stop(run[j]);
      StepsOneMore(mine, ev, i, j);
    }
  }

  // ---------------------------------------------------------------- components

  /**
   * One component of a composed system: `view` is its part of the state, and `part` the step
   * it takes part in a step of the whole with, if any.
   */
  ghost predicate Component<S(!new), E(!new), T(!new), F(!new)>(
    init: S -> bool, step: (S, E, S) -> bool, init': T -> bool, step': (T, F, T) -> bool,
    view: S -> T, part: (S, E) -> Option<F>)
  {
    && (forall s :: init(s) ==> init'(view(s)))
    && (forall s, e, s' {:trigger step(s, e, s')} :: step(s, e, s') ==>
          if part(s, e).Some? then step'(view(s), part(s, e).value, view(s')) else view(s') == view(s))
  }

  /** How many steps of its own the component has taken in the first `n` of the whole. */
  ghost function Taken<S(!new), E(!new), F(!new)>(
    part: (S, E) -> Option<F>, run: seq<S>, ev: seq<E>, n: nat): nat
    requires |run| == |ev| + 1 && n <= |ev|
  {
    if n == 0 then 0 else Taken(part, run, ev, n - 1) + if part(run[n - 1], ev[n - 1]).Some? then 1 else 0
  }

  /** Those steps. */
  ghost function OwnEvents<S(!new), E(!new), F(!new)>(
    part: (S, E) -> Option<F>, run: seq<S>, ev: seq<E>, n: nat): (r: seq<F>)
    requires |run| == |ev| + 1 && n <= |ev|
    ensures |r| == Taken(part, run, ev, n)
  {
    if n == 0 then []
    else
      var p := part(run[n - 1], ev[n - 1]);
      OwnEvents(part, run, ev, n - 1) + if p.Some? then [p.value] else []
  }

  /** And the states between them. */
  ghost function OwnStates<S(!new), E(!new), T(!new), F(!new)>(
    view: S -> T, part: (S, E) -> Option<F>, run: seq<S>, ev: seq<E>, n: nat): (r: seq<T>)
    requires |run| == |ev| + 1 && n <= |ev|
    ensures |r| == Taken(part, run, ev, n) + 1
  {
    if n == 0 then [view(run[0])]
    else
      var p := part(run[n - 1], ev[n - 1]);
      OwnStates(view, part, run, ev, n - 1) + if p.Some? then [view(run[n])] else []
  }

  /** The component makes a run of its own, so what holds along those holds for it. */
  lemma {:induction false} OwnRun<S(!new), E(!new), T(!new), F(!new)>(
    init: S -> bool, step: (S, E, S) -> bool, init': T -> bool, step': (T, F, T) -> bool,
    view: S -> T, part: (S, E) -> Option<F>, run: seq<S>, ev: seq<E>, n: nat)
    requires Component(init, step, init', step', view, part) && IsRun(init, step, run, ev) && n <= |ev|
    ensures var run', ev' := OwnStates(view, part, run, ev, n), OwnEvents(part, run, ev, n);
            IsRun(init', step', run', ev') && run'[|ev'|] == view(run[n])
    decreases n
  {
    if n > 0 {
      OwnRun(init, step, init', step', view, part, run, ev, n - 1);
      assert step(run[n - 1], ev[n - 1], run[n]);
      var p := part(run[n - 1], ev[n - 1]);
      if p.Some? {
        var run', ev' := OwnStates(view, part, run, ev, n - 1), OwnEvents(part, run, ev, n - 1);
        Extend(init', step', run', ev', p.value, view(run[n]));
      }
    }
  }

  /** Where the component stands when the whole is at its state `i`. */
  lemma {:induction false} OwnState<S(!new), E(!new), T(!new), F(!new)>(
    init: S -> bool, step: (S, E, S) -> bool, init': T -> bool, step': (T, F, T) -> bool,
    view: S -> T, part: (S, E) -> Option<F>, run: seq<S>, ev: seq<E>, i: nat, n: nat)
    requires Component(init, step, init', step', view, part) && IsRun(init, step, run, ev) && i <= n <= |ev|
    ensures Taken(part, run, ev, i) <= Taken(part, run, ev, n)
    ensures OwnStates(view, part, run, ev, n)[Taken(part, run, ev, i)] == view(run[i])
    decreases n
  {
    if i < n {
      OwnState(init, step, init', step', view, part, run, ev, i, n - 1);
    } else {
      OwnRun(init, step, init', step', view, part, run, ev, n);
    }
  }

  /** What step of its own a step of the whole is for the component. */
  lemma {:induction false} OwnEvent<S(!new), E(!new), F(!new)>(
    part: (S, E) -> Option<F>, run: seq<S>, ev: seq<E>, i: nat, n: nat)
    requires |run| == |ev| + 1 && i < n <= |ev| && part(run[i], ev[i]).Some?
    ensures Taken(part, run, ev, i) < Taken(part, run, ev, n)
    ensures OwnEvents(part, run, ev, n)[Taken(part, run, ev, i)] == part(run[i], ev[i]).value
    decreases n
  {
    if i < n - 1 {
      OwnEvent(part, run, ev, i, n - 1);
    }
  }

  /** And which step of the whole its step `k` was. */
  lemma {:induction false} WholeStep<S(!new), E(!new), F(!new)>(
    part: (S, E) -> Option<F>, run: seq<S>, ev: seq<E>, k: nat, n: nat) returns (i: nat)
    requires |run| == |ev| + 1 && n <= |ev| && k < Taken(part, run, ev, n)
    ensures i < n && Taken(part, run, ev, i) == k
    ensures part(run[i], ev[i]) == Some(OwnEvents(part, run, ev, n)[k])
    decreases n
  {
    if k < Taken(part, run, ev, n - 1) {
      i := WholeStep(part, run, ev, k, n - 1);
    } else {
      i := n - 1;
    }
  }
}
