/** Termination of `finish`: every fair run of the runtime ends, with the single-threaded sketch. */
module OctoTermination {
  import opened OctoWorker
  import opened OctoProtocol
  import opened OctoSafety
  import opened OctoTheorems
  import opened OctoLiveness

  ghost predicate AggregatorStep(a: Action) {
    a.Poll? || a.EndSweep?
  }

  /** Moment `n` of an infinite run: one thread takes one step, until the client has finished. */
  ghost predicate StepAt(c: Config, st: nat -> State, act: nat -> Action, n: nat) {
    if st(n).client.Finished? then st(n + 1) == st(n)
    else Shape(c, st(n)) && Enabled(c, st(n), act(n)) && st(n + 1) == Apply(c, st(n), act(n))
  }

  ghost predicate Behaviour(c: Config, st: nat -> State, act: nat -> Action) {
    Reachable(c, st(0)) && forall n: nat :: StepAt(c, st, act, n)
  }

  ghost predicate EnabledAt(c: Config, s: State, a: Action) {
    Shape(c, s) && Enabled(c, s, a)
  }

  /** The step `a` is possible at every moment from `n` on. */
  ghost predicate EnabledFrom(c: Config, st: nat -> State, n: nat, a: Action) {
    forall m: nat :: n <= m ==> EnabledAt(c, st(m), a)
  }

  /** From `n` on the client and the workers move again. */
  ghost predicate OthersMoveFrom(act: nat -> Action, n: nat) {
    exists m: nat :: n <= m && !AggregatorStep(act(m))
  }

  /** The aggregator does not run alone while a step of the client or of a worker stays possible for
      ever. A scheduler that never starves a thread guarantees this. */
  ghost predicate Fair(c: Config, st: nat -> State, act: nat -> Action) {
    forall n: nat, a: Action :: !AggregatorStep(a) && EnabledFrom(c, st, n, a) ==> OthersMoveFrom(act, n)
  }

  lemma {:induction false} ReachableAt(c: Config, st: nat -> State, act: nat -> Action, n: nat)
    requires Behaviour(c, st, act)
    ensures Reachable(c, st(n)) && Inv(c, st(n))
  {
    hide Inv, Reachable, Shape, Enabled, Apply;
    if n > 0 {
      ReachableAt(c, st, act, n - 1);
      assert StepAt(c, st, act, n - 1);
      if !st(n - 1).client.Finished? {
        ReachableStep(c, st(n - 1), act(n - 1));
      }
    }
    ReachableInv(c, st(n));
  }

  /** A fruitless aggregator step changes nothing that another thread can see. */
  lemma {:induction false} IdleIsInvisible(c: Config, s: State, a: Action, b: Action)
    requires Inv(c, s) && Enabled(c, s, a) && Idle(c, s, a) && !AggregatorStep(b)
    ensures var t := Apply(c, s, a);
            t.client == s.client && Shape(c, t) && (Enabled(c, t, b) <==> Enabled(c, s, b))
  {
    hide Ledger, Scripted, SweepSound, Handshake, WorkerShape, Route;
    ShapeStep(c, s, a);
  }

  /** At moment `m` the run does something other than polling in vain. */
  ghost predicate Works(c: Config, st: nat -> State, act: nat -> Action, m: nat) {
    st(m).client.Finished? || (EnabledAt(c, st(m), act(m)) && !Idle(c, st(m), act(m)))
  }

  ghost predicate NeverWorks(c: Config, st: nat -> State, act: nat -> Action, n: nat) {
    forall m: nat :: n <= m ==> !Works(c, st, act, m)
  }

  /** While only fruitless polls happen, what another thread can do stays the same. */
  lemma {:induction false} StaysPossible(c: Config, st: nat -> State, act: nat -> Action, n: nat, m: nat, b: Action)
    requires Behaviour(c, st, act) && NeverWorks(c, st, act, n) && n <= m && !AggregatorStep(b)
    ensures EnabledAt(c, st(m), b) <==> EnabledAt(c, st(n), b)
    decreases m
  {
    hide Shape, Enabled, Apply, Idle, Inv, Reachable;
    if n < m {
      StaysPossible(c, st, act, n, m - 1, b);
      ReachableAt(c, st, act, m - 1);
      assert StepAt(c, st, act, m - 1) && !Works(c, st, act, m - 1);
      IdleIsInvisible(c, st(m - 1), act(m - 1), b);
      InvShape(c, st(m - 1));
    }
  }

  lemma {:induction false} InvShape(c: Config, s: State)
    requires Inv(c, s)
    ensures Shape(c, s)
  {
  }

  lemma {:induction false} IdleIsAggregator(c: Config, s: State, a: Action)
    requires EnabledAt(c, s, a) && Idle(c, s, a)
    ensures AggregatorStep(a)
  {
  }

  lemma {:induction false} NobodyElse(c: Config, s: State)
    requires Shape(c, s) && forall b: Action :: !AggregatorStep(b) ==> !EnabledAt(c, s, b)
    ensures !ThreadCanMove(c, s)
  {
    hide Shape, Enabled;
    forall b: Action | !b.Poll? && !b.EndSweep? ensures !Enabled(c, s, b) {
      assert !EnabledAt(c, s, b);
    }
  }

  /** If nothing but fruitless polls happens and no other thread can move, the next useful poll
      comes closer without end. */
  lemma {:induction false} ComesCloser(c: Config, st: nat -> State, act: nat -> Action, n: nat, j: nat)
    requires Behaviour(c, st, act) && NeverWorks(c, st, act, n)
    requires forall b: Action :: !AggregatorStep(b) ==> !EnabledAt(c, st(n), b)
    ensures Distance(c, st(n + j)) <= Distance(c, st(n)) - j
  {
    hide Shape, Enabled, Apply, Idle, Inv, Reachable, Distance;
    if j > 0 {
      var m := n + j - 1;
      ComesCloser(c, st, act, n, j - 1);
      ReachableAt(c, st, act, m);
      InvShape(c, st(m));
      assert StepAt(c, st, act, m) && !Works(c, st, act, m);
      forall b: Action | !AggregatorStep(b) ensures !EnabledAt(c, st(m), b) {
        StaysPossible(c, st, act, n, m, b);
      }
      NobodyElse(c, st(m));
      IdleIsAggregator(c, st(m), act(m));
      IdleApproaches(c, st(m), act(m));
    }
  }

  /** A fair run never polls in vain for ever. */
  lemma {:induction false} EventuallyWorks(c: Config, st: nat -> State, act: nat -> Action, n: nat)
    requires Behaviour(c, st, act) && Fair(c, st, act)
    ensures exists m: nat :: n <= m && Works(c, st, act, m)
  {
    hide Shape, Enabled, Apply, Idle, Inv, Reachable, Distance, StepAt;
    if NeverWorks(c, st, act, n) {
      if b: Action :| !AggregatorStep(b) && EnabledAt(c, st(n), b) {
        forall m: nat | n <= m ensures EnabledAt(c, st(m), b) {
          StaysPossible(c, st, act, n, m, b);
        }
        assert EnabledFrom(c, st, n, b);
        var m: nat :| n <= m && !AggregatorStep(act(m));
        OnlyPolls(c, st, act, n, m);
      } else {
        ReachableAt(c, st, act, n);
        MeasureOfInv(c, st(n));
        var j := Distance(c, st(n)) + 1;
        ComesCloser(c, st, act, n, j);
        ReachableAt(c, st, act, n + j);
        MeasureOfInv(c, st(n + j));
      }
    }
  }

  lemma {:induction false} OnlyPolls(c: Config, st: nat -> State, act: nat -> Action, n: nat, m: nat)
    requires Behaviour(c, st, act) && NeverWorks(c, st, act, n) && n <= m
    ensures AggregatorStep(act(m))
  {
    hide Shape, Enabled, Apply, Idle, Reachable;
    assert StepAt(c, st, act, m) && !Works(c, st, act, m);
    IdleIsAggregator(c, st(m), act(m));
  }

  lemma {:induction false} MeasureFalls(c: Config, st: nat -> State, act: nat -> Action, n: nat)
    requires Behaviour(c, st, act) && !st(n).client.Finished?
    ensures Measure(c, st(n + 1)) <= Measure(c, st(n))
    ensures Works(c, st, act, n) ==> Measure(c, st(n + 1)) < Measure(c, st(n))
  {
    hide Shape, Enabled, Apply, Idle, Inv, Reachable, Measure;
    assert StepAt(c, st, act, n);
    ReachableAt(c, st, act, n);
    MeasureStep(c, st(n), act(n));
  }

  lemma {:induction false} MeasureNeverRises(c: Config, st: nat -> State, act: nat -> Action, n: nat, m: nat)
    requires Behaviour(c, st, act) && n <= m
    ensures Measure(c, st(m)) <= Measure(c, st(n))
    decreases m
  {
    hide Measure, Reachable, Shape, Enabled, Apply;
    if n < m {
      MeasureNeverRises(c, st, act, n, m - 1);
      if st(m - 1).client.Finished? {
        assert StepAt(c, st, act, m - 1);
      } else {
        MeasureFalls(c, st, act, m - 1);
      }
    }
  }

  lemma {:induction false} FinishesFrom(c: Config, st: nat -> State, act: nat -> Action, n: nat)
    requires Behaviour(c, st, act) && Fair(c, st, act) && Measure(c, st(n)) >= 0
    ensures exists m: nat :: n <= m && st(m).client.Finished?
    decreases Measure(c, st(n))
  {
    hide Measure, Reachable, StepAt, Fair, Works, Inv;
    EventuallyWorks(c, st, act, n);
    var m: nat :| n <= m && Works(c, st, act, m);
    if !st(m).client.Finished? {
      MeasureNeverRises(c, st, act, n, m);
      MeasureFalls(c, st, act, m);
      ReachableAt(c, st, act, m + 1);
      MeasureOfInv(c, st(m + 1));
      FinishesFrom(c, st, act, m + 1);
    }
  }

  /** Main result: every fair run of the runtime, from any reachable state, comes to the end of
      `finish`, and then the parent is the single-threaded sketch of the program's inserts. */
  lemma {:induction false} FairRunsFinish(c: Config, st: nat -> State, act: nat -> Action)
    requires Behaviour(c, st, act) && Fair(c, st, act)
    ensures FullRows(c.g, Inserts(c.program))
    ensures exists m: nat :: st(m).client.Finished? && st(m).agg.parent == SinglePass(c.g, Inserts(c.program))
  {
    hide Measure, Reachable, StepAt, Fair, Inv, SinglePass, FullRows;
    ReachableAt(c, st, act, 0);
    MeasureOfInv(c, st(0));
    FinishesFrom(c, st, act, 0);
    var m: nat :| st(m).client.Finished?;
    ReachableAt(c, st, act, m);
    FinishIsSinglePass(c, st(m));
  }
}
