/** One insert through a grid with a single counter, computed. */
module OctoTinyGrid {
  import opened OctoWorker

  lemma {:induction false} TinyGrid(g: Geometry)
    requires g.rows == g.cols == 1
    ensures g.Cells() == 1 && Slot(g.cols, 0, 0) == 0
  {
    assert RowStart(g.cols, 1) == RowStart(g.cols, 0) + g.cols;
  }

  lemma {:induction false} TinyBump(g: Geometry, hash: Hash)
    requires g.rows == g.cols == 1 && g.kind.CountMin? && g.Cells() == 1
    ensures Bump(g, [0], hash, 2, 0) == ([1], [])
  {
    hide Column, RowStart, Slot;
    TinyGrid(g);
    assert Column(g.cols, hash) == 0;
    assert [0][0 := 1] == [1];
  }

  lemma {:induction false} TinyInsert(g: Geometry, hashes: seq<Hash>)
    requires g.rows == g.cols == 1 && g.kind.CountMin? && |hashes| == 1
    ensures g.Cells() == 1 && OctoWorker.Insert(g, [0], hashes, 2) == ([1], [])
  {
    hide Bump, Column, RowStart, Slot;
    TinyGrid(g);
    TinyBump(g, hashes[0]);
    var none: seq<Delta> := [];
    assert InsertFrom(g, [1], hashes, 2, 1) == ([1], none);
    assert none + none == none;
  }

  lemma {:induction false} TinyFlushFacts(g: Geometry, cells: seq<int>)
    requires g.cols == 1 && g.kind.CountMin? && |cells| == g.Cells() == 1 && cells[0] == 1
    ensures |FlushAll(g, cells)| == 1 && Promotable(g, FlushAll(g, cells), 2) && Mass(g, FlushAll(g, cells), 0) == 1
  {
    hide *;
    NonZeroOne(cells);
    BoundedOne(cells);
    FlushCost(g, cells);
    FlushConserves(g, cells, 0);
    FlushAllPromotable(g, cells, 2);
  }

  /** A flush of a grid with a single counter that holds 1. */
  lemma {:induction false} TinyFlush(g: Geometry, cells: seq<int>)
    requires g.rows == g.cols == 1 && g.kind.CountMin? && |cells| == 1 && cells[0] == 1
    ensures g.Cells() == 1 && |FlushAll(g, cells)| == 1
    ensures var d := FlushAll(g, cells)[0]; d.row == 0 && d.col == 0 && d.value == 1
  {
    hide *;
    TinyGrid(g);
    TinyFlushFacts(g, cells);
    TinyDelta(g, FlushAll(g, cells));
    MassOne(g, FlushAll(g, cells));
  }

  lemma {:induction false} NonZeroOne(cells: seq<int>)
    requires |cells| == 1 && cells[0] != 0
    ensures NonZero(cells) == 1
  {
    assert cells[1..] == [];
  }

  lemma BoundedOne(cells: seq<int>)
    requires |cells| == 1 && cells[0] == 1
    ensures Bounded(CountMin, cells, 2)
  {
  }

  lemma {:induction false} MassOne(g: Geometry, ds: seq<Delta>)
    requires |ds| == 1 && Slot(g.cols, ds[0].row, ds[0].col) == 0
    ensures Mass(g, ds, 0) == ds[0].value
  {
    hide Slot;
    assert ds[1..] == [];
  }

  lemma {:induction false} TinyDelta(g: Geometry, ds: seq<Delta>)
    requires |ds| == 1 && g.rows == g.cols == 1 && Promotable(g, ds, 2)
    ensures ds[0].row == 0 && ds[0].col == 0
  {
    assert ds[0] in ds;
  }
}

/** A run in which `flush` returns before the parent has received an accepted input. */
module OctoEarlyFlush {
  import opened OctoWorker
  import opened OctoProtocol
  import opened OctoSafety
  import opened OctoTheorems
  import opened OctoTinyGrid

  /** One counter, one worker, one insert, then a flush. */
  const EARLY: Config := Config(Geometry(CountMin, 1, 1), 1, 1, HashByKey, 2, [Insert(Input(0, [0])), Flush])

  /** The aggregator polls the outbox while it is still empty; only then does the worker hand
      over its counter and acknowledge, and Drain is queued; the sweep ends without progress and
      answers it. */
  ghost function EarlyState(step: nat): State {
    var deltas := [Delta(0, 0, 1)];
    var data := Data(Input(0, [0]));
    var hashes: seq<seq<Hash>> := [[0]];
    var idle := Aggregator([0], 0, false, [false], false);
    var polled := Aggregator([0], 1, false, [false], false);
    var none := Control({}, false, false);
    if step == 0 then
      State(EARLY.program, Running, 0, [Worker([], [0], [], Ready, [])], none, idle, History([], [], false, false))
    else if step == 1 then
      State([Flush], Running, 0, [Worker([data], [0], [], Ready, [])], none, idle, History(hashes, [], false, false))
    else if step == 2 then
      State([Flush], Running, 0, [Worker([], [1], [], Ready, [])], none, idle, History(hashes, hashes, false, false))
    else if step == 3 then
      State([], SendingFlush(0), 0, [Worker([], [1], [], Ready, [])], none, idle, History(hashes, hashes, false, false))
    else if step == 4 then
      State([], AwaitingAcks(Ids(1)), 0, [Worker([FlushReq], [1], [], Ready, [])], none, idle,
            History(hashes, hashes, false, false))
    else if step == 5 then
      State([], AwaitingAcks(Ids(1)), 0, [Worker([FlushReq], [1], [], Ready, [])], none, polled,
            History(hashes, hashes, false, false))
    else if step == 6 then
      State([], AwaitingAcks(Ids(1)), 0, [Worker([], [0], deltas, MustAck, [])], none, polled,
            History(hashes, hashes, false, false))
    else if step == 7 then
      State([], AwaitingAcks(Ids(1)), 0, [Worker([], [0], [], MustAck, deltas)], none, polled,
            History(hashes, hashes, false, false))
    else if step == 8 then
      State([], AwaitingAcks(Ids(1)), 0, [Worker([], [0], [], Ready, deltas)], Control({0}, false, false), polled,
            History(hashes, hashes, false, false))
    else if step == 9 then
      State([], SendingDrain, 0, [Worker([], [0], [], Ready, deltas)], none, polled,
            History(hashes, hashes, false, false))
    else if step == 10 then
      State([], AwaitingDrain, 0, [Worker([], [0], [], Ready, deltas)], Control({}, true, false), polled,
            History(hashes, hashes, false, false))
    else
      State([], AwaitingDrain, 0, [Worker([], [0], [], Ready, deltas)], Control({}, false, true), idle,
            History(hashes, hashes, false, false))
  }

  const EARLY_SCHEDULE: seq<Action> :=
    [Submit, Take(0, 2), BeginFlush, SendFlush, Poll, Take(0, 2), Send(0), Discharge(0), ReceiveAck(0), SendDrain,
        EndSweep]

  /** Two one-worker states that agree part by part. */
  lemma {:induction false} SameState(r: State, t: State)
    requires |r.workers| == |t.workers| == 1 && r.workers[0].duty == t.workers[0].duty
    requires r.workers[0].inbox == t.workers[0].inbox && r.workers[0].residual == t.workers[0].residual
    requires r.workers[0].pending == t.workers[0].pending && r.workers[0].outbox == t.workers[0].outbox
    requires r.todo == t.todo && r.client == t.client && r.nextWorker == t.nextWorker && r.control == t.control
    requires r.agg.closed == t.agg.closed && r.agg.(closed := []) == t.agg.(closed := [])
    requires r.hist.accepted == t.hist.accepted && r.hist.processed == t.hist.processed
    requires r.hist.(accepted := [], processed := []) == t.hist.(accepted := [], processed := [])
    ensures r == t
  {
    assert r.workers == t.workers;
  }

  /** The client's steps and the sweep. */
  lemma {:induction false} EarlyStep(step: nat)
    requires step in {0, 2, 3, 4, 9, 10} && Shape(EARLY, EarlyState(step))
    ensures Enabled(EARLY, EarlyState(step), EARLY_SCHEDULE[step])
    ensures Apply(EARLY, EarlyState(step), EARLY_SCHEDULE[step]) == EarlyState(step + 1)
  {
    hide Shape;
    assert !EarlyState(step).agg.closed[0];
    SameState(Apply(EARLY, EarlyState(step), EARLY_SCHEDULE[step]), EarlyState(step + 1));
  }

  /** The worker hands over its counter and acknowledges. */
  lemma {:induction false} EarlyHandOver(step: nat)
    requires step in {6, 7} && Shape(EARLY, EarlyState(step))
    ensures Enabled(EARLY, EarlyState(step), EARLY_SCHEDULE[step])
    ensures Apply(EARLY, EarlyState(step), EARLY_SCHEDULE[step]) == EarlyState(step + 1)
  {
    hide Shape;
    SameState(Apply(EARLY, EarlyState(step), EARLY_SCHEDULE[step]), EarlyState(step + 1));
  }

  /** The worker takes a message. */
  lemma {:induction false} EarlyTake(step: nat)
    requires step in {1, 5} && Shape(EARLY, EarlyState(step))
    ensures Enabled(EARLY, EarlyState(step), EARLY_SCHEDULE[step])
    ensures Apply(EARLY, EarlyState(step), EARLY_SCHEDULE[step]) == EarlyState(step + 1)
  {
    hide OctoWorker.Insert, FlushAll, RowStart;
    TinyInsert(EARLY.g, [0]);
    TinyFlush(EARLY.g, [1]);
    assert Zeros(1) == [0];
    hide Zeros, Shape;
    SameState(Apply(EARLY, EarlyState(step), EARLY_SCHEDULE[step]), EarlyState(step + 1));
  }

  lemma {:induction false} EarlyAck(step: nat)
    requires step == 8 && Shape(EARLY, EarlyState(step))
    ensures Enabled(EARLY, EarlyState(step), EARLY_SCHEDULE[step])
    ensures Apply(EARLY, EarlyState(step), EARLY_SCHEDULE[step]) == EarlyState(step + 1)
  {
    hide Shape;
    assert Ids(1) == Ids(0) + {0};
    assert Ids(1) - {0} == {};
    assert {0} - {0} == {};
  }

  lemma {:induction false} EarlyReachable(step: nat)
    requires step <= |EARLY_SCHEDULE|
    ensures Reachable(EARLY, EarlyState(step))
  {
    hide Reachable, Init, Apply, Enabled;
    if step == 0 {
      EarlyStart();
    } else {
      EarlyReachable(step - 1);
      ReachableInv(EARLY, EarlyState(step - 1));
      hide Shape, EarlyState;
      var k: nat := step - 1;
      if k == 1 || k == 5 {
        EarlyTake(k);
      } else if k == 6 || k == 7 {
        EarlyHandOver(k);
      } else if k == 8 {
        EarlyAck(k);
      } else {
        EarlyStep(k);
      }
      ReachableStep(EARLY, EarlyState(k), EARLY_SCHEDULE[k]);
    }
  }

  lemma {:induction false} EarlyStart()
    ensures Reachable(EARLY, EarlyState(0))
  {
    var g := EARLY.g;
    assert RowStart(1, 1) == RowStart(1, 0) + 1;
    assert Zeros(g.Cells()) == [0];
    assert Init(EARLY) == EarlyState(0) by {
      hide Zeros;
      assert Init(EARLY).workers == EarlyState(0).workers;
      assert Init(EARLY).agg.closed == EarlyState(0).agg.closed;
    }
    ReachableInit(EARLY);
  }

  lemma {:induction false} EarlyEnd(s: State)
    requires s == EarlyState(11)
    ensures s.client.AwaitingDrain? && s.control.drainAck && EARLY.g.kind.CountMin? && !OutboxesEmpty(s)
  {
    assert s.workers[0].outbox != [];
  }

  /** So a `flush` can return while the parent still misses an input it had accepted. */
  lemma {:induction false} FlushCanReturnEarly()
    ensures exists c: Config, s: State :: FlushReturns(c, s)
              && FullRows(c.g, s.hist.accepted) && s.agg.parent != SinglePass(c.g, s.hist.accepted)
  {
    hide EarlyState, Reachable, SinglePass, FullRows;
    var s := EarlyState(11);
    EarlyEnd(s);
    EarlyReachable(11);
    FlushExactIffDrained(EARLY, s);
  }
}
