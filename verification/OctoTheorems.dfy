/** The main results about the OctoSketch runtime: `finish` returns the single-threaded sketch,
    exactly when `flush` does, and how far the parent can trail in between. */
module OctoTheorems {
  import opened OctoWorker
  import opened OctoProtocol
  import opened OctoSafety

  ghost predicate Inv(c: Config, s: State) {
    && Shape(c, s) && Handshake(c, s) && Scripted(c, s) && SweepSound(s)
    && forall i :: 0 <= i < c.g.Cells() ==> Ledger(c.g, s, i)
  }

  lemma {:induction false} TotalZero(ws: seq<Worker>, f: Worker -> int)
    requires forall w :: 0 <= w < |ws| ==> f(ws[w]) == 0
    ensures Total(ws, f) == 0
  {
    if ws != [] {
      TotalZero(ws[1..], f);
    }
  }

  lemma {:induction false} InitInv(c: Config)
    requires c.Valid()
    ensures Inv(c, Init(c))
  {
    var s := Init(c);
    assert s.hist.accepted + Inserts(s.todo) == Inserts(c.program);
    forall i | 0 <= i < c.g.Cells() ensures Ledger(c.g, s, i) {
      TotalZero(s.workers, InFlight(c.g, i));
      TotalZero(s.workers, HeldBack(i));
      TotalZero(s.workers, Waiting(c.g, i));
    }
  }

  lemma {:induction false} InvStep(c: Config, s: State, a: Action)
    requires Inv(c, s) && Enabled(c, s, a)
    ensures Inv(c, Apply(c, s, a))
  {
    HandshakeStep(c, s, a);
    ScriptedStep(c, s, a);
    SweepStep(c, s, a);
    forall i | 0 <= i < c.g.Cells() ensures Ledger(c.g, Apply(c, s, a), i) {
      LedgerStep(c, s, a, i);
    }
    hide Ledger, Handshake, Scripted, SweepSound, Apply, Enabled, Shape;
  }

  lemma {:induction false} InvRun(c: Config, s: State, acts: seq<Action>, t: State)
    requires Inv(c, s) && Run(c, s, acts, t)
    ensures Inv(c, t)
    decreases |acts|
  {
    hide Inv, Apply, Enabled;
    if acts != [] {
      assert Shape(c, s) by { assert Inv(c, s); }
      InvStep(c, s, acts[0]);
      InvRun(c, Apply(c, s, acts[0]), acts[1..], t);
    }
  }

  /** Every state some run of the runtime reaches. */
  ghost predicate Reachable(c: Config, s: State) {
    c.Valid() && exists acts :: Run(c, Init(c), acts, s)
  }

  lemma {:induction false} ReachableInv(c: Config, s: State)
    requires Reachable(c, s)
    ensures Inv(c, s)
  {
    hide Inv, Run, Init;
    var acts :| Run(c, Init(c), acts, s);
    InitInv(c);
    InvRun(c, Init(c), acts, s);
  }

  lemma {:induction false} RunSnoc(c: Config, s: State, acts: seq<Action>, t: State, a: Action)
    requires Run(c, s, acts, t) && Shape(c, t) && Enabled(c, t, a)
    ensures Run(c, s, acts + [a], Apply(c, t, a))
    decreases |acts|
  {
    hide Shape, Enabled, Apply;
    if acts == [] {
      assert acts + [a] == [a] && [a][1..] == [];
      assert Run(c, Apply(c, s, a), [a][1..], Apply(c, t, a));
    } else {
      RunSnoc(c, Apply(c, s, acts[0]), acts[1..], t, a);
      assert (acts + [a])[1..] == acts[1..] + [a] && (acts + [a])[0] == acts[0];
    }
  }

  lemma {:induction false} ReachableStep(c: Config, s: State, a: Action)
    requires Reachable(c, s) && Shape(c, s) && Enabled(c, s, a)
    ensures Reachable(c, Apply(c, s, a))
  {
    hide Run, Shape, Enabled, Apply;
    var acts :| Run(c, Init(c), acts, s);
    RunSnoc(c, Init(c), acts, s, a);
  }

  lemma {:induction false} ReachableInit(c: Config)
    requires c.Valid()
    ensures Reachable(c, Init(c))
  {
    assert Run(c, Init(c), [], Init(c));
  }

  // ---------------------------------------------------------------- conservation

  /** In every reachable state each counter's parent value, promotions on their way, worker
      residuals and queued inputs add up to the single-threaded count of the accepted inputs. */
  lemma {:induction false} NothingLost(c: Config, s: State, i: int)
    requires Reachable(c, s) && 0 <= i < c.g.Cells()
    ensures |s.agg.parent| == c.g.Cells() && FullRows(c.g, s.hist.accepted)
    ensures s.agg.parent[i] + Total(s.workers, InFlight(c.g, i)) + Total(s.workers, HeldBack(i))
            + Total(s.workers, Waiting(c.g, i))
         == SinglePass(c.g, s.hist.accepted)[i]
  {
    hide Handshake, Scripted, SweepSound, Run, Init, Total, SinglePassCell, SinglePass;
    ReachableInv(c, s);
    assert Ledger(c.g, s, i);
    SinglePassIsSum(c.g, s.hist.accepted, i);
  }

  /** Whatever the interleaving, the routing and the thresholds, `finish` returns exactly the
      sketch a single thread would have built from the program's inserts. */
  lemma {:induction false} FinishIsSinglePass(c: Config, s: State)
    requires Reachable(c, s) && s.client.Finished?
    ensures FullRows(c.g, Inserts(c.program)) && s.agg.parent == SinglePass(c.g, Inserts(c.program))
  {
    ReachableInv(c, s);
    assert s.hist.accepted == s.hist.accepted + Inserts(s.todo) == Inserts(c.program);
    forall i | 0 <= i < c.g.Cells() ensures s.agg.parent[i] == SinglePass(c.g, s.hist.accepted)[i] {
      NothingLost(c, s, i);
      forall w: nat | w < c.workers
        ensures InFlight(c.g, i)(s.workers[w]) == 0 && HeldBack(i)(s.workers[w]) == 0
                && Waiting(c.g, i)(s.workers[w]) == 0
      {
        assert s.agg.closed[w] && Fits(s.client, w in s.control.acks, w, s.workers[w]);
      }
      TotalZero(s.workers, InFlight(c.g, i));
      TotalZero(s.workers, HeldBack(i));
      TotalZero(s.workers, Waiting(c.g, i));
    }
  }

  // ---------------------------------------------------------------- flush

  /** `flush` is about to return. */
  ghost predicate FlushReturns(c: Config, s: State) {
    Reachable(c, s) && s.client.AwaitingDrain? && s.control.drainAck
  }

  ghost predicate OutboxesEmpty(s: State) {
    forall w :: 0 <= w < |s.workers| ==> s.workers[w].outbox == []
  }

  /** When `flush` returns, the parent trails the accepted inputs by exactly the promotions still
      in the outboxes. */
  lemma {:induction false} FlushDeficit(c: Config, s: State, i: int)
    requires FlushReturns(c, s) && 0 <= i < c.g.Cells()
    ensures |s.agg.parent| == c.g.Cells() && FullRows(c.g, s.hist.accepted)
    ensures s.agg.parent[i] + Total(s.workers, InFlight(c.g, i)) == SinglePass(c.g, s.hist.accepted)[i]
    ensures forall w :: 0 <= w < |s.workers| ==> s.workers[w].pending == []
  {
    ReachableInv(c, s);
    NothingLost(c, s, i);
    forall w: nat | w < c.workers
      ensures HeldBack(i)(s.workers[w]) == 0 && Waiting(c.g, i)(s.workers[w]) == 0 && s.workers[w].pending == []
    {
      assert Fits(s.client, w in s.control.acks, w, s.workers[w]);
    }
    TotalZero(s.workers, HeldBack(i));
    TotalZero(s.workers, Waiting(c.g, i));
  }

  lemma {:induction false} MassNonNegative(g: Geometry, ds: seq<Delta>, bound: int, i: int)
    requires g.kind.CountMin? && Promotable(g, ds, bound)
    ensures Mass(g, ds, i) >= 0
  {
    if ds != [] {
      assert ds[0] in ds;
      MassNonNegative(g, ds[1..], bound, i);
    }
  }

  lemma {:induction false} TotalPositive(ws: seq<Worker>, f: Worker -> int, w: nat)
    requires w < |ws| && f(ws[w]) >= 1 && forall v :: 0 <= v < |ws| ==> f(ws[v]) >= 0
    ensures Total(ws, f) >= 1
  {
    if w > 0 {
      TotalPositive(ws[1..], f, w - 1);
    } else {
      TotalNonNegative(ws[1..], f);
    }
  }

  lemma {:induction false} TotalNonNegative(ws: seq<Worker>, f: Worker -> int)
    requires forall v :: 0 <= v < |ws| ==> f(ws[v]) >= 0
    ensures Total(ws, f) >= 0
  {
    if ws != [] {
      TotalNonNegative(ws[1..], f);
    }
  }

  /** A promotion still queued when `flush` returns shows in the counter it is for. */
  lemma {:induction false} QueuedShows(c: Config, s: State, w: nat)
    requires FlushReturns(c, s) && c.g.kind.CountMin?
    requires w < |s.workers| && s.workers[w].outbox != []
    ensures |s.agg.parent| == c.g.Cells() && FullRows(c.g, s.hist.accepted)
    ensures exists i :: 0 <= i < c.g.Cells() && s.agg.parent[i] < SinglePass(c.g, s.hist.accepted)[i]
  {
    ReachableInv(c, s);
    var k := s.workers[w];
    var d := k.outbox[0];
    assert WorkerShape(c, k) && d in k.outbox;
    SlotInRange(c.g.rows, c.g.cols, d.row, d.col);
    var i := Slot(c.g.cols, d.row, d.col);
    forall v | 0 <= v < |s.workers| ensures InFlight(c.g, i)(s.workers[v]) >= 0 {
      assert WorkerShape(c, s.workers[v]);
      MassNonNegative(c.g, s.workers[v].outbox, c.tauMax, i);
      MassNonNegative(c.g, s.workers[v].pending, c.tauMax, i);
    }
    MassNonNegative(c.g, k.outbox[1..], c.tauMax, i);
    MassNonNegative(c.g, k.pending, c.tauMax, i);
    TotalPositive(s.workers, InFlight(c.g, i), w);
    FlushDeficit(c, s, i);
  }

  /** A `flush` leaves the parent exact if every outbox was empty when Drain was answered, and
      for Count-Min only if. (Signed promotions can cancel, so for Count it is not "only if".) */
  lemma {:induction false} FlushExactIffDrained(c: Config, s: State)
    requires FlushReturns(c, s)
    ensures |s.agg.parent| == c.g.Cells() && FullRows(c.g, s.hist.accepted)
    ensures OutboxesEmpty(s) ==> s.agg.parent == SinglePass(c.g, s.hist.accepted)
    ensures c.g.kind.CountMin? && s.agg.parent == SinglePass(c.g, s.hist.accepted) ==> OutboxesEmpty(s)
  {
    ReachableInv(c, s);
    if OutboxesEmpty(s) {
      forall i | 0 <= i < c.g.Cells() ensures s.agg.parent[i] == SinglePass(c.g, s.hist.accepted)[i] {
        FlushDeficit(c, s, i);
        TotalZero(s.workers, InFlight(c.g, i));
      }
    } else if c.g.kind.CountMin? {
      var w :| 0 <= w < |s.workers| && s.workers[w].outbox != [];
      QueuedShows(c, s, w);
    }
  }

  /** For both kinds of sketch: `flush` leaves the parent exact if and only if, for every counter,
      the promotions still in the outboxes cancel out. */
  lemma {:induction false} FlushExactIff(c: Config, s: State)
    requires FlushReturns(c, s)
    ensures |s.agg.parent| == c.g.Cells() && FullRows(c.g, s.hist.accepted)
    ensures s.agg.parent == SinglePass(c.g, s.hist.accepted) <==>
            forall i :: 0 <= i < c.g.Cells() ==> Total(s.workers, InFlight(c.g, i)) == 0
  {
    hide Reachable, Total, SinglePass, FullRows, Inv;
    ReachableFacts(c, s);
    forall i | 0 <= i < c.g.Cells()
      ensures s.agg.parent[i] + Total(s.workers, InFlight(c.g, i)) == SinglePass(c.g, s.hist.accepted)[i]
    {
      FlushDeficit(c, s, i);
    }
  }

  lemma {:induction false} ReachableFacts(c: Config, s: State)
    requires Reachable(c, s)
    ensures |s.agg.parent| == c.g.Cells() && FullRows(c.g, s.hist.accepted)
  {
    ReachableInv(c, s);
  }

  /** A Drain answered by a sweep that began after it was queued was answered with every outbox
      empty, so that `flush` returns with the parent exact. */
  lemma {:induction false} FlushExactAfterFreshSweep(c: Config, s: State)
    requires FlushReturns(c, s) && s.hist.answerSound
    ensures |s.agg.parent| == c.g.Cells() && FullRows(c.g, s.hist.accepted)
    ensures OutboxesEmpty(s) && s.agg.parent == SinglePass(c.g, s.hist.accepted)
  {
    ReachableInv(c, s);
    FlushExactIffDrained(c, s);
  }

  // ---------------------------------------------------------------- between flushes

  lemma HeldBackBounded(c: Config, k: Worker, i: int)
    requires WorkerShape(c, k)
    ensures (if c.g.kind.CountMin? then 0 else -(c.tauMax - 1)) <= HeldBack(i)(k) <= c.tauMax - 1
  {
  }

  /** With every threshold so far at most `tauMax`, a Count-Min parent together with the
      promotions on their way trails the inputs the workers have processed by at least 0 and at
      most `tauMax - 1` per worker, in each counter; a Count parent is off by at most that. */
  lemma {:induction false} LagPerCell(c: Config, s: State, i: int)
    requires Reachable(c, s) && 0 <= i < c.g.Cells()
    ensures |s.agg.parent| == c.g.Cells() && FullRows(c.g, s.hist.processed)
    ensures var lag := SinglePass(c.g, s.hist.processed)[i] - s.agg.parent[i] - Total(s.workers, InFlight(c.g, i));
            (if c.g.kind.CountMin? then 0 else -(c.workers * (c.tauMax - 1))) <= lag <= c.workers * (c.tauMax - 1)
  {
    hide Handshake, Scripted, SweepSound, Run, Init, Total, SinglePassCell, SinglePass, Bounded;
    ReachableInv(c, s);
    assert Ledger(c.g, s, i);
    SinglePassIsSum(c.g, s.hist.processed, i);
    var hi := c.tauMax - 1;
    var lo := if c.g.kind.CountMin? then 0 else -hi;
    forall w | 0 <= w < |s.workers| ensures lo <= HeldBack(i)(s.workers[w]) <= hi {
      HeldBackBounded(c, s.workers[w], i);
    }
    TotalBounds(s.workers, HeldBack(i), lo, hi);
  }

  /** The Count-Min estimate of rows `row..`: the least of the counters a key maps to. */
  ghost function MinOver(g: Geometry, cells: seq<int>, hashes: seq<Hash>, row: nat): int
    requires |cells| == g.Cells() && |hashes| == g.rows && row < g.rows
    decreases g.rows - row
  {
    SlotInRange(g.rows, g.cols, row, Column(g.cols, hashes[row]));
    var v := cells[Slot(g.cols, row, Column(g.cols, hashes[row]))];
    if row + 1 == g.rows then v
    else
      var rest := MinOver(g, cells, hashes, row + 1);
      if v < rest then v else rest
  }

  lemma {:induction false} MinOverWithin(g: Geometry, a: seq<int>, b: seq<int>, hashes: seq<Hash>, row: nat, slack: int)
    requires |a| == |b| == g.Cells() && |hashes| == g.rows && row < g.rows
    requires forall i :: 0 <= i < |a| ==> a[i] <= b[i] <= a[i] + slack
    ensures MinOver(g, a, hashes, row) <= MinOver(g, b, hashes, row) <= MinOver(g, a, hashes, row) + slack
    decreases g.rows - row
  {
    SlotInRange(g.rows, g.cols, row, Column(g.cols, hashes[row]));
    if row + 1 < g.rows {
      MinOverWithin(g, a, b, hashes, row + 1, slack);
    }
  }

  /** The parent once the promotions on their way are applied. */
  ghost function Received(c: Config, s: State): (r: seq<int>)
    requires Shape(c, s)
    ensures |r| == c.g.Cells()
  {
    seq(c.g.Cells(), i requires 0 <= i < c.g.Cells() => s.agg.parent[i] + Total(s.workers, InFlight(c.g, i)))
  }

  /** The lag lifts to estimates: no key reads above the single-threaded estimate of the inputs
      processed so far, and none reads more than `workers * (tauMax - 1)` below it. */
  lemma {:induction false} EstimateLag(c: Config, s: State, hashes: seq<Hash>)
    requires Reachable(c, s) && c.g.kind.CountMin? && |hashes| == c.g.rows
    ensures Shape(c, s)
    ensures var single := MinOver(c.g, SinglePass(c.g, s.hist.processed), hashes, 0);
            var octo := MinOver(c.g, Received(c, s), hashes, 0);
            octo <= single <= octo + c.workers * (c.tauMax - 1)
  {
    ReachableInv(c, s);
    forall i | 0 <= i < c.g.Cells()
      ensures Received(c, s)[i] <= SinglePass(c.g, s.hist.processed)[i]
              <= Received(c, s)[i] + c.workers * (c.tauMax - 1)
    {
      LagPerCell(c, s, i);
    }
    MinOverWithin(c.g, Received(c, s), SinglePass(c.g, s.hist.processed), hashes, 0, c.workers * (c.tauMax - 1));
  }
}
