/** The OctoSketch runtime never deadlocks: every step except a fruitless poll lowers a measure, and
    from every reachable state some schedule leads to the end of `finish`. */
module OctoLiveness {
  import opened OctoWorker
  import opened OctoProtocol
  import opened OctoSafety
  import opened OctoTheorems

  // ---------------------------------------------------------------- the measure

  ghost function OpWeight(c: Config, op: Op): nat {
    if op.Insert? then 3 * c.g.rows + 2 else 4 * c.workers + 4
  }

  ghost function TodoWeight(c: Config, ops: seq<Op>): nat {
    if ops == [] then 0 else OpWeight(c, ops[0]) + TodoWeight(c, ops[1..])
  }

  ghost function MsgWeight(c: Config, m: Msg): nat {
    match m
    case Data(_) => 3 * c.g.rows + 1
    case FlushReq => 3
    case End => 2
  }

  ghost function InboxWeight(c: Config, inbox: seq<Msg>): nat {
    if inbox == [] then 0 else MsgWeight(c, inbox[0]) + InboxWeight(c, inbox[1..])
  }

  ghost function DutyWeight(d: Duty): nat {
    match d
    case Ready => 0
    case MustAck => 2
    case MustStop => 1
    case Stopped => 0
  }

  /** Queued messages, counters not yet handed over, promotions not yet applied. */
  ghost function WorkerWeight(c: Config): Worker -> int {
    (k: Worker) => InboxWeight(c, k.inbox) + 3 * NonZero(k.residual) + 2 * |k.pending| + |k.outbox| + DutyWeight(k.duty)
  }

  ghost function ClientWeight(c: Config, client: Client): int {
    var finish := 3 * c.workers + 3;
    match client
    case Running => finish
    case SendingFlush(next) => finish + 4 * (c.workers - next) + 3
    case AwaitingAcks(_) => finish + 3
    case SendingDrain => finish + 3
    case AwaitingDrain => finish
    case SendingEnd(next) => 3 * (c.workers - next) + 2
    case Joining => 1
    case Finished => 0
  }

  ghost function Open(closed: seq<bool>): nat {
    if closed == [] then 0 else (if closed[0] then 0 else 1) + Open(closed[1..])
  }

  ghost function ControlWeight(control: Control): nat {
    |control.acks| + (if control.drain then 2 else 0) + (if control.drainAck then 1 else 0)
  }

  ghost function Measure(c: Config, s: State): int {
    TodoWeight(c, s.todo) + ClientWeight(c, s.client) + Total(s.workers, WorkerWeight(c))
    + ControlWeight(s.control) + Open(s.agg.closed) + (if s.agg.done then 0 else 1)
  }

  /** A poll that finds nothing, or the end of a sweep that neither answers Drain nor exits. */
  ghost predicate Idle(c: Config, s: State, a: Action)
    requires Shape(c, s) && Enabled(c, s, a)
  {
    match a
    case Poll =>
      var w := s.agg.cursor;
      s.agg.closed[w] || (s.workers[w].outbox == [] && !s.workers[w].duty.Stopped?)
    case EndSweep => !Answers(s) && !AllClosed(s.agg.closed)
    case _ => false
  }

  lemma {:induction false} InboxWeightSnoc(c: Config, inbox: seq<Msg>, m: Msg)
    ensures InboxWeight(c, inbox + [m]) == InboxWeight(c, inbox) + MsgWeight(c, m)
  {
    if inbox == [] {
      assert inbox + [m] == [m];
    } else {
      InboxWeightSnoc(c, inbox[1..], m);
      assert (inbox + [m])[1..] == inbox[1..] + [m];
    }
  }

  lemma {:induction false} PostWeight(c: Config, ws: seq<Worker>, w: nat, m: Msg)
    requires w < |ws|
    ensures Total(Post(ws, w, m), WorkerWeight(c)) == Total(ws, WorkerWeight(c)) + MsgWeight(c, m)
  {
    InboxWeightSnoc(c, ws[w].inbox, m);
    TotalUpdate(ws, w, ws[w].(inbox := ws[w].inbox + [m]), WorkerWeight(c));
  }

  lemma {:induction false} TakenWeight(c: Config, k: Worker, tau: nat)
    requires WorkerShape(c, k) && k.inbox != [] && k.pending == [] && k.duty.Ready?
    ensures WorkerWeight(c)(Taken(c, k, tau)) < WorkerWeight(c)(k)
  {
    hide Bounded, FlushAll, InsertFrom, Promotable, NonZero;
    assert k.inbox[0] in k.inbox;
    match k.inbox[0]
    case Data(input) => InsertCost(c.g, k.residual, input.hashes, tau, 0);
    case FlushReq =>
      FlushCost(c.g, k.residual);
      NonZeroEmptyCells(Zeros(c.g.Cells()));
    case End =>
      FlushCost(c.g, k.residual);
      NonZeroEmptyCells(Zeros(c.g.Cells()));
  }

  lemma {:induction false} OpenClose(closed: seq<bool>, w: nat)
    requires w < |closed| && !closed[w]
    ensures Open(closed[w := true]) == Open(closed) - 1
  {
    if w > 0 {
      OpenClose(closed[1..], w - 1);
      assert closed[w := true][1..] == closed[1..][w - 1 := true];
    } else {
      assert closed[0 := true][1..] == closed[1..];
    }
  }

  lemma {:induction false} PostMeasure(c: Config, s: State, a: Action)
    requires Shape(c, s) && Handshake(c, s) && Enabled(c, s, a)
    requires a.Submit? || a.SendFlush? || a.SendEnd?
    ensures Measure(c, Apply(c, s, a)) < Measure(c, s)
  {
    hide WorkerShape, Route, Fits, Total, WorkerWeight, Post, Open, ControlWeight, AllClosed;
    match a
    case Submit => PostWeight(c, s.workers, Route(c, s.nextWorker, s.todo[0].input), Data(s.todo[0].input));
    case SendFlush => PostWeight(c, s.workers, s.client.next, FlushReq);
    case SendEnd => PostWeight(c, s.workers, s.client.next, End);
  }

  lemma {:induction false} ClientMeasure(c: Config, s: State, a: Action)
    requires Shape(c, s) && Handshake(c, s) && Enabled(c, s, a)
    requires a.BeginFlush? || a.ReceiveAck? || a.SendDrain? || a.ReceiveDrain? || a.BeginFinish? || a.Join?
    ensures Measure(c, Apply(c, s, a)) < Measure(c, s)
  {
    hide WorkerShape, Fits, Total, WorkerWeight, Open, AllClosed;
  }

  lemma {:induction false} WorkerMeasure(c: Config, s: State, a: Action)
    requires Shape(c, s) && Handshake(c, s) && Enabled(c, s, a)
    requires a.Take? || a.Send? || a.Discharge?
    ensures Measure(c, Apply(c, s, a)) < Measure(c, s)
  {
    hide WorkerShape, Total, TodoWeight, ClientWeight, Open;
    match a
    case Take(w, tau) =>
      TakenWeight(c, s.workers[w], tau);
      hide Taken;
      TotalUpdate(s.workers, w, Taken(c, s.workers[w], tau), WorkerWeight(c));
      hide WorkerWeight;
    case Send(w) => TotalUpdate(s.workers, w, Sent(s.workers[w]), WorkerWeight(c));
    case Discharge(w) =>
      var k := s.workers[w];
      TotalUpdate(s.workers, w, k.(duty := if k.duty.MustAck? then Ready else Stopped), WorkerWeight(c));
      assert Fits(s.client, w in s.control.acks, w, k);
  }

  lemma {:induction false} AggregatorMeasure(c: Config, s: State, a: Action)
    requires Shape(c, s) && Handshake(c, s) && Enabled(c, s, a)
    requires a.Poll? || a.EndSweep?
    ensures if Idle(c, s, a) then Measure(c, Apply(c, s, a)) == Measure(c, s)
            else Measure(c, Apply(c, s, a)) < Measure(c, s)
  {
    hide WorkerShape, Total, TodoWeight, ClientWeight, Fits, ApplyDelta, InboxWeight, NonZero;
    if a.Poll? {
      var w := s.agg.cursor;
      if s.agg.closed[w] {
      } else if s.workers[w].outbox != [] {
        TotalUpdate(s.workers, w, Popped(s.workers[w]), WorkerWeight(c));
      } else if s.workers[w].duty.Stopped? {
        OpenClose(s.agg.closed, w);
      }
    }
  }

  /** Every step lowers the measure except the aggregator's fruitless polls, which keep it. */
  lemma {:induction false} MeasureStep(c: Config, s: State, a: Action)
    requires Inv(c, s) && Enabled(c, s, a)
    ensures if Idle(c, s, a) then Measure(c, Apply(c, s, a)) == Measure(c, s)
            else Measure(c, Apply(c, s, a)) < Measure(c, s)
  {
    hide Measure, Apply, Ledger, Scripted, SweepSound;
    match a
    case Take(_, _) => WorkerMeasure(c, s, a);
    case Send(_) => WorkerMeasure(c, s, a);
    case Discharge(_) => WorkerMeasure(c, s, a);
    case Poll => AggregatorMeasure(c, s, a);
    case EndSweep => AggregatorMeasure(c, s, a);
    case Submit => PostMeasure(c, s, a);
    case SendFlush => PostMeasure(c, s, a);
    case SendEnd => PostMeasure(c, s, a);
    case _ => ClientMeasure(c, s, a);
  }

  lemma {:induction false} MeasureNonNegative(c: Config, s: State)
    requires Shape(c, s) && Handshake(c, s)
    ensures Measure(c, s) >= 0
  {
    hide WorkerShape, Fits, TodoWeight, InboxWeight, NonZero;
    TotalNonNegative(s.workers, WorkerWeight(c));
  }

  ghost function WorkDone(c: Config, s: State, acts: seq<Action>): nat
    decreases |acts|
  {
    if acts == [] then 0
    else if Shape(c, s) && Enabled(c, s, acts[0]) then
      (if Idle(c, s, acts[0]) then 0 else 1) + WorkDone(c, Apply(c, s, acts[0]), acts[1..])
    else 0
  }

  /** However the threads interleave, the steps that are not fruitless polls are bounded by the
      measure of the state they start from. */
  lemma {:induction false} WorkIsBounded(c: Config, s: State, acts: seq<Action>, t: State)
    requires Inv(c, s) && Run(c, s, acts, t)
    ensures WorkDone(c, s, acts) <= Measure(c, s)
    decreases |acts|
  {
    hide Measure, Apply, Enabled, Idle, Ledger, Scripted, SweepSound, Fits, Team;
    if acts == [] {
      MeasureNonNegative(c, s);
    } else {
      MeasureStep(c, s, acts[0]);
      InvStep(c, s, acts[0]);
      WorkIsBounded(c, Apply(c, s, acts[0]), acts[1..], t);
    }
  }

  // ---------------------------------------------------------------- no deadlock

  /** Polling outbox `w` would make progress. */
  ghost predicate Useful(s: State, w: nat) {
    w < |s.workers| && w < |s.agg.closed| && !s.agg.closed[w]
    && (s.workers[w].outbox != [] || s.workers[w].duty.Stopped?)
  }

  ghost predicate UsefulFrom(s: State, n: nat) {
    exists w: nat :: n <= w && Useful(s, w)
  }

  /** How many fruitless polls separate the aggregator from its next useful step. */
  ghost function Distance(c: Config, s: State): int {
    (c.workers - s.agg.cursor)
    + (if UsefulFrom(s, s.agg.cursor) || (!UsefulFrom(s, 0) && !s.agg.progress) then 0 else c.workers + 1)
  }

  ghost predicate ThreadCanMove(c: Config, s: State)
    requires Shape(c, s)
  {
    exists a: Action :: !a.Poll? && !a.EndSweep? && Enabled(c, s, a)
  }

  lemma {:induction false} WorkerStuck(c: Config, s: State, w: nat)
    requires Inv(c, s) && !ThreadCanMove(c, s) && w < c.workers && s.workers[w].outbox == []
    ensures s.workers[w].pending == [] && s.workers[w].inbox == []
    ensures s.workers[w].duty.Ready? || s.workers[w].duty.Stopped?
  {
    hide WorkerShape, Ledger, Scripted, SweepSound;
    var k := s.workers[w];
    assert !Enabled(c, s, Send(w)) && !Enabled(c, s, Discharge(w)) && !Enabled(c, s, Take(w, 1));
    assert Fits(s.client, w in s.control.acks, w, k);
  }

  /** If no client or worker step is possible and no outbox is worth polling, either Drain is
      waiting for the aggregator or every outbox is already closed. */
  lemma {:induction false} StuckNeedsAggregator(c: Config, s: State)
    requires Inv(c, s) && !ThreadCanMove(c, s) && !s.client.Finished? && !UsefulFrom(s, 0)
    ensures s.control.drain || AllClosed(s.agg.closed)
  {
    hide WorkerShape, Ledger, Scripted, SweepSound, Fits, Route;
    forall w: nat | w < c.workers
      ensures s.workers[w].outbox == [] && s.workers[w].pending == [] && s.workers[w].inbox == []
      ensures s.workers[w].duty.Ready? || (s.workers[w].duty.Stopped? && s.agg.closed[w])
    {
      assert !Useful(s, w);
      WorkerStuck(c, s, w);
    }
    match s.client
    case AwaitingAcks(left) =>
      var w :| w in left;
      assert !Enabled(c, s, ReceiveAck(w));
      StuckAck(c, s, w);
    case AwaitingDrain => assert !Enabled(c, s, ReceiveDrain);
    case Joining =>
      forall w: nat | w < c.workers ensures s.agg.closed[w] {
        StuckEnd(c, s, w);
      }
    case _ => ClientCanMove(c, s);
  }

  lemma {:induction false} ClientCanMove(c: Config, s: State)
    requires Shape(c, s) && Handshake(c, s) && forall w: nat :: w < c.workers ==> s.workers[w].inbox == []
    requires s.client.Running? || s.client.SendingFlush? || s.client.SendingDrain? || s.client.SendingEnd?
    ensures ThreadCanMove(c, s)
  {
    hide WorkerShape, Fits, Route;
    if s.client.SendingFlush? {
      assert Enabled(c, s, SendFlush);
    } else if s.client.SendingEnd? {
      assert Enabled(c, s, SendEnd);
    } else if s.client.SendingDrain? {
      assert Enabled(c, s, SendDrain);
    } else if s.todo == [] {
      assert Enabled(c, s, BeginFinish);
    } else if s.todo[0].Flush? {
      assert Enabled(c, s, BeginFlush);
    } else {
      assert Enabled(c, s, Submit);
    }
  }

  lemma {:induction false} StuckAck(c: Config, s: State, w: nat)
    requires Shape(c, s) && Handshake(c, s) && s.client.AwaitingAcks? && w in s.client.left && w < c.workers
    requires s.workers[w].inbox == [] && !s.workers[w].duty.MustAck?
    ensures w in s.control.acks
  {
    assert Fits(s.client, w in s.control.acks, w, s.workers[w]);
  }

  lemma {:induction false} StuckEnd(c: Config, s: State, w: nat)
    requires Shape(c, s) && Handshake(c, s) && s.client.Joining? && w < c.workers
    requires s.workers[w].inbox == [] && (s.workers[w].duty.Ready? || s.agg.closed[w])
    ensures s.agg.closed[w]
  {
    assert Fits(s.client, w in s.control.acks, w, s.workers[w]);
  }

  /** Once the aggregator has exited, the client can join it. */
  lemma {:induction false} DoneCanMove(c: Config, s: State)
    requires Inv(c, s) && s.agg.done && !s.client.Finished?
    ensures ThreadCanMove(c, s)
  {
    hide WorkerShape, Ledger, Scripted, SweepSound;
    forall w: nat | w < c.workers ensures s.workers[w].duty.Stopped? {
      assert s.agg.closed[w];
    }
    var w := match s.client
      case SendingEnd(next) => next
      case SendingFlush(next) => next
      case AwaitingAcks(left) => (var v :| v in left; v)
      case _ => 0;
    assert Fits(s.client, w in s.control.acks, w, s.workers[w]);
    assert Enabled(c, s, Join);
  }

  /** A fruitless aggregator step brings the next useful one closer. */
  lemma {:induction false} IdleApproaches(c: Config, s: State, a: Action)
    requires Inv(c, s) && !ThreadCanMove(c, s) && !s.client.Finished?
    requires (a.Poll? || a.EndSweep?) && Enabled(c, s, a) && Idle(c, s, a)
    ensures Distance(c, Apply(c, s, a)) < Distance(c, s)
  {
    hide WorkerShape, Ledger, Scripted, SweepSound, Handshake;
    var t := Apply(c, s, a);
    assert forall w: nat :: Useful(t, w) <==> Useful(s, w);
    assert UsefulFrom(t, 0) <==> UsefulFrom(s, 0);
    if a.Poll? {
      assert !Useful(s, s.agg.cursor);
      assert UsefulFrom(t, t.agg.cursor) <==> UsefulFrom(s, s.agg.cursor);
    } else {
      assert !UsefulFrom(s, c.workers);
      if !UsefulFrom(s, 0) {
        StuckNeedsAggregator(c, s);
      }
    }
  }

  /** From every reachable state some schedule brings the client's `finish` to its end. */
  lemma {:induction false} CanFinish(c: Config, s: State) returns (acts: seq<Action>, t: State)
    requires Inv(c, s)
    ensures Run(c, s, acts, t) && t.client.Finished?
    decreases Measure(c, s), Distance(c, s)
  {
    hide Measure, Distance, Apply, Enabled, Idle, Ledger, Scripted, SweepSound, Handshake, Team;
    if s.client.Finished? {
      acts, t := [], s;
    } else {
      var a := NextAction(c, s);
      MeasureStep(c, s, a);
      InvStep(c, s, a);
      MeasureOfInv(c, Apply(c, s, a));
      MeasureOfInv(c, s);
      var rest;
      rest, t := CanFinish(c, Apply(c, s, a));
      acts := [a] + rest;
      assert acts[1..] == rest;
    }
  }

  lemma {:induction false} MeasureOfInv(c: Config, s: State)
    requires Inv(c, s)
    ensures Measure(c, s) >= 0 && Distance(c, s) >= 0
  {
    MeasureNonNegative(c, s);
  }

  /** A step that lowers the measure, or one that keeps it and brings such a step closer. */
  lemma {:induction false} NextAction(c: Config, s: State) returns (a: Action)
    requires Inv(c, s) && !s.client.Finished?
    ensures Enabled(c, s, a) && (Idle(c, s, a) ==> Distance(c, Apply(c, s, a)) < Distance(c, s))
  {
    hide Distance, Apply, Ledger, Scripted, SweepSound, Handshake, WorkerShape;
    if ThreadCanMove(c, s) {
      a :| !a.Poll? && !a.EndSweep? && Enabled(c, s, a);
    } else {
      if s.agg.done { DoneCanMove(c, s); }
      a := if s.agg.cursor < c.workers then Poll else EndSweep;
      if Idle(c, s, a) { IdleApproaches(c, s, a); }
    }
  }

  /** No reachable state is a deadlock: `finish` can always still complete. */
  lemma {:induction false} NeverDeadlocks(c: Config, s: State)
    requires Reachable(c, s)
    ensures exists acts: seq<Action>, t: State :: Run(c, s, acts, t) && t.client.Finished?
  {
    hide Inv, Run;
    ReachableInv(c, s);
    var acts, t := CanFinish(c, s);
  }
}
