/** A guarantee about `flush` that its caller can rely on without seeing the queues: a `flush` with no
    insert since the previous one returned leaves the parent exact. */
module OctoQuietFlush {
  import opened OctoWorker
  import opened OctoProtocol
  import opened OctoSafety
  import opened OctoTheorems

  /** The sweep under way has applied a promotion, or has left only empty outboxes behind it. */
  ghost predicate SweepClears(s: State) {
    s.agg.progress || Drained(s.workers, s.agg.cursor)
  }

  /** From the answer to a Drain request until `flush` returns, sweeps are clear. */
  ghost predicate AnswerClears(s: State) {
    s.control.drainAck ==> SweepClears(s)
  }

  lemma {:induction false} AnswerClearsStep(c: Config, s: State, a: Action)
    requires Inv(c, s) && Enabled(c, s, a) && AnswerClears(s)
    ensures AnswerClears(Apply(c, s, a))
  {
    hide WorkerShape, Bounded, Promotable, ApplyDelta, Taken, Sent, Post, Route, Ledger, Prepared, FullRows;
    if a.EndSweep? && s.client.AwaitingDrain? {
      assert Fits(s.client, 0 in s.control.acks, 0, s.workers[0]);
    }
  }

  lemma {:induction false} AnswerClearsRun(c: Config, s: State, acts: seq<Action>, t: State)
    requires Inv(c, s) && AnswerClears(s) && Run(c, s, acts, t)
    ensures AnswerClears(t)
    decreases |acts|
  {
    hide Inv, Apply, Enabled, AnswerClears;
    if acts != [] {
      assert Shape(c, s) by { assert Inv(c, s); }
      AnswerClearsStep(c, s, acts[0]);
      InvStep(c, s, acts[0]);
      AnswerClearsRun(c, Apply(c, s, acts[0]), acts[1..], t);
    }
  }

  // ---------------------------------------------------------------- while nothing is inserted

  /** Nothing left to count or to send; control messages may be on their way. */
  ghost predicate Spent(k: Worker) {
    k.pending == [] && Empty(k.residual) && forall i :: 0 <= i < |k.inbox| ==> !k.inbox[i].Data?
  }

  ghost predicate Calm(s: State) {
    (forall w :: 0 <= w < |s.workers| ==> Spent(s.workers[w])) && SweepClears(s)
  }

  /** A Drain answered from now on is answered with every outbox empty. */
  ghost predicate Honest(s: State) {
    s.control.drainAck ==> Drained(s.workers, |s.workers|)
  }

  /** A `flush` that returns leaves the system calm. */
  lemma {:induction false} ReturnIsCalm(c: Config, s: State)
    requires FlushReturns(c, s)
    ensures Inv(c, s) && Calm(s)
  {
    ReachableInv(c, s);
    var acts :| Run(c, Init(c), acts, s);
    InitInv(c);
    AnswerClearsRun(c, Init(c), acts, s);
    forall w: nat | w < |s.workers| ensures Spent(s.workers[w]) {
      assert Fits(s.client, w in s.control.acks, w, s.workers[w]);
    }
  }

  lemma {:induction false} FlushOfEmpty(g: Geometry, cells: seq<int>)
    requires |cells| == g.Cells() && Empty(cells)
    ensures FlushAll(g, cells) == []
  {
    FlushCost(g, cells);
    NonZeroEmptyCells(cells);
  }

  lemma {:induction false} TakenSpent(c: Config, k: Worker, tau: nat)
    requires WorkerShape(c, k) && Spent(k) && k.inbox != []
    ensures Spent(Taken(c, k, tau)) && Taken(c, k, tau).outbox == k.outbox
  {
    FlushOfEmpty(c.g, k.residual);
  }

  lemma PostSpent(k: Worker, m: Msg)
    requires Spent(k) && !m.Data?
    ensures Spent(k.(inbox := k.inbox + [m]))
  {
  }

  lemma {:induction false} CalmPoll(c: Config, s: State)
    requires Inv(c, s) && Enabled(c, s, Poll) && Calm(s)
    ensures Calm(Apply(c, s, Poll)) && (Honest(s) ==> Honest(Apply(c, s, Poll)))
  {
    hide WorkerShape, Ledger, ApplyDelta, Fits, Empty, Prepared, FullRows;
  }

  /** No step but an insert disturbs the calm, and the next `flush` starts afresh. */
  lemma {:induction false} CalmStep(c: Config, s: State, a: Action)
    requires Inv(c, s) && Enabled(c, s, a) && Calm(s) && !a.Submit?
    ensures Calm(Apply(c, s, a))
    ensures a.ReceiveDrain? || Honest(s) ==> Honest(Apply(c, s, a))
  {
    hide Ledger, Handshake, Scripted, SweepSound, Prepared, FullRows, Taken, Empty, Bounded, Promotable;
    match a
    case Take(w, tau) =>
      TakenSpent(c, s.workers[w], tau);
    case SendFlush =>
      PostSpent(s.workers[s.client.next], FlushReq);
    case SendEnd =>
      PostSpent(s.workers[s.client.next], End);
    case Poll =>
      CalmPoll(c, s);
    case _ =>
  }

  lemma {:induction false} CalmRun(c: Config, s: State, acts: seq<Action>, t: State)
    requires Inv(c, s) && Calm(s) && Run(c, s, acts, t) && Submit !in acts
    requires Honest(s) || ReceiveDrain in acts
    ensures Honest(t)
    decreases |acts|
  {
    hide Inv, Apply, Enabled, Calm, Honest;
    if acts != [] {
      assert Shape(c, s) by { assert Inv(c, s); }
      assert acts[0] in acts && forall a :: a in acts[1..] ==> a in acts;
      assert ReceiveDrain in acts ==> acts[0] == ReceiveDrain || ReceiveDrain in acts[1..];
      CalmStep(c, s, acts[0]);
      InvStep(c, s, acts[0]);
      CalmRun(c, Apply(c, s, acts[0]), acts[1..], t);
    }
  }

  /** Main result: between two returns of `flush` without an insert, whatever the threads do, the
      second leaves the parent exact: equal to the single-threaded sketch of all accepted inputs. */
  lemma {:induction false} QuietFlushIsExact(c: Config, s: State, acts: seq<Action>, t: State)
    requires FlushReturns(c, s) && Run(c, s, acts, t) && FlushReturns(c, t)
    requires ReceiveDrain in acts && Submit !in acts
    ensures FullRows(c.g, t.hist.accepted) && t.agg.parent == SinglePass(c.g, t.hist.accepted)
  {
    hide Reachable, Run, Inv, Calm, SinglePass, FullRows;
    ReturnIsCalm(c, s);
    CalmRun(c, s, acts, t);
    FlushExactIffDrained(c, t);
  }
}
