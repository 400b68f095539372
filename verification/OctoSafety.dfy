/** What every reachable state of the OctoSketch runtime satisfies: the handshake between the
    client and each worker, and the ledger that accounts for every accepted input. */
module OctoSafety {
  import opened OctoWorker
  import opened OctoProtocol

  // ---------------------------------------------------------------- the handshake

  ghost predicate OnlyData(inbox: seq<Msg>) {
    forall i :: 0 <= i < |inbox| ==> inbox[i].Data?
  }

  /** `m` is the last message of an inbox that otherwise holds only inputs. */
  ghost predicate EndsWith(inbox: seq<Msg>, m: Msg) {
    inbox != [] && inbox[|inbox| - 1] == m && OnlyData(inbox[..|inbox| - 1])
  }

  ghost predicate Empty(residual: seq<int>) {
    forall i :: 0 <= i < |residual| ==> residual[i] == 0
  }

  /** No control message on its way. */
  ghost predicate Clean(k: Worker) {
    k.duty.Ready? && OnlyData(k.inbox)
  }

  /** Everything handed over, nothing left to do. */
  ghost predicate Quiet(k: Worker) {
    k.duty.Ready? && k.inbox == [] && k.pending == [] && Empty(k.residual)
  }

  ghost predicate OwesAck(k: Worker) {
    if k.duty.Ready? then EndsWith(k.inbox, FlushReq)
    else k.duty.MustAck? && k.inbox == [] && Empty(k.residual)
  }

  ghost predicate Ending(k: Worker) {
    if k.duty.Ready? then EndsWith(k.inbox, End)
    else !k.duty.MustAck? && k.inbox == [] && Empty(k.residual) && (k.duty.Stopped? ==> k.pending == [])
  }

  ghost predicate Flushing(acked: bool, k: Worker) {
    if acked then Quiet(k) else OwesAck(k)
  }

  /** Where worker `w` can be, given what the client is doing. */
  ghost predicate Fits(client: Client, acked: bool, w: nat, k: Worker) {
    match client
    case Running => Clean(k) && !acked
    case SendingFlush(next) => if w < next then Flushing(acked, k) else Clean(k) && !acked
    case AwaitingAcks(left) => if w in left then Flushing(acked, k) else Quiet(k) && !acked
    case SendingDrain => Quiet(k) && !acked
    case AwaitingDrain => Quiet(k) && !acked
    case SendingEnd(next) => (if w < next then Ending(k) else Clean(k)) && !acked
    case Joining => Ending(k) && !acked
    case Finished => Ending(k) && !acked
  }

  ghost predicate ClientFits(c: Config, client: Client, todo: seq<Op>, control: Control, done: bool) {
    && (control.drain ==> client.AwaitingDrain?) && (control.drainAck ==> client.AwaitingDrain?)
    && match client
       case SendingFlush(next) => next < c.workers
       case AwaitingAcks(left) => left != {} && forall w :: w in left ==> w < c.workers
       case AwaitingDrain => control.drain != control.drainAck
       case SendingEnd(next) => next < c.workers && todo == []
       case Joining => todo == []
       case Finished => todo == [] && done
       case _ => true
  }

  ghost predicate Handshake(c: Config, s: State)
    requires Shape(c, s)
  {
    && ClientFits(c, s.client, s.todo, s.control, s.agg.done)
    && (forall w: nat :: w < c.workers ==> Fits(s.client, w in s.control.acks, w, s.workers[w]))
    && (forall w: nat :: w < c.workers && s.agg.closed[w] ==> Gone(s.workers[w]))
    && (s.agg.done ==> AllClosed(s.agg.closed))
  }

  /** The worker thread has exited and its outbox has been emptied. */
  ghost predicate Gone(k: Worker) {
    k.duty.Stopped? && k.outbox == []
  }

  lemma {:induction false} OnlyDataSnoc(inbox: seq<Msg>, m: Msg)
    requires OnlyData(inbox)
    ensures EndsWith(inbox + [m], m) && (m.Data? ==> OnlyData(inbox + [m]))
  {
    assert (inbox + [m])[..|inbox|] == inbox;
  }

  lemma {:induction false} EndsWithTail(inbox: seq<Msg>, m: Msg)
    requires EndsWith(inbox, m) && !m.Data?
    ensures inbox[0].Data? ==> EndsWith(inbox[1..], m)
    ensures !inbox[0].Data? ==> inbox == [m]
  {
    var init := inbox[..|inbox| - 1];
    assert forall i :: 0 <= i < |init| ==> init[i] == inbox[i];
    if inbox[0].Data? {
      assert inbox[1..][..|inbox[1..]| - 1] == inbox[1..|inbox| - 1];
    }
  }

  lemma {:induction false} NonZeroEmptyCells(cells: seq<int>)
    requires Empty(cells)
    ensures NonZero(cells) == 0
  {
    if cells != [] {
      NonZeroEmptyCells(cells[1..]);
    }
  }

  lemma TakenEmpty(c: Config, k: Worker, tau: nat)
    requires WorkerShape(c, k) && k.inbox != [] && !k.inbox[0].Data?
    ensures Empty(Taken(c, k, tau).residual)
  {
  }

  lemma {:induction false} TakeFits(c: Config, client: Client, acked: bool, w: nat, k: Worker, tau: nat)
    requires WorkerShape(c, k) && k.duty.Ready? && k.pending == [] && k.inbox != []
    requires Fits(client, acked, w, k)
    ensures Fits(client, acked, w, Taken(c, k, tau))
  {
    if EndsWith(k.inbox, FlushReq) { EndsWithTail(k.inbox, FlushReq); }
    if EndsWith(k.inbox, End) { EndsWithTail(k.inbox, End); }
    if !k.inbox[0].Data? { TakenEmpty(c, k, tau); }
  }

  lemma {:induction false} PostFits(k: Worker, m: Msg)
    requires Clean(k)
    ensures m.Data? ==> Clean(k.(inbox := k.inbox + [m]))
    ensures m.FlushReq? ==> OwesAck(k.(inbox := k.inbox + [m]))
    ensures m.End? ==> Ending(k.(inbox := k.inbox + [m]))
  {
    OnlyDataSnoc(k.inbox, m);
  }

  lemma PoppedFits(client: Client, acked: bool, w: nat, k: Worker)
    requires Fits(client, acked, w, k) && k.outbox != []
    ensures Fits(client, acked, w, Popped(k))
  {
  }

  lemma SentFits(client: Client, acked: bool, w: nat, k: Worker)
    requires Fits(client, acked, w, k) && k.pending != []
    ensures Fits(client, acked, w, Sent(k)) && !Gone(k)
  {
  }

  lemma {:induction false} HandshakeClient(c: Config, s: State, a: Action)
    requires Shape(c, s) && Handshake(c, s) && Enabled(c, s, a)
    requires a.BeginFlush? || a.ReceiveAck? || a.SendDrain? || a.ReceiveDrain? || a.BeginFinish? || a.Join?
    requires Shape(c, Apply(c, s, a))
    ensures Handshake(c, Apply(c, s, a))
  {
    hide WorkerShape, Empty;
    if a.ReceiveAck? {
      assert forall v :: v in s.client.left && v != a.w ==> v in s.client.left - {a.w};
    }
  }

  lemma {:induction false} HandshakePost(c: Config, s: State, a: Action)
    requires Shape(c, s) && Handshake(c, s) && Enabled(c, s, a)
    requires a.Submit? || a.SendFlush? || a.SendEnd?
    requires Shape(c, Apply(c, s, a))
    ensures Handshake(c, Apply(c, s, a))
  {
    hide Route, WorkerShape;
    var w := if a.Submit? then Route(c, s.nextWorker, s.todo[0].input) else s.client.next;
    var m := if a.Submit? then Data(s.todo[0].input) else if a.SendFlush? then FlushReq else End;
    PostFits(s.workers[w], m);
    hide OnlyData, Empty;
  }

  lemma {:induction false} HandshakeWorker(c: Config, s: State, w: nat, k: Worker)
    requires Shape(c, s) && Handshake(c, s) && w < c.workers
    requires Team(c, s.workers[w := k]) && |s.workers| == c.workers
    requires Fits(s.client, w in s.control.acks, w, k) && (Gone(s.workers[w]) ==> Gone(k))
    ensures Handshake(c, s.(workers := s.workers[w := k]))
  {
    hide WorkerShape, Fits, Gone;
  }

  lemma {:induction false} HandshakePoll(c: Config, s: State)
    requires Shape(c, s) && Handshake(c, s) && Enabled(c, s, Poll)
    requires Shape(c, Apply(c, s, Poll))
    ensures Handshake(c, Apply(c, s, Poll))
  {
    hide WorkerShape, Fits, ApplyDelta;
    var w := s.agg.cursor;
    if s.workers[w].outbox != [] { PoppedFits(s.client, w in s.control.acks, w, s.workers[w]); }
  }

  lemma {:induction false} HandshakeDischarge(c: Config, s: State, w: nat)
    requires Shape(c, s) && Handshake(c, s) && Enabled(c, s, Discharge(w))
    requires Shape(c, Apply(c, s, Discharge(w)))
    ensures Handshake(c, Apply(c, s, Discharge(w)))
  {
    hide WorkerShape, Empty;
  }

  lemma {:induction false} HandshakeStep(c: Config, s: State, a: Action)
    requires Shape(c, s) && Handshake(c, s) && Enabled(c, s, a)
    ensures Shape(c, Apply(c, s, a)) && Handshake(c, Apply(c, s, a))
  {
    ShapeStep(c, s, a);
    hide Fits, Taken;
    match a
    case Take(w, tau) =>
      TakeFits(c, s.client, w in s.control.acks, w, s.workers[w], tau);
      HandshakeWorker(c, s, w, Taken(c, s.workers[w], tau));
    case Send(w) =>
      SentFits(s.client, w in s.control.acks, w, s.workers[w]);
      HandshakeWorker(c, s, w, Sent(s.workers[w]));
    case Discharge(w) => HandshakeDischarge(c, s, w);
    case Poll => HandshakePoll(c, s);
    case EndSweep =>
    case Submit => HandshakePost(c, s, a);
    case SendFlush => HandshakePost(c, s, a);
    case SendEnd => HandshakePost(c, s, a);
    case _ => HandshakeClient(c, s, a);
  }

  // ---------------------------------------------------------------- sums over the fleet

  ghost function Total(ws: seq<Worker>, f: Worker -> int): int {
    if ws == [] then 0 else f(ws[0]) + Total(ws[1..], f)
  }

  lemma {:induction false} TotalUpdate(ws: seq<Worker>, w: nat, k: Worker, f: Worker -> int)
    requires w < |ws|
    ensures Total(ws[w := k], f) == Total(ws, f) - f(ws[w]) + f(k)
  {
    if w > 0 {
      TotalUpdate(ws[1..], w - 1, k, f);
      assert ws[w := k][1..] == ws[1..][w - 1 := k];
    } else {
      assert ws[0 := k][1..] == ws[1..];
    }
  }

  lemma {:induction false} TotalBounds(ws: seq<Worker>, f: Worker -> int, lo: int, hi: int)
    requires forall w :: 0 <= w < |ws| ==> lo <= f(ws[w]) <= hi
    ensures |ws| * lo <= Total(ws, f) <= |ws| * hi
  {
    if ws != [] {
      TotalBounds(ws[1..], f, lo, hi);
    }
  }

  // ---------------------------------------------------------------- the ledger

  ghost function At(cells: seq<int>, i: int): int {
    if 0 <= i < |cells| then cells[i] else 0
  }

  ghost function InboxMass(g: Geometry, inbox: seq<Msg>, i: int): int {
    if inbox == [] then 0
    else (if inbox[0].Data? then Contribution(g, inbox[0].input.hashes, i) else 0) + InboxMass(g, inbox[1..], i)
  }

  lemma {:induction false} InboxMassSnoc(g: Geometry, inbox: seq<Msg>, m: Msg, i: int)
    ensures InboxMass(g, inbox + [m], i) == InboxMass(g, inbox, i) + InboxMass(g, [m], i)
  {
    if inbox == [] {
      assert inbox + [m] == [m];
    } else {
      InboxMassSnoc(g, inbox[1..], m, i);
      assert (inbox + [m])[1..] == inbox[1..] + [m];
    }
  }

  /** What a worker has counted for counter `i` and the parent has not yet received. */
  ghost function InFlight(g: Geometry, i: int): Worker -> int {
    (k: Worker) => Mass(g, k.outbox, i) + Mass(g, k.pending, i)
  }

  ghost function HeldBack(i: int): Worker -> int {
    (k: Worker) => At(k.residual, i)
  }

  /** What the inputs still queued for a worker will add to counter `i`. */
  ghost function Waiting(g: Geometry, i: int): Worker -> int {
    (k: Worker) => InboxMass(g, k.inbox, i)
  }

  /** Every accepted input is accounted for, counter by counter: in the parent, in a promotion
      on its way, in a worker's counter, or still queued for a worker. */
  ghost predicate Ledger(g: Geometry, s: State, i: int) {
    && At(s.agg.parent, i) + Total(s.workers, InFlight(g, i)) + Total(s.workers, HeldBack(i))
       == SinglePassCell(g, s.hist.processed, i)
    && SinglePassCell(g, s.hist.processed, i) + Total(s.workers, Waiting(g, i))
       == SinglePassCell(g, s.hist.accepted, i)
  }

  lemma {:induction false} SinglePassSnoc(g: Geometry, inputs: seq<seq<Hash>>, h: seq<Hash>, i: int)
    ensures SinglePassCell(g, inputs + [h], i) == SinglePassCell(g, inputs, i) + Contribution(g, h, i)
  {
    assert (inputs + [h])[..|inputs|] == inputs;
  }

  /** What changes in the ledger when worker `w` becomes `k`. */
  lemma {:induction false} LedgerUpdate(g: Geometry, ws: seq<Worker>, w: nat, k: Worker, i: int)
    requires w < |ws|
    ensures Total(ws[w := k], InFlight(g, i)) == Total(ws, InFlight(g, i)) - InFlight(g, i)(ws[w]) + InFlight(g, i)(k)
    ensures Total(ws[w := k], HeldBack(i)) == Total(ws, HeldBack(i)) - HeldBack(i)(ws[w]) + HeldBack(i)(k)
    ensures Total(ws[w := k], Waiting(g, i)) == Total(ws, Waiting(g, i)) - Waiting(g, i)(ws[w]) + Waiting(g, i)(k)
  {
    TotalUpdate(ws, w, k, InFlight(g, i));
    TotalUpdate(ws, w, k, HeldBack(i));
    TotalUpdate(ws, w, k, Waiting(g, i));
  }

  lemma {:induction false} TakenConserves(c: Config, k: Worker, tau: nat, i: int)
    requires WorkerShape(c, k) && k.inbox != [] && k.pending == [] && 0 <= i < c.g.Cells()
    ensures var t := Taken(c, k, tau);
            InFlight(c.g, i)(t) + HeldBack(i)(t) + Waiting(c.g, i)(t)
            == InFlight(c.g, i)(k) + HeldBack(i)(k) + Waiting(c.g, i)(k)
    ensures Waiting(c.g, i)(Taken(c, k, tau)) == Waiting(c.g, i)(k) - InboxMass(c.g, [k.inbox[0]], i)
  {
    assert k.inbox[0] in k.inbox;
    assert InboxMass(c.g, k.inbox, i) == InboxMass(c.g, [k.inbox[0]], i) + InboxMass(c.g, k.inbox[1..], i);
    match k.inbox[0]
    case Data(input) => InsertConserves(c.g, k.residual, input.hashes, tau, 0, i);
    case FlushReq => FlushConserves(c.g, k.residual, i);
    case End => FlushConserves(c.g, k.residual, i);
  }

  lemma {:induction false} SentConserves(g: Geometry, k: Worker, i: int)
    requires k.pending != []
    ensures InFlight(g, i)(Sent(k)) == InFlight(g, i)(k)
  {
    MassConcat(g, k.outbox, [k.pending[0]], i);
  }

  lemma {:induction false} PoppedConserves(c: Config, parent: seq<int>, k: Worker, i: int)
    requires k.outbox != [] && InGrid(c.g, k.outbox[0]) && |parent| == c.g.Cells() && 0 <= i < |parent|
    ensures ApplyDelta(c.g, parent, k.outbox[0])[i] + InFlight(c.g, i)(Popped(k)) == parent[i] + InFlight(c.g, i)(k)
  {
    SlotInRange(c.g.rows, c.g.cols, k.outbox[0].row, k.outbox[0].col);
  }

  lemma {:induction false} PostConserves(g: Geometry, ws: seq<Worker>, w: nat, m: Msg, i: int)
    requires w < |ws|
    ensures Total(Post(ws, w, m), InFlight(g, i)) == Total(ws, InFlight(g, i))
    ensures Total(Post(ws, w, m), HeldBack(i)) == Total(ws, HeldBack(i))
    ensures Total(Post(ws, w, m), Waiting(g, i)) == Total(ws, Waiting(g, i)) + InboxMass(g, [m], i)
  {
    InboxMassSnoc(g, ws[w].inbox, m, i);
    LedgerUpdate(g, ws, w, ws[w].(inbox := ws[w].inbox + [m]), i);
  }

  lemma {:induction false} LedgerTake(c: Config, s: State, w: nat, tau: nat, i: int)
    requires Shape(c, s) && Enabled(c, s, Take(w, tau)) && 0 <= i < c.g.Cells() && Ledger(c.g, s, i)
    ensures Ledger(c.g, Apply(c, s, Take(w, tau)), i)
  {
    hide WorkerShape, SinglePassCell, Total, InFlight, HeldBack, Waiting;
    var k := s.workers[w];
    TakenConserves(c, k, tau, i);
    hide Taken;
    LedgerUpdate(c.g, s.workers, w, Taken(c, k, tau), i);
    if k.inbox[0].Data? {
      SinglePassSnoc(c.g, s.hist.processed, k.inbox[0].input.hashes, i);
    }
  }

  lemma {:induction false} LedgerPoll(c: Config, s: State, i: int)
    requires Shape(c, s) && Enabled(c, s, Poll) && 0 <= i < c.g.Cells() && Ledger(c.g, s, i)
    ensures Ledger(c.g, Apply(c, s, Poll), i)
  {
    hide SinglePassCell, Total, ApplyDelta, Mass, InboxMass;
    var w := s.agg.cursor;
    var k := s.workers[w];
    if k.outbox != [] {
      assert WorkerShape(c, k) && k.outbox[0] in k.outbox;
      hide WorkerShape;
      PoppedConserves(c, s.agg.parent, k, i);
      LedgerUpdate(c.g, s.workers, w, Popped(k), i);
    }
  }

  lemma {:induction false} LedgerSubmit(c: Config, s: State, i: int)
    requires Shape(c, s) && Enabled(c, s, Submit) && 0 <= i < c.g.Cells() && Ledger(c.g, s, i)
    ensures Ledger(c.g, Apply(c, s, Submit), i)
  {
    hide WorkerShape, SinglePassCell, Total, Post, Route;
    var input := s.todo[0].input;
    PostConserves(c.g, s.workers, Route(c, s.nextWorker, input), Data(input), i);
    SinglePassSnoc(c.g, s.hist.accepted, input.hashes, i);
  }

  lemma {:induction false} LedgerStep(c: Config, s: State, a: Action, i: int)
    requires Shape(c, s) && Enabled(c, s, a) && 0 <= i < c.g.Cells() && Ledger(c.g, s, i)
    ensures Ledger(c.g, Apply(c, s, a), i)
  {
    hide WorkerShape, SinglePassCell, Total, Mass;
    match a
    case Submit => LedgerSubmit(c, s, i);
    case SendFlush => PostConserves(c.g, s.workers, s.client.next, FlushReq, i); hide Post;
    case SendEnd => PostConserves(c.g, s.workers, s.client.next, End, i); hide Post;
    case Take(w, tau) => LedgerTake(c, s, w, tau, i);
    case Send(w) =>
      SentConserves(c.g, s.workers[w], i);
      LedgerUpdate(c.g, s.workers, w, Sent(s.workers[w]), i);
    case Discharge(w) =>
      var k := s.workers[w];
      LedgerUpdate(c.g, s.workers, w, k.(duty := if k.duty.MustAck? then Ready else Stopped), i);
    case Poll => LedgerPoll(c, s, i);
    case _ =>
  }

  // ---------------------------------------------------------------- history and sweeps

  /** The inputs accepted so far and the inserts still to come are the program's inserts. */
  ghost predicate Scripted(c: Config, s: State) {
    s.hist.accepted + Inserts(s.todo) == Inserts(c.program)
  }

  ghost predicate Drained(ws: seq<Worker>, n: nat) {
    forall w :: 0 <= w < n && w < |ws| ==> ws[w].outbox == []
  }

  /** A sweep that began with Drain queued and has applied nothing has left empty outboxes
      behind it, and a Drain answered by such a sweep was answered with every outbox empty. */
  ghost predicate SweepSound(s: State) {
    && (s.hist.sweepSawDrain ==> s.control.drain)
    && (s.hist.sweepSawDrain && !s.agg.progress ==> Drained(s.workers, s.agg.cursor))
    && (s.hist.answerSound && s.control.drainAck ==> Drained(s.workers, |s.workers|))
  }

  lemma {:induction false} ScriptedStep(c: Config, s: State, a: Action)
    requires Shape(c, s) && Enabled(c, s, a) && Scripted(c, s)
    ensures Scripted(c, Apply(c, s, a))
  {
    hide WorkerShape, Route, Post;
    if a.Submit? {
      ConcatAssociates(s.hist.accepted, [s.todo[0].input.hashes], Inserts(s.todo[1..]));
    } else if a.BeginFlush? {
      assert Inserts(s.todo) == [] + Inserts(s.todo[1..]) == Inserts(s.todo[1..]);
    }
  }

  lemma {:induction false} SweepPoll(c: Config, s: State)
    requires Shape(c, s) && Enabled(c, s, Poll) && Handshake(c, s) && SweepSound(s)
    ensures SweepSound(Apply(c, s, Poll))
  {
    hide WorkerShape, Fits, ApplyDelta;
  }

  lemma {:induction false} SweepTake(c: Config, s: State, w: nat, tau: nat)
    requires Shape(c, s) && Enabled(c, s, Take(w, tau)) && SweepSound(s)
    ensures SweepSound(Apply(c, s, Take(w, tau)))
  {
    var k := Taken(c, s.workers[w], tau);
    assert k.outbox == s.workers[w].outbox;
    hide Taken, WorkerShape;
  }

  lemma {:induction false} SweepClient(c: Config, s: State, a: Action)
    requires Shape(c, s) && Enabled(c, s, a) && Handshake(c, s) && SweepSound(s)
    requires !a.Take? && !a.Send? && !a.Discharge? && !a.Poll? && !a.EndSweep?
    ensures SweepSound(Apply(c, s, a))
  {
    hide WorkerShape, Route, Fits, Post, Drained;
  }

  lemma {:induction false} SweepStep(c: Config, s: State, a: Action)
    requires Shape(c, s) && Enabled(c, s, a) && Handshake(c, s) && SweepSound(s)
    ensures SweepSound(Apply(c, s, a))
  {
    match a
    case Take(w, tau) => SweepTake(c, s, w, tau);
    case Send(w) => assert Fits(s.client, w in s.control.acks, w, s.workers[w]); hide WorkerShape;
    case Discharge(w) => hide WorkerShape, Fits;
    case Poll => SweepPoll(c, s);
    case EndSweep => hide WorkerShape, Fits;
    case _ => SweepClient(c, s, a);
  }
}
