/** The OctoSketch runtime as a transition system: one client thread, a fleet of worker threads
    with bounded inbox and outbox queues, and one aggregator thread that polls the outboxes in
    turn. A step of the system is one step of one thread; `Apply` says what it does.

    The threshold in force when a worker takes an input is an argument of that step, so every
    threshold schedule is covered. The fields of `History` are auxiliary: no step's enabledness
    or effect on the other fields depends on them. */
module OctoProtocol {
  import opened OctoWorker
  import opened Wrappers

  datatype Partition = HashByKey | RoundRobin

  /** A prepared input: the hash that routes it and one hash per row. */
  datatype Input = Input(key: Hash, hashes: seq<Hash>)

  /** What the client's program does before `finish`. */
  datatype Op = Insert(input: Input) | Flush

  datatype Msg = Data(input: Input) | FlushReq | End

  datatype Config = Config(g: Geometry, workers: pos, capacity: pos, partition: Partition,
                           tauMax: pos, program: seq<Op>)
  {
    ghost predicate Valid() {
      tauMax <= MAX_PROMASK && Prepared(g, program)
    }
  }

  /** Every insert of a program supplies one hash per row. */
  ghost predicate Prepared(g: Geometry, ops: seq<Op>) {
    forall op :: op in ops && op.Insert? ==> |op.input.hashes| == g.rows
  }

  ghost function Inserts(ops: seq<Op>): seq<seq<Hash>> {
    if ops == [] then []
    else (if ops[0].Insert? then [ops[0].input.hashes] else []) + Inserts(ops[1..])
  }

  /** What a worker still owes once its pending promotions are sent. */
  datatype Duty = Ready | MustAck | MustStop | Stopped

  datatype Worker = Worker(inbox: seq<Msg>, residual: seq<int>, pending: seq<Delta>, duty: Duty, outbox: seq<Delta>)

  datatype Client =
    | Running
    | SendingFlush(next: nat)
    | AwaitingAcks(left: set<nat>)
    | SendingDrain
    | AwaitingDrain
    | SendingEnd(next: nat)
    | Joining
    | Finished

  /** Acknowledgements of a flush and the Drain request and acknowledgement in transit. */
  datatype Control = Control(acks: set<nat>, drain: bool, drainAck: bool)

  /** `cursor` is the next outbox the current sweep polls, `progress` whether the sweep has
      applied a promotion, `closed` which outboxes were found disconnected. */
  datatype Aggregator = Aggregator(parent: seq<int>, cursor: nat, progress: bool, closed: seq<bool>, done: bool)

  /** `sweepSawDrain`: the current sweep began with Drain already queued; `answerSound`: the last
      Drain was answered by such a sweep. */
  datatype History = History(accepted: seq<seq<Hash>>, processed: seq<seq<Hash>>,
                             sweepSawDrain: bool, answerSound: bool)

  datatype State = State(todo: seq<Op>, client: Client, nextWorker: nat, workers: seq<Worker>,
                         control: Control, agg: Aggregator, hist: History)

  datatype Action =
    | Submit | BeginFlush | SendFlush | ReceiveAck(w: nat) | SendDrain | ReceiveDrain
    | BeginFinish | SendEnd | Join
    | Take(w: nat, tau: nat) | Send(w: nat) | Discharge(w: nat)
    | Poll | EndSweep

  ghost function Ids(n: nat): (r: set<nat>)
    ensures forall w: nat :: w in r <==> w < n
  {
    if n == 0 then {} else Ids(n - 1) + {n - 1}
  }

  ghost function Init(c: Config): State {
    State(c.program, Running, 0,
          seq(c.workers, i => Worker([], Zeros(c.g.Cells()), [], Ready, [])),
          Control({}, false, false),
          Aggregator(Zeros(c.g.Cells()), 0, false, seq(c.workers, i => false), false),
          History([], [], false, false))
  }

  function Route(c: Config, nextWorker: nat, input: Input): (w: nat)
    ensures w < c.workers
  {
    match c.partition
    case HashByKey => input.key % c.workers
    case RoundRobin => nextWorker % c.workers
  }

  // ---------------------------------------------------------------- shape

  ghost predicate WorkerShape(c: Config, k: Worker) {
    && |k.residual| == c.g.Cells() && Bounded(c.g.kind, k.residual, c.tauMax)
    && |k.inbox| <= c.capacity && |k.outbox| <= c.capacity
    && (forall m :: m in k.inbox && m.Data? ==> |m.input.hashes| == c.g.rows)
    && Promotable(c.g, k.pending, c.tauMax) && Promotable(c.g, k.outbox, c.tauMax)
  }

  ghost predicate Team(c: Config, ws: seq<Worker>) {
    |ws| == c.workers && forall w :: 0 <= w < |ws| ==> WorkerShape(c, ws[w])
  }

  /** Queues within capacity, one hash per row, and the one-byte bounds on every counter. */
  ghost predicate Shape(c: Config, s: State) {
    && Team(c, s.workers)
    && |s.agg.closed| == c.workers && |s.agg.parent| == c.g.Cells() && s.agg.cursor <= c.workers
    && Prepared(c.g, s.todo) && FullRows(c.g, s.hist.accepted) && FullRows(c.g, s.hist.processed)
  }

  // ---------------------------------------------------------------- when a step can happen

  ghost predicate Room(c: Config, ws: seq<Worker>, w: nat) {
    w < |ws| && |ws[w].inbox| < c.capacity
  }

  ghost predicate AllClosed(closed: seq<bool>) {
    forall w :: 0 <= w < |closed| ==> closed[w]
  }

  ghost predicate AllStopped(ws: seq<Worker>) {
    forall w :: 0 <= w < |ws| ==> ws[w].duty.Stopped?
  }

  ghost predicate Enabled(c: Config, s: State, a: Action)
    requires Shape(c, s)
  {
    match a
    case Submit =>
      && s.client.Running? && s.todo != [] && s.todo[0].Insert?
      && Room(c, s.workers, Route(c, s.nextWorker, s.todo[0].input))
    case BeginFlush => s.client.Running? && s.todo != [] && s.todo[0].Flush?
    case SendFlush => s.client.SendingFlush? && Room(c, s.workers, s.client.next)
    case ReceiveAck(w) => s.client.AwaitingAcks? && w in s.client.left && w in s.control.acks
    case SendDrain => s.client.SendingDrain? && !s.control.drain
    case ReceiveDrain => s.client.AwaitingDrain? && s.control.drainAck
    case BeginFinish => s.client.Running? && s.todo == []
    case SendEnd => s.client.SendingEnd? && Room(c, s.workers, s.client.next)
    case Join => s.client.Joining? && AllStopped(s.workers) && s.agg.done
    case Take(w, tau) =>
      && w < c.workers && 1 <= tau <= c.tauMax
      && s.workers[w].duty.Ready? && s.workers[w].pending == [] && s.workers[w].inbox != []
    case Send(w) => w < c.workers && s.workers[w].pending != [] && |s.workers[w].outbox| < c.capacity
    case Discharge(w) =>
      && w < c.workers && s.workers[w].pending == []
      && (s.workers[w].duty.MustAck? || s.workers[w].duty.MustStop?)
    case Poll => !s.agg.done && s.agg.cursor < c.workers
    case EndSweep => !s.agg.done && s.agg.cursor == c.workers
  }

  // ---------------------------------------------------------------- what a step does

  ghost function Post(ws: seq<Worker>, w: nat, m: Msg): seq<Worker>
    requires w < |ws|
  {
    ws[w := ws[w].(inbox := ws[w].inbox + [m])]
  }

  /** A worker takes the next message: an input becomes counters and pending promotions, a
      control message turns every non-zero counter into a pending promotion. */
  ghost function Taken(c: Config, k: Worker, tau: nat): Worker
    requires WorkerShape(c, k) && k.inbox != []
  {
    match k.inbox[0]
    case Data(input) =>
      assert k.inbox[0] in k.inbox;
      var r := OctoWorker.Insert(c.g, k.residual, input.hashes, tau);
      Worker(k.inbox[1..], r.0, r.1, k.duty, k.outbox)
    case FlushReq => Worker(k.inbox[1..], Zeros(c.g.Cells()), FlushAll(c.g, k.residual), MustAck, k.outbox)
    case End => Worker(k.inbox[1..], Zeros(c.g.Cells()), FlushAll(c.g, k.residual), MustStop, k.outbox)
  }

  ghost function Sent(k: Worker): Worker
    requires k.pending != []
  {
    k.(pending := k.pending[1..], outbox := k.outbox + [k.pending[0]])
  }

  ghost function Popped(k: Worker): Worker
    requires k.outbox != []
  {
    k.(outbox := k.outbox[1..])
  }

  ghost function ApplyDelta(g: Geometry, parent: seq<int>, d: Delta): (r: seq<int>)
    requires |parent| == g.Cells() && InGrid(g, d)
    ensures |r| == |parent|
  {
    SlotInRange(g.rows, g.cols, d.row, d.col);
    var i := Slot(g.cols, d.row, d.col);
    parent[i := parent[i] + d.value]
  }

  /** The current sweep's poll of one outbox. */
  ghost function Polled(c: Config, s: State): State
    requires Shape(c, s) && s.agg.cursor < c.workers
  {
    var w := s.agg.cursor;
    var k := s.workers[w];
    if s.agg.closed[w] then s.(agg := s.agg.(cursor := w + 1))
    else if k.outbox != [] then
      assert k.outbox[0] in k.outbox;
      s.(workers := s.workers[w := Popped(k)],
         agg := s.agg.(cursor := w + 1, progress := true, parent := ApplyDelta(c.g, s.agg.parent, k.outbox[0])))
    else if k.duty.Stopped? then s.(agg := s.agg.(cursor := w + 1, closed := s.agg.closed[w := true]))
    else s.(agg := s.agg.(cursor := w + 1))
  }

  ghost predicate Answers(s: State) {
    !s.agg.progress && s.control.drain
  }

  /** The end of a sweep: the Drain request is looked at only if the sweep applied nothing, and
      the thread exits once every outbox is disconnected. */
  ghost function Swept(s: State): State {
    var control := if Answers(s) then s.control.(drain := false, drainAck := true) else s.control;
    var sound := if Answers(s) then s.hist.sweepSawDrain else s.hist.answerSound;
    if AllClosed(s.agg.closed) then
      s.(control := control, agg := s.agg.(done := true),
         hist := s.hist.(sweepSawDrain := false, answerSound := sound))
    else
      s.(control := control, agg := s.agg.(cursor := 0, progress := false),
         hist := s.hist.(sweepSawDrain := control.drain, answerSound := sound))
  }

  ghost function Apply(c: Config, s: State, a: Action): State
    requires Shape(c, s) && Enabled(c, s, a)
  {
    match a
    case Submit =>
      var input := s.todo[0].input;
      s.(todo := s.todo[1..],
         nextWorker := s.nextWorker + (if c.partition.RoundRobin? then 1 else 0),
         workers := Post(s.workers, Route(c, s.nextWorker, input), Data(input)),
         hist := s.hist.(accepted := s.hist.accepted + [input.hashes]))
    case BeginFlush => s.(todo := s.todo[1..], client := SendingFlush(0))
    case SendFlush =>
      var next := s.client.next;
      s.(workers := Post(s.workers, next, FlushReq),
         client := if next + 1 < c.workers then SendingFlush(next + 1) else AwaitingAcks(Ids(c.workers)))
    case ReceiveAck(w) =>
      var left := s.client.left - {w};
      s.(client := if left != {} then AwaitingAcks(left) else SendingDrain,
         control := s.control.(acks := s.control.acks - {w}))
    case SendDrain => s.(client := AwaitingDrain, control := s.control.(drain := true))
    case ReceiveDrain => s.(client := Running, control := s.control.(drainAck := false))
    case BeginFinish => s.(client := SendingEnd(0))
    case SendEnd =>
      var next := s.client.next;
      s.(workers := Post(s.workers, next, End),
         client := if next + 1 < c.workers then SendingEnd(next + 1) else Joining)
    case Join => s.(client := Finished)
    case Take(w, tau) =>
      var k := s.workers[w];
      s.(workers := s.workers[w := Taken(c, k, tau)],
         hist := if k.inbox[0].Data? then s.hist.(processed := s.hist.processed + [k.inbox[0].input.hashes])
                 else s.hist)
    case Send(w) => s.(workers := s.workers[w := Sent(s.workers[w])])
    case Discharge(w) =>
      var k := s.workers[w];
      if k.duty.MustAck? then
        s.(workers := s.workers[w := k.(duty := Ready)], control := s.control.(acks := s.control.acks + {w}))
      else
        s.(workers := s.workers[w := k.(duty := Stopped)])
    case Poll => Polled(c, s)
    case EndSweep => Swept(s)
  }

  /** `acts`, taken in order from `s`, lead to `t`. */
  ghost predicate Run(c: Config, s: State, acts: seq<Action>, t: State)
    decreases |acts|
  {
    if acts == [] then s == t
    else Shape(c, s) && Enabled(c, s, acts[0]) && Run(c, Apply(c, s, acts[0]), acts[1..], t)
  }

  // ---------------------------------------------------------------- the shape is kept

  lemma {:induction false} TakenShape(c: Config, k: Worker, tau: nat)
    requires WorkerShape(c, k) && k.inbox != [] && 1 <= tau <= c.tauMax
    ensures WorkerShape(c, Taken(c, k, tau))
  {
    assert k.inbox[0] in k.inbox;
    match k.inbox[0]
    case Data(input) => InsertBounded(c.g, k.residual, input.hashes, tau, 0, c.tauMax);
    case FlushReq => FlushAllPromotable(c.g, k.residual, c.tauMax);
    case End => FlushAllPromotable(c.g, k.residual, c.tauMax);
  }

  lemma {:induction false} SetWorker(c: Config, ws: seq<Worker>, w: nat, k: Worker)
    requires Team(c, ws) && w < c.workers && WorkerShape(c, k)
    ensures Team(c, ws[w := k])
  {
    hide WorkerShape;
  }

  lemma {:induction false} PostShape(c: Config, ws: seq<Worker>, w: nat, m: Msg)
    requires Team(c, ws) && Room(c, ws, w)
    requires m.Data? ==> |m.input.hashes| == c.g.rows
    ensures Team(c, Post(ws, w, m))
  {
    SetWorker(c, ws, w, ws[w].(inbox := ws[w].inbox + [m]));
  }

  lemma {:induction false} SubmitShape(c: Config, s: State)
    requires Shape(c, s) && Enabled(c, s, Submit)
    ensures Shape(c, Apply(c, s, Submit))
  {
    hide Team, Route, Post;
    assert s.todo[0] in s.todo;
    PostShape(c, s.workers, Route(c, s.nextWorker, s.todo[0].input), Data(s.todo[0].input));
  }

  lemma {:induction false} TakeShape(c: Config, s: State, w: nat, tau: nat)
    requires Shape(c, s) && Enabled(c, s, Take(w, tau))
    ensures Shape(c, Apply(c, s, Take(w, tau)))
  {
    var k := s.workers[w];
    assert k.inbox != [] ==> k.inbox[0] in k.inbox;
    TakenShape(c, k, tau);
    hide Taken;
    SetWorker(c, s.workers, w, Taken(c, k, tau));
    hide Team;
  }

  lemma SentShape(c: Config, k: Worker)
    requires WorkerShape(c, k) && k.pending != [] && |k.outbox| < c.capacity
    ensures WorkerShape(c, Sent(k))
  {
  }

  lemma {:induction false} PollShape(c: Config, s: State)
    requires Shape(c, s) && Enabled(c, s, Poll)
    ensures Shape(c, Apply(c, s, Poll))
  {
    hide ApplyDelta, FullRows, Prepared;
    var w := s.agg.cursor;
    if s.workers[w].outbox != [] {
      assert WorkerShape(c, s.workers[w]);
      assert WorkerShape(c, Popped(s.workers[w]));
      SetWorker(c, s.workers, w, Popped(s.workers[w]));
      hide Team;
    }
  }

  lemma {:induction false} ShapeStep(c: Config, s: State, a: Action)
    requires Shape(c, s) && Enabled(c, s, a)
    ensures Shape(c, Apply(c, s, a))
  {
    match a
    case Submit => SubmitShape(c, s);
    case SendFlush => PostShape(c, s.workers, s.client.next, FlushReq); hide Post, Team;
    case SendEnd => PostShape(c, s.workers, s.client.next, End); hide Post, Team;
    case Take(w, tau) => TakeShape(c, s, w, tau);
    case Send(w) => SentShape(c, s.workers[w]); SetWorker(c, s.workers, w, Sent(s.workers[w])); hide Team;
    case Discharge(w) =>
      var k := s.workers[w];
      SetWorker(c, s.workers, w, k.(duty := if k.duty.MustAck? then Ready else Stopped));
      hide Team;
    case Poll => PollShape(c, s);
    case _ => hide Team;
  }
}
