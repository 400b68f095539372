/** Where inputs go and in which order they arrive: the partition policies, and the queues between the
    threads. */
module OctoRouting {
  import opened OctoWorker
  import opened OctoProtocol
  import opened OctoTheorems

  /** Round robin counts the inputs accepted. */
  ghost predicate Counts(c: Config, s: State) {
    c.partition.RoundRobin? ==> s.nextWorker == |s.hist.accepted|
  }

  lemma CountsStep(c: Config, s: State, a: Action)
    requires Shape(c, s) && Enabled(c, s, a) && Counts(c, s)
    ensures Counts(c, Apply(c, s, a))
  {
    hide WorkerShape, Prepared, Route, Post, Taken, Sent, Popped, ApplyDelta;
  }

  lemma {:induction false} CountsRun(c: Config, s: State, acts: seq<Action>, t: State)
    requires Run(c, s, acts, t) && Counts(c, s)
    ensures Counts(c, t)
    decreases |acts|
  {
    hide Shape, Enabled, Apply, Counts;
    if acts != [] {
      CountsStep(c, s, acts[0]);
      CountsRun(c, Apply(c, s, acts[0]), acts[1..], t);
    }
  }

  /** Main result: the n-th input accepted, counted from 0, goes to worker n modulo the number of
      workers under round robin; under hashing its key alone decides. It joins the end of that
      worker's queue, and no other worker changes. */
  lemma {:induction false} SubmitGoesTo(c: Config, s: State)
    requires Reachable(c, s) && Shape(c, s) && Enabled(c, s, Submit)
    ensures var t, input := Apply(c, s, Submit), s.todo[0].input;
            var to := if c.partition.HashByKey? then input.key % c.workers else |s.hist.accepted| % c.workers;
            && |t.workers| == |s.workers| && t.hist.accepted == s.hist.accepted + [input.hashes]
            && t.todo == s.todo[1..]
            && forall w: nat :: w < |s.workers| ==>
                 t.workers[w] == if w == to then s.workers[w].(inbox := s.workers[w].inbox + [Data(input)])
                                 else s.workers[w]
  {
    var acts :| Run(c, Init(c), acts, s);
    CountsRun(c, Init(c), acts, s);
  }

  // ---------------------------------------------------------------- what a worker does with a message

  /** A worker that takes an input counts it as specified row by row, under the threshold then in force,
      and has its promotions to send. */
  lemma {:induction false} TakeArrives(c: Config, s: State, w: nat, tau: nat)
    requires Shape(c, s) && Enabled(c, s, Take(w, tau)) && s.workers[w].inbox[0].Data?
    ensures var k, t := s.workers[w], Apply(c, s, Take(w, tau)).workers[w];
            && t.inbox == k.inbox[1..] && t.outbox == k.outbox && t.duty == k.duty
            && Arrived(c.g, k.residual, k.inbox[0].input.hashes, tau, 0, t.residual, t.pending)
  {
    var k := s.workers[w];
    assert k.inbox[0] in k.inbox;
    InsertArrives(c.g, k.residual, k.inbox[0].input.hashes, tau, 0);
    hide Arrived, InsertFrom;
  }

  /** A worker told to flush or to end has every counter that is not zero to send, and is empty. */
  lemma {:induction false} TakeFlushes(c: Config, s: State, w: nat, tau: nat)
    requires Shape(c, s) && Enabled(c, s, Take(w, tau)) && !s.workers[w].inbox[0].Data?
    ensures var k, t := s.workers[w], Apply(c, s, Take(w, tau)).workers[w];
            && t.inbox == k.inbox[1..] && t.outbox == k.outbox
            && t.duty == (if k.inbox[0].FlushReq? then MustAck else MustStop)
            && |t.residual| == c.g.Cells() && (forall i :: 0 <= i < c.g.Cells() ==> t.residual[i] == 0)
            && ListsFrom(c.g, k.residual, 0, t.pending)
  {
    FlushAllLists(c.g, s.workers[w].residual);
    hide ListsFrom, FlushAll;
  }

  // ---------------------------------------------------------------- first in, first out

  /** What a step appends to the inbox of worker `w`, as its queue shows it. */
  ghost function Posted(c: Config, s: State, a: Action, w: nat): seq<Msg>
    requires Shape(c, s) && Enabled(c, s, a) && w < c.workers
  {
    match a
    case Submit => if Route(c, s.nextWorker, s.todo[0].input) == w then [Data(s.todo[0].input)] else []
    case SendFlush => if s.client.next == w then [FlushReq] else []
    case SendEnd => if s.client.next == w then [End] else []
    case _ => []
  }

  /** The messages put into the inbox of worker `w` during a run, in order. */
  ghost function AllPosted(c: Config, s: State, acts: seq<Action>, t: State, w: nat): seq<Msg>
    requires Run(c, s, acts, t) && w < c.workers
    decreases |acts|
  {
    if acts == [] then []
    else Posted(c, s, acts[0], w) + AllPosted(c, Apply(c, s, acts[0]), acts[1..], t, w)
  }

  /** The message worker `w` takes with a step, if any. */
  ghost function Picked(c: Config, s: State, a: Action, w: nat): seq<Msg>
    requires Shape(c, s) && Enabled(c, s, a) && w < c.workers
  {
    if a.Take? && a.w == w then [s.workers[w].inbox[0]] else []
  }

  /** The messages worker `w` takes during a run, in order. */
  ghost function AllTaken(c: Config, s: State, acts: seq<Action>, t: State, w: nat): seq<Msg>
    requires Run(c, s, acts, t) && w < c.workers
    decreases |acts|
  {
    if acts == [] then []
    else
      Picked(c, s, acts[0], w) + AllTaken(c, Apply(c, s, acts[0]), acts[1..], t, w)
  }

  lemma TeamSize(c: Config, s: State)
    requires Shape(c, s)
    ensures |s.workers| == c.workers
  {
  }

  lemma InboxPost(ws: seq<Worker>, to: nat, m: Msg, w: nat)
    requires to < |ws| && w < |ws|
    ensures |Post(ws, to, m)| == |ws| && Post(ws, to, m)[w].inbox == ws[w].inbox + if to == w then [m] else []
  {
  }

  lemma TakenInbox(c: Config, k: Worker, tau: nat)
    requires WorkerShape(c, k) && k.inbox != []
    ensures k.inbox == [k.inbox[0]] + Taken(c, k, tau).inbox
  {
  }

  lemma {:induction false} InboxStep(c: Config, s: State, a: Action, w: nat)
    requires Shape(c, s) && Enabled(c, s, a) && w < c.workers
    ensures |Apply(c, s, a).workers| == c.workers
    ensures s.workers[w].inbox + Posted(c, s, a, w) == Picked(c, s, a, w) + Apply(c, s, a).workers[w].inbox
  {
    hide Prepared, FullRows, ApplyDelta, Route, Post, WorkerShape, Taken;
    match a
    case Submit => InboxPost(s.workers, Route(c, s.nextWorker, s.todo[0].input), Data(s.todo[0].input), w);
    case SendFlush => InboxPost(s.workers, s.client.next, FlushReq, w);
    case SendEnd => InboxPost(s.workers, s.client.next, End, w);
    case Take(v, tau) => TakenInbox(c, s.workers[v], tau);
    case _ =>
  }

  /** Main result: every worker takes its messages in the order in which they were put into its inbox. */
  lemma {:induction false} InboxIsFifo(c: Config, s: State, acts: seq<Action>, t: State, w: nat)
    requires Shape(c, s) && Run(c, s, acts, t) && w < c.workers
    ensures |s.workers| == |t.workers| == c.workers
    ensures s.workers[w].inbox + AllPosted(c, s, acts, t, w) == AllTaken(c, s, acts, t, w) + t.workers[w].inbox
    decreases |acts|
  {
    hide Shape, Enabled, Apply, Posted, Picked;
    TeamSize(c, s);
    if acts != [] {
      var u := Apply(c, s, acts[0]);
      ShapeStep(c, s, acts[0]);
      InboxStep(c, s, acts[0], w);
      InboxIsFifo(c, u, acts[1..], t, w);
      Regroup(s.workers[w].inbox, Posted(c, s, acts[0], w), AllPosted(c, u, acts[1..], t, w),
              Picked(c, s, acts[0], w), u.workers[w].inbox,
              AllTaken(c, u, acts[1..], t, w), t.workers[w].inbox);
    }
  }

  lemma Regroup<T>(a: seq<T>, p: seq<T>, ps: seq<T>, q: seq<T>, b: seq<T>, qs: seq<T>, e: seq<T>)
    requires a + p == q + b && b + ps == qs + e
    ensures a + (p + ps) == (q + qs) + e
  {
    assert a + (p + ps) == (a + p) + ps == q + (b + ps);
  }
}
