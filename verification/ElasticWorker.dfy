/** The Elastic worker of OctoSketch: buckets with one-byte votes, and a small Count-Min array as light
    layer. Flow names are abstracted to integers; their hashes are parameters. */
module ElasticWorker {
  import opened OctoWorker
  import opened Wrappers

  newtype i32 = x: int | -0x8000_0000 <= x < 0x8000_0000

  const LAMBDA: i32 := 8

  type Flow = int

  datatype Bucket = Bucket(flow: Option<Flow>, votePos: u8, voteNeg: i32, eviction: bool)

  datatype ElasticDelta =
    | Heavy(key: Flow, value: nat, eviction: bool)
    | Evicted(key: Flow, votes: nat)
    | Light(delta: Delta)

  const VACANT := Bucket(None, 0, 0, false)

  // ---------------------------------------------------------------- one bucket

  /** The range the votes of a bucket stay in. */
  predicate InVoteRange(b: Bucket) {
    && b.votePos as int < MAX_PROMASK && 0 <= b.voteNeg as int < LAMBDA as int * MAX_PROMASK
    && (b.flow.None? ==> b.votePos == 0)
  }

  /** Ships and clears the votes of a bucket that reached the threshold. */
  function Promoted(b: Bucket, tau: int): (r: (Bucket, seq<ElasticDelta>))
    requires b.flow.Some?
  {
    if b.votePos as int < tau then (b, [])
    else (b.(votePos := 0), [Heavy(b.flow.value, b.votePos as int, b.eviction)])
  }

  /** Whether an arrival loses against the resident and spills. */
  predicate Loses(b: Bucket, id: Flow)
    requires InVoteRange(b)
  {
    b.flow.Some? && b.flow.value != id && b.voteNeg + 1 < LAMBDA * (b.votePos as int as i32)
  }

  /** What one arrival does to its bucket, and what the bucket sends. */
  function Vote(b: Bucket, id: Flow, tau: int): (r: (Bucket, seq<ElasticDelta>))
    requires InVoteRange(b) && 1 <= tau <= MAX_PROMASK
    ensures InVoteRange(r.0) && r.0.flow.Some?
  {
    if b.flow.None? then Promoted(Bucket(Some(id), 1, 0, false), tau)
    else if b.flow.value == id then Promoted(b.(votePos := b.votePos + 1), tau)
    else if Loses(b, id) then (b.(voteNeg := b.voteNeg + 1), [])
    else
      var (c, sent) := Promoted(Bucket(Some(id), 1, 1, true), tau);
      (c, [Evicted(b.flow.value, b.votePos as int)] + sent)
  }

  /** What flushing a bucket sends. */
  function FlushedBucket(b: Bucket): (Bucket, seq<ElasticDelta>) {
    if b.votePos == 0 then (b, [])
    else (b.(votePos := 0),
          if b.flow.Some? then [Heavy(b.flow.value, b.votePos as int, b.eviction)] else [])
  }

  // ---------------------------------------------------------------- the ledger

  ghost function Count(s: seq<Flow>, f: Flow): nat {
    if s == [] then 0 else Count(s[..|s| - 1], f) + if s[|s| - 1] == f then 1 else 0
  }

  /** Votes sent under a flow's own key. */
  ghost function Keyed(sent: seq<ElasticDelta>, f: Flow): nat {
    if sent == [] then 0 else Keyed(sent[..|sent| - 1], f) + KeyedOne(sent[|sent| - 1], f)
  }

  function KeyedOne(d: ElasticDelta, f: Flow): nat {
    match d
    case Heavy(key, value, _) => if key == f then value else 0
    case Evicted(key, votes) => if key == f then votes else 0
    case Light(_) => 0
  }

  lemma {:induction false} KeyedAppend(a: seq<ElasticDelta>, b: seq<ElasticDelta>, f: Flow)
    ensures Keyed(a + b, f) == Keyed(a, f) + Keyed(b, f)
    decreases |b|
  {
    if b == [] {
      assert a + b == a;
    } else {
      KeyedAppend(a, b[..|b| - 1], f);
      assert (a + b)[..|a + b| - 1] == a + b[..|b| - 1];
    }
  }

  lemma {:induction false} CountSnoc(s: seq<Flow>, x: Flow, f: Flow)
    ensures Count(s + [x], f) == Count(s, f) + if x == f then 1 else 0
  {
    assert (s + [x])[..|s|] == s;
  }

  /** The votes a bucket holds for a flow. */
  function HeldIn(b: Bucket, f: Flow): nat {
    if b.flow == Some(f) then b.votePos as int else 0
  }

  lemma KeyedNone(f: Flow)
    ensures Keyed([], f) == 0
  {
  }

  lemma {:induction false} KeyedSingle(d: ElasticDelta, ds: seq<ElasticDelta>, f: Flow)
    requires ds == [d]
    ensures Keyed(ds, f) == KeyedOne(d, f)
  {
    assert ds[..0] == [];
  }

  lemma {:induction false} PromotedKeeps(b: Bucket, tau: int, f: Flow)
    requires b.flow.Some?
    ensures var r := Promoted(b, tau); HeldIn(r.0, f) + Keyed(r.1, f) == HeldIn(b, f)
  {
    var (c, sent) := Promoted(b, tau);
    KeyedNone(f);
    if sent != [] {
      KeyedSingle(sent[0], sent, f);
    }
    hide Keyed;
  }

  /** One arrival at its bucket is counted once: as a vote held, a vote sent, or a loss. */
  lemma {:induction false} VoteKeeps(b: Bucket, id: Flow, tau: int, f: Flow)
    requires InVoteRange(b) && 1 <= tau <= MAX_PROMASK
    ensures var r := Vote(b, id, tau);
            HeldIn(r.0, f) + Keyed(r.1, f) + (if Loses(b, id) && f == id then 1 else 0)
              == HeldIn(b, f) + (if f == id then 1 else 0)
  {
    hide Keyed, Promoted;
    KeyedNone(f);
    if b.flow.None? {
      PromotedKeeps(Bucket(Some(id), 1, 0, false), tau, f);
    } else if b.flow.value == id {
      PromotedKeeps(b.(votePos := b.votePos + 1), tau, f);
    } else if !Loses(b, id) {
      var seated := Bucket(Some(id), 1, 1, true);
      var one := [Evicted(b.flow.value, b.votePos as int)];
      PromotedKeeps(seated, tau, f);
      KeyedSingle(one[0], one, f);
      KeyedAppend(one, Promoted(seated, tau).1, f);
    }
  }

  lemma {:induction false} FlushedKeeps(b: Bucket, f: Flow)
    requires InVoteRange(b)
    ensures var r := FlushedBucket(b);
            HeldIn(r.0, f) + Keyed(r.1, f) == HeldIn(b, f) && InVoteRange(r.0) && r.0.votePos == 0
  {
    KeyedNone(f);
    var (c, sent) := FlushedBucket(b);
    if sent != [] {
      KeyedSingle(sent[0], sent, f);
    }
    hide Keyed;
  }

  // ---------------------------------------------------------------- the books of the heavy part

  /** Which heavy bucket a flow hashes to. */
  type Placement = Flow -> nat

  function Home(index: Placement, f: Flow): nat {
    index(f)
  }

  ghost predicate HomesInRange(index: Placement, n: nat) {
    forall f :: Home(index, f) < n
  }

  ghost predicate NeverEvicted(sent: seq<ElasticDelta>, f: Flow) {
    forall d :: d in sent ==> !(d.Evicted? && d.key == f)
  }

  /** A flow's every occurrence is in the heavy part or was sent from it under its key. */
  ghost predicate Whole(sent: seq<ElasticDelta>, spilled: seq<Flow>, f: Flow) {
    Count(spilled, f) == 0 && NeverEvicted(sent, f)
  }

  /** The books for one flow: each occurrence is sent under its key, held as a vote, or spilled;
      and the flag of its bucket is clear only if none was evicted or spilled. */
  ghost predicate Accounted(heavy: seq<Bucket>, index: Placement, arrivals: seq<Flow>, sent: seq<ElasticDelta>,
                            spilled: seq<Flow>, f: Flow)
    requires HomesInRange(index, |heavy|)
  {
    var b := heavy[Home(index, f)];
    && Count(arrivals, f) == Keyed(sent, f) + HeldIn(b, f) + Count(spilled, f)
    && (b.flow == Some(f) && !b.eviction ==> Whole(sent, spilled, f))
    && (b.flow.None? ==> Count(arrivals, f) == 0 && Whole(sent, spilled, f))
  }

  /** A resident sits in its own bucket. */
  ghost predicate AtHome(heavy: seq<Bucket>, index: Placement) {
    forall i :: 0 <= i < |heavy| && heavy[i].flow.Some? ==> Home(index, heavy[i].flow.value) == i
  }

  ghost predicate Books(heavy: seq<Bucket>, index: Placement, arrivals: seq<Flow>, sent: seq<ElasticDelta>,
                        spilled: seq<Flow>)
  {
    && HomesInRange(index, |heavy|) && AtHome(heavy, index)
    && (forall i :: 0 <= i < |heavy| ==> InVoteRange(heavy[i]))
    && forall f :: Accounted(heavy, index, arrivals, sent, spilled, f)
  }

  /** What one arrival does to the heavy part. */
  ghost predicate Voted(heavy: seq<Bucket>, now: seq<Bucket>, index: Placement, id: Flow, tau: int,
                        votes: seq<ElasticDelta>, loses: bool)
    requires HomesInRange(index, |heavy|) && (forall i :: 0 <= i < |heavy| ==> InVoteRange(heavy[i]))
  {
    var b := heavy[Home(index, id)];
    && 1 <= tau <= MAX_PROMASK
    && now == heavy[Home(index, id) := Vote(b, id, tau).0] && votes == Vote(b, id, tau).1 && loses == Loses(b, id)
  }

  lemma VoteFlow(b: Bucket, id: Flow, tau: int)
    requires InVoteRange(b) && 1 <= tau <= MAX_PROMASK
    ensures var r := Vote(b, id, tau);
            && r.0.flow == (if Loses(b, id) then b.flow else Some(id))
            && (Loses(b, id) ==> r.1 == [] && b.flow.Some? && b.flow.value != id && r.0.eviction == b.eviction)
            && (!r.0.eviction ==> b.flow.None? || !b.eviction)
            && (!r.0.eviction && !Loses(b, id) ==> b.flow.None? || b.flow == Some(id))
            && (forall d :: d in r.1 && d.Evicted? ==> b.flow == Some(d.key) && d.key != id && r.0.flow == Some(id))
  {
  }

  lemma {:induction false} AccountedStep(heavy: seq<Bucket>, now: seq<Bucket>, index: Placement,
                                         arrivals: seq<Flow>, sent: seq<ElasticDelta>,
                      spilled: seq<Flow>, id: Flow, tau: int, votes: seq<ElasticDelta>, loses: bool, f: Flow)
    requires Books(heavy, index, arrivals, sent, spilled) && Voted(heavy, now, index, id, tau, votes, loses)
    ensures HomesInRange(index, |now|)
    ensures Accounted(now, index, arrivals + [id], sent + votes, if loses then spilled + [id] else spilled, f)
  {
    hide Keyed, Count, Vote, Loses;
    var i := Home(index, id);
    CountSnoc(arrivals, id, f);
    CountSnoc(spilled, id, f);
    KeyedAppend(sent, votes, f);
    VoteKeeps(heavy[i], id, tau, f);
    VoteFlow(heavy[i], id, tau);
    assert Accounted(heavy, index, arrivals, sent, spilled, f);
    if Home(index, f) != i {
      assert f != id && HeldIn(heavy[i], f) == 0;
    }
  }

  lemma {:induction false} VotedRange(heavy: seq<Bucket>, now: seq<Bucket>, index: Placement, id: Flow, tau: int,
                   votes: seq<ElasticDelta>, loses: bool)
    requires HomesInRange(index, |heavy|) && AtHome(heavy, index)
    requires forall i :: 0 <= i < |heavy| ==> InVoteRange(heavy[i])
    requires Voted(heavy, now, index, id, tau, votes, loses)
    ensures AtHome(now, index) && HomesInRange(index, |now|) && forall i :: 0 <= i < |now| ==> InVoteRange(now[i])
  {
    hide Vote, Loses, InVoteRange;
    VoteFlow(heavy[Home(index, id)], id, tau);
  }

  /** An arrival keeps the books. */
  lemma {:induction false} BooksStep(heavy: seq<Bucket>, now: seq<Bucket>, index: Placement, arrivals: seq<Flow>,
                                     sent: seq<ElasticDelta>,
                  spilled: seq<Flow>, id: Flow, tau: int, votes: seq<ElasticDelta>, loses: bool)
    requires Books(heavy, index, arrivals, sent, spilled) && Voted(heavy, now, index, id, tau, votes, loses)
    ensures Books(now, index, arrivals + [id], sent + votes, if loses then spilled + [id] else spilled)
  {
    hide Voted, AtHome, HomesInRange, Accounted, InVoteRange;
    VotedRange(heavy, now, index, id, tau, votes, loses);
    var lost := if loses then spilled + [id] else spilled;
    forall f ensures Accounted(now, index, arrivals + [id], sent + votes, lost, f) {
      AccountedStep(heavy, now, index, arrivals, sent, spilled, id, tau, votes, loses, f);
    }
  }

  /** Flushing one bucket keeps the books. */
  lemma {:induction false} BooksFlush(heavy: seq<Bucket>, index: Placement, arrivals: seq<Flow>,
                                      sent: seq<ElasticDelta>,
                   spilled: seq<Flow>, i: nat)
    requires Books(heavy, index, arrivals, sent, spilled) && i < |heavy|
    ensures var r := FlushedBucket(heavy[i]);
            Books(heavy[i := r.0], index, arrivals, sent + r.1, spilled)
  {
    hide Keyed, Count, InVoteRange;
    var r := FlushedBucket(heavy[i]);
    var now := heavy[i := r.0];
    forall f ensures Accounted(now, index, arrivals, sent + r.1, spilled, f) {
      assert Accounted(heavy, index, arrivals, sent, spilled, f);
      KeyedAppend(sent, r.1, f);
      FlushedKeeps(heavy[i], f);
    }
    FlushedKeeps(heavy[i], 0);
  }

  /** Light deltas say nothing under a key. */
  ghost predicate AllLight(ds: seq<ElasticDelta>) {
    forall d :: d in ds ==> d.Light?
  }

  lemma {:induction false} LightNotKeyed(ds: seq<ElasticDelta>, f: Flow)
    requires AllLight(ds)
    ensures Keyed(ds, f) == 0
    decreases |ds|
  {
    if ds != [] {
      LightNotKeyed(ds[..|ds| - 1], f);
      assert ds[|ds| - 1] in ds;
    }
  }

  lemma {:induction false} BooksLight(heavy: seq<Bucket>, index: Placement, arrivals: seq<Flow>,
                                      sent: seq<ElasticDelta>,
                   spilled: seq<Flow>, ds: seq<ElasticDelta>)
    requires Books(heavy, index, arrivals, sent, spilled) && AllLight(ds)
    ensures Books(heavy, index, arrivals, sent + ds, spilled)
  {
    hide Keyed, Count, InVoteRange, AtHome;
    forall f ensures Accounted(heavy, index, arrivals, sent + ds, spilled, f) {
      assert Accounted(heavy, index, arrivals, sent, spilled, f);
      KeyedAppend(sent, ds, f);
      LightNotKeyed(ds, f);
    }
  }

  // ---------------------------------------------------------------- what the flags say

  /** Some flow has been evicted from bucket `i`. */
  ghost predicate TakenOver(sent: seq<ElasticDelta>, index: Placement, i: nat) {
    exists d :: d in sent && d.Evicted? && Home(index, d.key) == i
  }

  ghost predicate FlagAt(b: Bucket, sent: seq<ElasticDelta>, index: Placement, i: nat) {
    (b.eviction <==> TakenOver(sent, index, i)) && (b.flow.None? ==> !b.eviction)
  }

  /** The flag of a bucket is set exactly if it has changed hands. */
  ghost predicate Flags(heavy: seq<Bucket>, index: Placement, sent: seq<ElasticDelta>) {
    forall i: nat :: i < |heavy| ==> FlagAt(heavy[i], sent, index, i)
  }

  /** Votes `d` sent after `before`: the flag says whether their bucket has changed hands, and if it has
      not, what was sent under the key with them is every arrival of the flow so far. */
  ghost predicate TellsTruth(before: seq<ElasticDelta>, d: ElasticDelta, arrivals: seq<Flow>, index: Placement) {
    d.Heavy? ==>
      && (d.eviction <==> TakenOver(before, index, Home(index, d.key)))
      && (!d.eviction ==> Keyed(before + [d], d.key) == Count(arrivals, d.key))
  }

  /** All votes sent told the truth; `moments` are the numbers of arrivals when they were sent. */
  ghost predicate Honest(sent: seq<ElasticDelta>, moments: seq<nat>, arrivals: seq<Flow>, index: Placement) {
    && |moments| == |sent|
    && forall n: nat :: n < |sent| ==>
         moments[n] <= |arrivals| && TellsTruth(sent[..n], sent[n], arrivals[..moments[n]], index)
  }

  function Now(n: nat, moment: nat): (m: seq<nat>)
    ensures |m| == n && forall i :: 0 <= i < n ==> m[i] == moment
  {
    seq(n, i => moment)
  }

  ghost predicate Told(heavy: seq<Bucket>, index: Placement, arrivals: seq<Flow>, sent: seq<ElasticDelta>,
                       moments: seq<nat>)
  {
    Flags(heavy, index, sent) && Honest(sent, moments, arrivals, index)
  }

  lemma {:induction false} HonestAppend(sent: seq<ElasticDelta>, moments: seq<nat>, arrivals: seq<Flow>,
                                        index: Placement, more: seq<Flow>, ds: seq<ElasticDelta>)
    requires Honest(sent, moments, arrivals, index)
    requires forall n: nat :: n < |ds| ==> TellsTruth(sent + ds[..n], ds[n], arrivals + more, index)
    ensures Honest(sent + ds, moments + Now(|ds|, |arrivals + more|), arrivals + more, index)
  {
    hide TellsTruth;
    var s, m, a := sent + ds, moments + Now(|ds|, |arrivals + more|), arrivals + more;
    forall n: nat | n < |s| ensures m[n] <= |a| && TellsTruth(s[..n], s[n], a[..m[n]], index) {
      if n < |sent| {
        assert s[..n] == sent[..n] && a[..m[n]] == arrivals[..moments[n]];
      } else {
        assert s[..n] == sent + ds[..n - |sent|] && a[..m[n]] == a;
      }
    }
  }

  /** What a vote sends: an eviction if the bucket changes hands, then votes if they reached the threshold,
      with the flag the bucket has by then. */
  lemma VoteSends(b: Bucket, id: Flow, tau: int)
    requires InVoteRange(b) && 1 <= tau <= MAX_PROMASK
    ensures var (c, votes) := Vote(b, id, tau);
            var evicts := b.flow.Some? && b.flow.value != id && !Loses(b, id);
            && (forall n: nat :: n < |votes| && votes[n].Heavy? ==>
                  n == (if evicts then 1 else 0) && |votes| == n + 1
                  && votes[n].key == id && votes[n].eviction == c.eviction && c.votePos == 0)
            && (forall d :: d in votes && d.Evicted? ==> evicts && d.key == b.flow.value)
            && (evicts ==> |votes| >= 1 && votes[0].Evicted? && votes[0].key == b.flow.value)
            && c.eviction == (evicts || (b.flow.Some? && b.eviction)) && c.flow.Some?
  {
  }

  /** Votes are held up to the threshold and sent from there on, and those of an evicted flow are sent
      whatever they are. */
  lemma VoteThreshold(b: Bucket, id: Flow, tau: int)
    requires InVoteRange(b) && 1 <= tau <= MAX_PROMASK
    ensures !Loses(b, id) ==> (Vote(b, id, tau).0.votePos as int) < tau
    ensures forall d :: d in Vote(b, id, tau).1 && d.Heavy? ==> d.value >= tau
  {
  }

  lemma {:induction false} FlagsVote(heavy: seq<Bucket>, now: seq<Bucket>, index: Placement,
                                     sent: seq<ElasticDelta>, id: Flow, tau: int, votes: seq<ElasticDelta>,
                                     loses: bool)
    requires HomesInRange(index, |heavy|) && AtHome(heavy, index)
    requires forall i :: 0 <= i < |heavy| ==> InVoteRange(heavy[i])
    requires Voted(heavy, now, index, id, tau, votes, loses) && Flags(heavy, index, sent)
    ensures Flags(now, index, sent + votes)
  {
    hide Vote, Loses, InVoteRange;
    var i := Home(index, id);
    VoteSends(heavy[i], id, tau);
    forall j: nat | j < |now| ensures FlagAt(now[j], sent + votes, index, j) {
      assert FlagAt(heavy[j], sent, index, j);
      if TakenOver(sent, index, j) {
        var d :| d in sent && d.Evicted? && Home(index, d.key) == j;
        assert d in sent + votes;
      }
      if votes != [] && votes[0].Evicted? {
        assert votes[0] in sent + votes;
      }
    }
  }

  /** An arrival keeps the flags, and what is sent with it tells the truth. */
  lemma {:induction false} ToldVote(heavy: seq<Bucket>, now: seq<Bucket>, index: Placement, arrivals: seq<Flow>,
                                    sent: seq<ElasticDelta>, moments: seq<nat>, spilled: seq<Flow>, id: Flow,
                                    tau: int, votes: seq<ElasticDelta>, loses: bool)
    requires Books(heavy, index, arrivals, sent, spilled) && Told(heavy, index, arrivals, sent, moments)
    requires Voted(heavy, now, index, id, tau, votes, loses)
    ensures Told(now, index, arrivals + [id], sent + votes, moments + Now(|votes|, |arrivals + [id]|))
  {
    hide Vote, Loses, Keyed, Count, Whole, InVoteRange, Honest;
    var i := Home(index, id);
    FlagsVote(heavy, now, index, sent, id, tau, votes, loses);
    VoteSends(heavy[i], id, tau);
    BooksStep(heavy, now, index, arrivals, sent, spilled, id, tau, votes, loses);
    var lost := if loses then spilled + [id] else spilled;
    assert Accounted(now, index, arrivals + [id], sent + votes, lost, id);
    assert FlagAt(heavy[i], sent, index, i);
    forall n: nat | n < |votes| ensures TellsTruth(sent + votes[..n], votes[n], arrivals + [id], index) {
      if votes[n].Heavy? {
        assert (sent + votes[..n]) + [votes[n]] == sent + votes;
        VoteFlow(heavy[i], id, tau);
        if !votes[n].eviction {
          WholeHasNone(sent + votes, lost, id);
        }
        if n == 1 {
          assert votes[0] in sent + votes[..n];
        } else {
          assert sent + votes[..0] == sent;
        }
      }
    }
    HonestAppend(sent, moments, arrivals, index, [id], votes);
  }

  lemma WholeHasNone(sent: seq<ElasticDelta>, spilled: seq<Flow>, f: Flow)
    requires Whole(sent, spilled, f)
    ensures Count(spilled, f) == 0
  {
  }

  /** So does a flush of one bucket. */
  lemma {:induction false} ToldFlush(heavy: seq<Bucket>, index: Placement, arrivals: seq<Flow>,
                                     sent: seq<ElasticDelta>, moments: seq<nat>, spilled: seq<Flow>, i: nat)
    requires Books(heavy, index, arrivals, sent, spilled) && Told(heavy, index, arrivals, sent, moments)
    requires i < |heavy|
    ensures var (c, votes) := FlushedBucket(heavy[i]);
            Told(heavy[i := c], index, arrivals, sent + votes, moments + Now(|votes|, |arrivals|))
  {
    hide Keyed, Count, InVoteRange, Honest;
    var (c, votes) := FlushedBucket(heavy[i]);
    BooksFlush(heavy, index, arrivals, sent, spilled, i);
    assert FlagAt(heavy[i], sent, index, i);
    assert forall j: nat :: TakenOver(sent + votes, index, j) <==> TakenOver(sent, index, j);
    var now := heavy[i := c];
    forall j: nat | j < |now| ensures FlagAt(now[j], sent + votes, index, j) {
      assert FlagAt(heavy[j], sent, index, j);
    }
    forall n: nat | n < |votes| ensures TellsTruth(sent + votes[..n], votes[n], arrivals + [], index) {
      assert sent + votes[..n] == sent && sent + [votes[n]] == sent + votes && arrivals + [] == arrivals;
      assert Accounted(heavy[i := c], index, arrivals, sent + votes, spilled, votes[n].key);
    }
    HonestAppend(sent, moments, arrivals, index, [], votes);
    assert arrivals + [] == arrivals;
  }

  lemma {:induction false} ToldLight(heavy: seq<Bucket>, index: Placement, arrivals: seq<Flow>,
                                     sent: seq<ElasticDelta>, moments: seq<nat>, ds: seq<ElasticDelta>)
    requires Told(heavy, index, arrivals, sent, moments) && AllLight(ds)
    ensures Told(heavy, index, arrivals, sent + ds, moments + Now(|ds|, |arrivals|))
  {
    hide Keyed, Count, Honest;
    assert forall j: nat :: TakenOver(sent + ds, index, j) <==> TakenOver(sent, index, j);
    forall j: nat | j < |heavy| ensures FlagAt(heavy[j], sent + ds, index, j) {
      assert FlagAt(heavy[j], sent, index, j);
    }
    forall n: nat | n < |ds| ensures TellsTruth(sent + ds[..n], ds[n], arrivals + [], index) {
      assert ds[n] in ds;
    }
    HonestAppend(sent, moments, arrivals, index, [], ds);
    assert arrivals + [] == arrivals;
  }

  // ---------------------------------------------------------------- when a resident gives way

  datatype Touch = Arrival(id: Flow, tau: int) | Flushing

  /** A bucket and what it sends over a series of arrivals and flushes. */
  ghost function Touched(b: Bucket, touches: seq<Touch>): (r: (Bucket, seq<ElasticDelta>))
    requires InVoteRange(b) && forall t :: t in touches && t.Arrival? ==> 1 <= t.tau <= MAX_PROMASK
    ensures InVoteRange(r.0)
  {
    if touches == [] then (b, [])
    else
      var n := |touches| - 1;
      var (c, sent) := Touched(b, touches[..n]);
      var (now, more) := if touches[n].Flushing? then FlushedBucket(c) else Vote(c, touches[n].id, touches[n].tau);
      FlushedKeeps(c, 0);
      (now, sent + more)
  }

  /** How many of the arrivals are of flow `f`, and how many of others. */
  ghost function Own(touches: seq<Touch>, f: Flow): nat {
    if touches == [] then 0
    else
      var n := |touches| - 1;
      Own(touches[..n], f) + if touches[n].Arrival? && touches[n].id == f then 1 else 0
  }

  ghost function Foreign(touches: seq<Touch>, f: Flow): nat {
    if touches == [] then 0
    else
      var n := |touches| - 1;
      Foreign(touches[..n], f) + if touches[n].Arrival? && touches[n].id != f then 1 else 0
  }

  ghost predicate Stays(sent: seq<ElasticDelta>) {
    forall d :: d in sent ==> !d.Evicted?
  }

  /** As long as a flow stays in its bucket, its votes are its own arrivals less those sent, and the votes
      against it are the arrivals of other flows. */
  lemma {:induction false} VotesCount(b: Bucket, f: Flow, touches: seq<Touch>)
    requires InVoteRange(b) && b.flow == Some(f)
    requires forall t :: t in touches && t.Arrival? ==> 1 <= t.tau <= MAX_PROMASK
    requires Stays(Touched(b, touches).1)
    ensures var (c, sent) := Touched(b, touches);
            && c.flow == Some(f) && c.eviction == b.eviction
            && c.votePos as int + Keyed(sent, f) == b.votePos as int + Own(touches, f)
            && c.voteNeg as int == b.voteNeg as int + Foreign(touches, f)
    decreases |touches|
  {
    hide Vote, FlushedBucket, Keyed;
    if touches == [] {
      KeyedNone(f);
    } else {
      var n := |touches| - 1;
      var (mid, before) := Touched(b, touches[..n]);
      var (now, more) :=
        if touches[n].Flushing? then FlushedBucket(mid) else Vote(mid, touches[n].id, touches[n].tau);
      assert forall d :: d in before ==> d in before + more;
      assert forall d :: d in more ==> d in before + more;
      VotesCount(b, f, touches[..n]);
      KeyedAppend(before, more, f);
      assert touches[n] in touches;
      StayedOne(mid, f, touches[n]);
    }
  }

  /** One arrival or flush at a bucket whose resident stays. */
  lemma {:induction false} StayedOne(b: Bucket, f: Flow, t: Touch)
    requires InVoteRange(b) && b.flow == Some(f) && (t.Arrival? ==> 1 <= t.tau <= MAX_PROMASK)
    requires Stays((if t.Flushing? then FlushedBucket(b) else Vote(b, t.id, t.tau)).1)
    ensures var (c, more) := if t.Flushing? then FlushedBucket(b) else Vote(b, t.id, t.tau);
            && c.flow == Some(f) && c.eviction == b.eviction
            && c.votePos as int + Keyed(more, f) == b.votePos as int + (if t.Arrival? && t.id == f then 1 else 0)
            && c.voteNeg as int == b.voteNeg as int + (if t.Arrival? && t.id != f then 1 else 0)
  {
    KeyedNone(f);
    if t.Flushing? {
      FlushedKeeps(b, f);
    } else {
      VoteKeeps(b, t.id, t.tau, f);
      var more := Vote(b, t.id, t.tau).1;
      assert more != [] ==> more[0] in more;
    }
    hide Keyed;
  }

  /** Main result: a resident gives way to an arrival exactly if that is of another flow, and the arrivals
      of other flows, this one included, are at least eight times its own less those already sent. They are
      counted from when it was seated; the arrival that seats a flow by eviction counts on both sides. */
  lemma {:induction false} GivesWayIff(b: Bucket, f: Flow, touches: seq<Touch>, id: Flow, tau: int)
    requires InVoteRange(b) && b.flow == Some(f) && 1 <= tau <= MAX_PROMASK
    requires forall t :: t in touches && t.Arrival? ==> 1 <= t.tau <= MAX_PROMASK
    requires Stays(Touched(b, touches).1)
    ensures var (c, sent) := Touched(b, touches);
            var own := b.votePos as int + Own(touches, f) - Keyed(sent, f);
            var foreign := b.voteNeg as int + Foreign(touches, f) + 1;
            && (Vote(c, id, tau).0.flow != Some(f) <==> id != f && foreign >= 8 * own)
            && (id != f && foreign < 8 * own ==> Vote(c, id, tau).1 == [] && Loses(c, id))
  {
    VotesCount(b, f, touches);
    hide Touched, Keyed, Own, Foreign;
  }

  /** How a flow is seated: with its own vote, and in place of another with one vote against it. */
  lemma SeatedVotes(b: Bucket, id: Flow, tau: int)
    requires InVoteRange(b) && 1 < tau <= MAX_PROMASK && b.flow != Some(id)
    requires Vote(b, id, tau).0.flow == Some(id)
    ensures var c := Vote(b, id, tau).0;
            c.votePos == 1 && c.voteNeg == (if b.flow.None? then 0 else 1) && c.eviction == b.flow.Some?
  {
  }

  // ---------------------------------------------------------------- the books of the light part

  type RowHashes = Flow -> seq<Hash>

  ghost function HashesOf(rowHashes: RowHashes, flows: seq<Flow>): (h: seq<seq<Hash>>)
    ensures |h| == |flows|
  {
    seq(|flows|, i requires 0 <= i < |flows| => rowHashes(flows[i]))
  }

  lemma HashesSnoc(rowHashes: RowHashes, flows: seq<Flow>, f: Flow)
    ensures HashesOf(rowHashes, flows + [f]) == HashesOf(rowHashes, flows) + [rowHashes(f)]
  {
  }

  /** The light deltas among those sent. */
  ghost function LightPart(sent: seq<ElasticDelta>): seq<Delta> {
    if sent == [] then []
    else LightPart(sent[..|sent| - 1]) + if sent[|sent| - 1].Light? then [sent[|sent| - 1].delta] else []
  }

  lemma {:induction false} LightPartAppend(a: seq<ElasticDelta>, b: seq<ElasticDelta>)
    ensures LightPart(a + b) == LightPart(a) + LightPart(b)
    decreases |b|
  {
    if b == [] {
      assert a + b == a;
    } else {
      LightPartAppend(a, b[..|b| - 1]);
      assert (a + b)[..|a + b| - 1] == a + b[..|b| - 1];
      assert (a + b)[|a + b| - 1] == b[|b| - 1];
    }
  }

  /** The light worker's promotions, as they are sent. */
  function Wrapped(ds: seq<Delta>): (s: seq<ElasticDelta>)
    ensures |s| == |ds| && forall i :: 0 <= i < |ds| ==> s[i] == Light(ds[i])
  {
    seq(|ds|, i requires 0 <= i < |ds| => Light(ds[i]))
  }

  lemma {:induction false} LightPartWrapped(ds: seq<Delta>)
    ensures LightPart(Wrapped(ds)) == ds && AllLight(Wrapped(ds))
    decreases |ds|
  {
    if ds != [] {
      LightPartWrapped(ds[..|ds| - 1]);
      assert Wrapped(ds)[..|ds| - 1] == Wrapped(ds[..|ds| - 1]);
    }
  }

  lemma {:induction false} LightPartNone(ds: seq<ElasticDelta>)
    requires forall d :: d in ds ==> !d.Light?
    ensures LightPart(ds) == []
    decreases |ds|
  {
    if ds != [] {
      LightPartNone(ds[..|ds| - 1]);
    }
  }

  /** Each light counter, with what was sent from it, accounts for the spilled arrivals exactly. */
  ghost predicate LightBooks(g: Geometry, residual: seq<int>, sent: seq<ElasticDelta>, spilled: seq<Flow>,
                             rowHashes: RowHashes)
  {
    |residual| == g.Cells() && forall i :: 0 <= i < |residual| ==>
      residual[i] + Mass(g, LightPart(sent), i) == SinglePassCell(g, HashesOf(rowHashes, spilled), i)
  }

  lemma {:induction false} LightBooksHeavy(g: Geometry, residual: seq<int>, sent: seq<ElasticDelta>, spilled: seq<Flow>,
                        rowHashes: RowHashes, ds: seq<ElasticDelta>)
    requires LightBooks(g, residual, sent, spilled, rowHashes) && forall d :: d in ds ==> !d.Light?
    ensures LightBooks(g, residual, sent + ds, spilled, rowHashes)
  {
    hide LightPart, Mass, SinglePassCell;
    LightPartAppend(sent, ds);
    LightPartNone(ds);
    assert LightPart(sent) + [] == LightPart(sent);
  }

  lemma {:induction false} LightBooksSpill(g: Geometry, residual: seq<int>, now: seq<int>,
                                           sent: seq<ElasticDelta>, spilled: seq<Flow>,
                        rowHashes: RowHashes, id: Flow, tau: int, ds: seq<Delta>)
    requires LightBooks(g, residual, sent, spilled, rowHashes) && |rowHashes(id)| == g.rows
    requires (now, ds) == Insert(g, residual, rowHashes(id), tau)
    ensures LightBooks(g, now, sent + Wrapped(ds), spilled + [id], rowHashes)
  {
    hide LightPart, Mass, InsertFrom, ContributionFrom, HashesOf;
    LightPartAppend(sent, Wrapped(ds));
    LightPartWrapped(ds);
    HashesSnoc(rowHashes, spilled, id);
    var h := HashesOf(rowHashes, spilled);
    assert (h + [rowHashes(id)])[..|h|] == h;
    forall i | 0 <= i < |now|
      ensures now[i] + Mass(g, LightPart(sent + Wrapped(ds)), i) == SinglePassCell(g, h + [rowHashes(id)], i)
    {
      InsertConserves(g, residual, rowHashes(id), tau, 0, i);
      MassConcat(g, LightPart(sent), ds, i);
    }
  }

  lemma {:induction false} LightBooksFlush(g: Geometry, residual: seq<int>, sent: seq<ElasticDelta>, spilled: seq<Flow>,
                        rowHashes: RowHashes, ds: seq<Delta>)
    requires LightBooks(g, residual, sent, spilled, rowHashes) && ds == FlushAll(g, residual)
    ensures LightBooks(g, Zeros(g.Cells()), sent + Wrapped(ds), spilled, rowHashes)
  {
    hide LightPart, Mass, FlushAll, SinglePassCell;
    LightPartAppend(sent, Wrapped(ds));
    LightPartWrapped(ds);
    forall i | 0 <= i < |residual|
      ensures Zeros(g.Cells())[i] + Mass(g, LightPart(sent + Wrapped(ds)), i)
           == SinglePassCell(g, HashesOf(rowHashes, spilled), i)
    {
      FlushConserves(g, residual, i);
      MassConcat(g, LightPart(sent), ds, i);
    }
  }

  // ---------------------------------------------------------------- the worker

  lemma VoteHeavyOnly(b: Bucket, id: Flow, tau: int)
    requires InVoteRange(b) && 1 <= tau <= MAX_PROMASK
    ensures forall d :: d in Vote(b, id, tau).1 ==> !d.Light?
  {
  }

  lemma LosingSendsNothing(b: Bucket, id: Flow, tau: int)
    requires InVoteRange(b) && 1 <= tau <= MAX_PROMASK
    ensures Loses(b, id) ==> Vote(b, id, tau) == (b.(voteNeg := b.voteNeg + 1), [])
  {
  }

  class ElasticWorkerSketch {
    const heavy: array<Bucket>
    const light: CmWorkerSketch
    const index: Placement
    const rowHashes: RowHashes
    /** The arrivals so far, all that was sent and after how many arrivals, and the arrivals that went to
        the light layer. */
    ghost var arrivals: seq<Flow>
    ghost var sent: seq<ElasticDelta>
    ghost var moments: seq<nat>
    ghost var spilled: seq<Flow>

    ghost predicate Valid()
      reads this, heavy, light.counters
    {
      && light.Valid() && (forall f :: |rowHashes(f)| == light.g.rows)
      && Books(heavy[..], index, arrivals, sent, spilled) && Told(heavy[..], index, arrivals, sent, moments)
      && LightBooks(light.g, light.Residual(), sent, spilled, rowHashes)
    }

    constructor (bucketCount: nat, lightRows: nat, lightCols: nat, index: Placement, rowHashes: RowHashes)
      requires forall f :: index(f) < if bucketCount < 1 then 1 else bucketCount
      requires forall f :: |rowHashes(f)| == if lightRows < 1 then 1 else lightRows
      ensures Valid() && fresh(heavy) && fresh(light) && fresh(light.counters)
      ensures arrivals == [] && sent == [] && moments == [] && spilled == []
      ensures this.index == index && this.rowHashes == rowHashes
      ensures heavy.Length == if bucketCount < 1 then 1 else bucketCount
    {
      var n := if bucketCount < 1 then 1 else bucketCount;
      heavy := new Bucket[n](_ => VACANT);
      light := new CmWorkerSketch(lightRows, lightCols);
      this.index, this.rowHashes := index, rowHashes;
      arrivals, sent, moments, spilled := [], [], [], [];
      new;
      NothingTold(heavy[..], index, arrivals, sent, moments);
      NoArrivals(heavy[..], index, light.g, light.Residual(), rowHashes, arrivals, sent, spilled);
    }

    /** Ships the votes of a bucket that reached the threshold and clears them. */
    method PromoteHeavy(idx: nat, threshold: int) returns (emitted: seq<ElasticDelta>)
      requires idx < heavy.Length && heavy[idx].flow.Some?
      modifies heavy
      ensures heavy[..] == old(heavy[..])[idx := Promoted(old(heavy[idx]), threshold).0]
      ensures emitted == Promoted(old(heavy[idx]), threshold).1
    {
      emitted := [];
      if heavy[idx].votePos as int < threshold {
        return;
      }
      if heavy[idx].flow.Some? {
        emitted := [Heavy(heavy[idx].flow.value, heavy[idx].votePos as int, heavy[idx].eviction)];
      }
      heavy[idx] := heavy[idx].(votePos := 0);
    }

    /** The heavy part of an arrival. The votes never leave the range of their machine types. */
    method VoteHeavy(idx: nat, id: Flow, threshold: int) returns (emitted: seq<ElasticDelta>, loses: bool)
      requires idx < heavy.Length && InVoteRange(heavy[idx]) && 1 <= threshold <= MAX_PROMASK
      modifies heavy
      ensures heavy[..] == old(heavy[..])[idx := Vote(old(heavy[idx]), id, threshold).0]
      ensures emitted == Vote(old(heavy[idx]), id, threshold).1
      ensures loses == Loses(old(heavy[idx]), id)
    {
      loses, emitted := false, [];
      ghost var was := heavy[..];
      if heavy[idx].flow.None? {
        heavy[idx] := Bucket(Some(id), 1, 0, false);
        emitted := PromoteHeavy(idx, threshold);
        return;
      }
      if heavy[idx].flow.value == id {
        heavy[idx] := heavy[idx].(votePos := heavy[idx].votePos + 1);
        emitted := PromoteHeavy(idx, threshold);
        return;
      }
      heavy[idx] := heavy[idx].(voteNeg := heavy[idx].voteNeg + 1);
      if heavy[idx].voteNeg < LAMBDA * (heavy[idx].votePos as int as i32) {
        loses := true;
        return;
      }
      var evictedVotes, evictedId := heavy[idx].votePos, heavy[idx].flow.value;
      heavy[idx] := Bucket(Some(id), 1, 1, true);
      var promoted := PromoteHeavy(idx, threshold);
      emitted := [Evicted(evictedId, evictedVotes as int)] + promoted;
    }

    /** One arrival of a flow: a vote in its bucket, or a count in the light part. */
    method InsertEmitDelta(id: Flow, threshold: nat) returns (emitted: seq<ElasticDelta>)
      requires Valid()
      modifies this`arrivals, this`sent, this`moments, this`spilled, heavy, light.counters
      ensures Valid()
      ensures arrivals == old(arrivals) + [id] && sent == old(sent) + emitted
      ensures moments == old(moments) + Now(|emitted|, |arrivals|)
      ensures forall m :: m in emitted && m.Heavy? ==> m.value >= Clamp(threshold)
      ensures spilled == old(spilled) ==> (heavy[Home(index, id)].votePos as int) < Clamp(threshold)
      ensures spilled != old(spilled) ==>
                Arrived(light.g, old(light.Residual()), rowHashes(id), Clamp(threshold), 0, light.Residual(),
                        LightPart(emitted))
      ensures var b := old(heavy[..])[Home(index, id)];
              && heavy[..] == old(heavy[..])[Home(index, id) := Vote(b, id, Clamp(threshold)).0]
              && (if Loses(b, id) then
                    && (light.Residual(), LightPart(emitted))
                       == Insert(light.g, old(light.Residual()), rowHashes(id), Clamp(threshold))
                    && AllLight(emitted) && spilled == old(spilled) + [id]
                  else
                    light.Residual() == old(light.Residual()) && emitted == Vote(b, id, Clamp(threshold)).1
                        && spilled == old(spilled))
    {
      hide Books, LightBooks, Told, Insert, Promoted, LightPart, AllLight, Arrived;
      var tau := Clamp(threshold);
      assert InVoteRange(heavy[Home(index, id)]) by {
        HomeInVoteRange(heavy[..], index, arrivals, sent, spilled, id);
      }
      var idx := Home(index, id);
      ghost var was, residual := heavy[..], light.Residual();
      var votes, loses := VoteHeavy(idx, id, tau);
      KeepVoted(was, heavy[..], index, arrivals, sent, spilled, id, tau, votes, loses);
      VoteHeavyOnly(was[idx], id, tau);
      LosingSendsNothing(was[idx], id, tau);
      VoteThreshold(was[idx], id, tau);
      KeepTold(was, heavy[..], index, arrivals, sent, moments, spilled, id, tau, votes, loses);
      arrivals := arrivals + [id];
      if loses {
        var hashes := rowHashes(id);
        var ds := light.InsertHashes(hashes, threshold);
        emitted := Wrapped(ds);
        LightPartWrapped(ds);
        LightBooksSpill(light.g, residual, light.Residual(), sent, spilled, rowHashes, id, tau, ds);
        assert sent + votes == sent;
        spilled := spilled + [id];
        BooksLight(heavy[..], index, arrivals, sent, spilled, emitted);
        assert moments + Now(|votes|, |arrivals|) == moments;
        ToldLight(heavy[..], index, arrivals, sent, moments, emitted);
        LightIsNotHeavy(emitted);
      } else {
        emitted := votes;
        LightBooksHeavy(light.g, residual, sent, spilled, rowHashes, votes);
      }
      moments := moments + Now(|emitted|, |arrivals|);
      sent := sent + emitted;
    }

    /** Sends all votes and all light counters; the flows stay where they are. */
    method Flush() returns (emitted: seq<ElasticDelta>)
      requires Valid()
      modifies this`sent, this`moments, heavy, light.counters
      ensures Valid() && sent == old(sent) + emitted && moments == old(moments) + Now(|emitted|, |arrivals|)
      ensures forall i :: 0 <= i < heavy.Length ==> heavy[i] == old(heavy[i]).(votePos := 0)
      ensures light.Residual() == Zeros(light.g.Cells())
    {
      hide Books, LightBooks, Told, FlushAll, LightPart, AllLight, Insert;
      emitted := [];
      var i := 0;
      assert sent + emitted == sent && moments + Now(|emitted|, |arrivals|) == moments;
      while i < heavy.Length
        invariant 0 <= i <= heavy.Length && sent == old(sent) && light.Valid()
                  && light.Residual() == old(light.Residual())
        invariant Books(heavy[..], index, arrivals, sent + emitted, spilled)
        invariant LightBooks(light.g, light.Residual(), sent + emitted, spilled, rowHashes)
        invariant Told(heavy[..], index, arrivals, sent + emitted, moments + Now(|emitted|, |arrivals|))
        invariant moments == old(moments)
        invariant forall j :: 0 <= j < heavy.Length ==>
                    heavy[j] == if j < i then old(heavy[j]).(votePos := 0) else old(heavy[j])
      {
        BooksFlush(heavy[..], index, arrivals, sent + emitted, spilled, i);
        FlushedHeavyOnly(heavy[i]);
        LightBooksHeavy(light.g, light.Residual(), sent + emitted, spilled, rowHashes, FlushedBucket(heavy[i]).1);
        Associate(sent, emitted, FlushedBucket(heavy[i]).1);
        ToldFlush(heavy[..], index, arrivals, sent + emitted, moments + Now(|emitted|, |arrivals|), spilled, i);
        NowTwice(moments, |emitted|, |FlushedBucket(heavy[i]).1|, |arrivals|);
        if heavy[i].votePos != 0 {
          if heavy[i].flow.Some? {
            emitted := emitted + [Heavy(heavy[i].flow.value, heavy[i].votePos as int, heavy[i].eviction)];
          }
          heavy[i] := heavy[i].(votePos := 0);
        }
        i := i + 1;
      }
      ghost var residual := light.Residual();
      var ds := light.Flush();
      LightPartWrapped(ds);
      LightBooksFlush(light.g, residual, sent + emitted, spilled, rowHashes, ds);
      BooksLight(heavy[..], index, arrivals, sent + emitted, spilled, Wrapped(ds));
      Associate(sent, emitted, Wrapped(ds));
      ToldLight(heavy[..], index, arrivals, sent + emitted, moments + Now(|emitted|, |arrivals|), Wrapped(ds));
      NowTwice(moments, |emitted|, |Wrapped(ds)|, |arrivals|);
      emitted := emitted + Wrapped(ds);
      moments := moments + Now(|emitted|, |arrivals|);
      sent := sent + emitted;
    }
  }

  lemma Associate(a: seq<ElasticDelta>, b: seq<ElasticDelta>, c: seq<ElasticDelta>)
    ensures (a + b) + c == a + (b + c) && b + [] == b
  {
  }

  lemma NowTwice(moments: seq<nat>, a: nat, b: nat, moment: nat)
    ensures (moments + Now(a, moment)) + Now(b, moment) == moments + Now(a + b, moment)
  {
  }

  lemma LightIsNotHeavy(ds: seq<ElasticDelta>)
    requires AllLight(ds)
    ensures forall d :: d in ds ==> !d.Heavy?
  {
  }

  lemma NothingTold(heavy: seq<Bucket>, index: Placement, arrivals: seq<Flow>, sent: seq<ElasticDelta>,
                    moments: seq<nat>)
    requires forall i :: 0 <= i < |heavy| ==> heavy[i] == VACANT
    requires sent == [] && moments == []
    ensures Told(heavy, index, arrivals, sent, moments)
  {
  }

  lemma {:induction false} KeepTold(heavy: seq<Bucket>, now: seq<Bucket>, index: Placement, arrivals: seq<Flow>,
                                    sent: seq<ElasticDelta>, moments: seq<nat>, spilled: seq<Flow>, id: Flow,
                                    tau: int, votes: seq<ElasticDelta>, loses: bool)
    requires Books(heavy, index, arrivals, sent, spilled) && Told(heavy, index, arrivals, sent, moments)
    requires 1 <= tau <= MAX_PROMASK && Home(index, id) < |heavy| && InVoteRange(heavy[Home(index, id)])
    requires now == heavy[Home(index, id) := Vote(heavy[Home(index, id)], id, tau).0]
    requires votes == Vote(heavy[Home(index, id)], id, tau).1 && loses == Loses(heavy[Home(index, id)], id)
    ensures Told(now, index, arrivals + [id], sent + votes, moments + Now(|votes|, |arrivals + [id]|))
  {
    hide Vote, Loses, Accounted, Told;
    ToldVote(heavy, now, index, arrivals, sent, moments, spilled, id, tau, votes, loses);
  }

  lemma FlushedHeavyOnly(b: Bucket)
    ensures forall d :: d in FlushedBucket(b).1 ==> !d.Light?
  {
  }

  lemma HomeInVoteRange(heavy: seq<Bucket>, index: Placement, arrivals: seq<Flow>, sent: seq<ElasticDelta>,
                        spilled: seq<Flow>, id: Flow)
    requires Books(heavy, index, arrivals, sent, spilled)
    ensures Home(index, id) < |heavy| && InVoteRange(heavy[Home(index, id)])
  {
  }

  lemma {:induction false} KeepVoted(heavy: seq<Bucket>, now: seq<Bucket>, index: Placement, arrivals: seq<Flow>,
                                     sent: seq<ElasticDelta>,
                  spilled: seq<Flow>, id: Flow, tau: int, votes: seq<ElasticDelta>, loses: bool)
    requires Books(heavy, index, arrivals, sent, spilled) && 1 <= tau <= MAX_PROMASK
    requires Home(index, id) < |heavy| && InVoteRange(heavy[Home(index, id)])
    requires now == heavy[Home(index, id) := Vote(heavy[Home(index, id)], id, tau).0]
    requires votes == Vote(heavy[Home(index, id)], id, tau).1 && loses == Loses(heavy[Home(index, id)], id)
    ensures Books(now, index, arrivals + [id], sent + votes, if loses then spilled + [id] else spilled)
  {
    hide Vote, Loses, Accounted;
    BooksStep(heavy, now, index, arrivals, sent, spilled, id, tau, votes, loses);
  }

  lemma NoArrivals(heavy: seq<Bucket>, index: Placement, g: Geometry, residual: seq<int>, rowHashes: RowHashes,
                   arrivals: seq<Flow>, sent: seq<ElasticDelta>, spilled: seq<Flow>)
    requires (forall f :: index(f) < |heavy|) && forall i :: 0 <= i < |heavy| ==> heavy[i] == VACANT
    requires residual == Zeros(g.Cells()) && arrivals == [] && sent == [] && spilled == []
    ensures Books(heavy, index, arrivals, sent, spilled) && LightBooks(g, residual, sent, spilled, rowHashes)
  {
  }

  // ---------------------------------------------------------------- what the aggregator can rely on

  lemma {:induction false} ContributionNonNegative(g: Geometry, hashes: seq<Hash>, row: nat, i: int)
    requires g.kind.CountMin? && row <= |hashes|
    ensures ContributionFrom(g, hashes, row, i) >= 0
    decreases |hashes| - row
  {
    if row < |hashes| {
      ContributionNonNegative(g, hashes, row + 1, i);
    }
  }

  /** An arrival counts in the counter of each of its rows. */
  lemma {:induction false} ContributionOwn(g: Geometry, hashes: seq<Hash>, row: nat, r: nat)
    requires g.kind.CountMin? && row <= r < |hashes|
    ensures ContributionFrom(g, hashes, row, Slot(g.cols, r, Column(g.cols, hashes[r]))) >= 1
    decreases |hashes| - row
  {
    hide Column;
    ContributionNonNegative(g, hashes, row + 1, Slot(g.cols, r, Column(g.cols, hashes[r])));
    if row < r {
      ContributionOwn(g, hashes, row + 1, r);
    }
  }

  lemma {:induction false} SpillCovers(g: Geometry, spilled: seq<Flow>, rowHashes: RowHashes, f: Flow, r: nat)
    requires g.kind.CountMin? && r < |rowHashes(f)|
    ensures SinglePassCell(g, HashesOf(rowHashes, spilled), Slot(g.cols, r, Column(g.cols, rowHashes(f)[r])))
         >= Count(spilled, f)
    decreases |spilled|
  {
    hide Column, ContributionFrom, Slot;
    if spilled != [] {
      var n := |spilled| - 1;
      SpillCovers(g, spilled[..n], rowHashes, f, r);
      var h := HashesOf(rowHashes, spilled);
      assert h[..n] == HashesOf(rowHashes, spilled[..n]);
      ContributionNonNegative(g, h[n], 0, Slot(g.cols, r, Column(g.cols, rowHashes(f)[r])));
      if spilled[n] == f {
        ContributionOwn(g, rowHashes(f), 0, r);
      }
    }
  }

  /** Main result: in every row, what was sent under a flow's key, its votes still held, and the
      mass of its light counter, sent and still held, together never undercount the flow. */
  lemma {:induction false} NeverUndercounts(heavy: seq<Bucket>, index: Placement, arrivals: seq<Flow>,
                                            sent: seq<ElasticDelta>,
                         spilled: seq<Flow>, g: Geometry, residual: seq<int>, rowHashes: RowHashes, f: Flow, r: nat)
    requires Books(heavy, index, arrivals, sent, spilled) && LightBooks(g, residual, sent, spilled, rowHashes)
    requires g.kind.CountMin? && r < g.rows && |rowHashes(f)| == g.rows
    ensures var i := Slot(g.cols, r, Column(g.cols, rowHashes(f)[r]));
            && i < |residual|
            && Count(arrivals, f)
            <= Keyed(sent, f) + HeldIn(heavy[Home(index, f)], f) + Mass(g, LightPart(sent), i) + residual[i]
  {
    hide Mass, LightPart, SinglePassCell, Count, Keyed;
    SlotInRange(g.rows, g.cols, r, Column(g.cols, rowHashes(f)[r]));
    SpillCovers(g, spilled, rowHashes, f, r);
    assert Accounted(heavy, index, arrivals, sent, spilled, f);
  }

  /** Main result: a resident whose eviction flag is clear has every occurrence in the heavy part,
      so its keyed mass is exact. */
  lemma {:induction false} UnflaggedIsExact(heavy: seq<Bucket>, index: Placement, arrivals: seq<Flow>,
                                            sent: seq<ElasticDelta>,
                         spilled: seq<Flow>, f: Flow)
    requires Books(heavy, index, arrivals, sent, spilled)
    requires heavy[Home(index, f)].flow == Some(f) && !heavy[Home(index, f)].eviction
    ensures Count(arrivals, f) == Keyed(sent, f) + heavy[Home(index, f)].votePos as int
    ensures NeverEvicted(sent, f) && Count(spilled, f) == 0
  {
    hide Keyed, Count;
    assert Accounted(heavy, index, arrivals, sent, spilled, f);
  }
}
