/** Buckets of an exponential histogram and the ways they are merged, for any kind of sketch. */
module EhBuckets {
  import opened Wrappers

  datatype Bucket<S> = Bucket(sketch: S, size: nat, l2: real, minTime: nat, maxTime: nat)

  /** What a histogram needs from its sketch: how two merge, which pairs refuse to, and the L2
      mass of one. */
  datatype Ops<!S> = Ops(merge: (S, S) -> S, refuses: (S, S) -> bool, mass: S -> real)

  const MASS_EPSILON: real := 0.000000001

  function Max(a: nat, b: nat): nat {
    if a < b then b else a
  }

  function Min(a: nat, b: nat): nat {
    if a < b then a else b
  }

  /** `newer` merged into `older`. */
  function Join<S>(ops: Ops<S>, older: Bucket<S>, newer: Bucket<S>): Bucket<S> {
    var sketch := ops.merge(older.sketch, newer.sketch);
    Bucket(sketch, older.size + newer.size, ops.mass(sketch),
           Min(older.minTime, newer.minTime), Max(older.maxTime, newer.maxTime))
  }

  /** Bucket `i + 1` merged into bucket `i`. */
  function JoinAt<S>(ops: Ops<S>, p: seq<Bucket<S>>, i: nat): (q: seq<Bucket<S>>)
    requires i + 1 < |p|
    ensures |q| == |p| - 1 && q[i] == Join(ops, p[i], p[i + 1])
    ensures forall j :: 0 <= j < i ==> q[j] == p[j]
    ensures forall j :: i < j < |q| ==> q[j] == p[j + 1]
  {
    p[..i] + [Join(ops, p[i], p[i + 1])] + p[i + 2..]
  }

  /** The first `n` buckets are those that ended before the window `time - window..time`. */
  ghost predicate Expires<S>(p: seq<Bucket<S>>, n: nat, time: nat, window: nat) {
    && n <= |p| && (forall i :: 0 <= i < n ==> p[i].maxTime + window < time)
    && (n < |p| ==> p[n].maxTime + window >= time)
  }

  // ---------------------------------------------------------------- the L2 rule

  /** Total mass of the buckets from position `i` on. */
  ghost function MassFrom<S>(p: seq<Bucket<S>>, i: nat): real
    decreases |p| - i
  {
    if i >= |p| then 0.0 else p[i].l2 + MassFrom(p, i + 1)
  }

  /** Buckets `i` and `i + 1` together weigh at most 1/k of everything newer. */
  ghost predicate Light<S>(k: pos, p: seq<Bucket<S>>, i: nat) {
    i + 1 < |p| && p[i].l2 + p[i + 1].l2 <= MassFrom(p, i + 2) / k as real + MASS_EPSILON
  }

  ghost predicate Settled<S>(k: pos, p: seq<Bucket<S>>) {
    forall i: nat :: !Light(k, p, i)
  }

  /** Position `i` holds the newest light pair. */
  ghost predicate NewestLight<S>(k: pos, p: seq<Bucket<S>>, i: nat) {
    Light(k, p, i) && forall j: nat :: i < j ==> !Light(k, p, j)
  }

  /** Where merging the newest light pair, again and again, ends. */
  ghost function L2Fixpoint<S>(ops: Ops<S>, k: pos, p: seq<Bucket<S>>): (q: seq<Bucket<S>>)
    ensures Settled(k, q)
    decreases |p|
  {
    if i: nat :| NewestLight(k, p, i) then L2Fixpoint(ops, k, JoinAt(ops, p, i))
    else
      NoNewestMeansSettled(k, p, |p|);
      p
  }

  lemma {:induction false} NoNewestMeansSettled<S>(k: pos, p: seq<Bucket<S>>, n: nat)
    requires forall i: nat :: !NewestLight(k, p, i)
    requires forall j: nat :: n <= j ==> !Light(k, p, j)
    ensures Settled(k, p)
    decreases n
  {
    if n > 0 {
      assert !NewestLight(k, p, n - 1);
      NoNewestMeansSettled(k, p, n - 1);
    }
  }

  lemma {:induction false} FixpointStep<S>(ops: Ops<S>, k: pos, p: seq<Bucket<S>>, i: nat)
    requires NewestLight(k, p, i)
    ensures L2Fixpoint(ops, k, p) == L2Fixpoint(ops, k, JoinAt(ops, p, i))
  {
    forall j: nat | NewestLight(k, p, j) ensures j == i {
      assert !(i < j) && !(j < i);
    }
  }

  lemma {:induction false} FixpointDone<S>(ops: Ops<S>, k: pos, p: seq<Bucket<S>>)
    requires Settled(k, p)
    ensures L2Fixpoint(ops, k, p) == p
  {
    forall i: nat ensures !NewestLight(k, p, i) {
      assert !Light(k, p, i);
    }
  }

  // ---------------------------------------------------------------- how few buckets are left

  ghost function Growth(k: pos, n: nat): real {
    if n == 0 then 1.0 else (1.0 + 1.0 / k as real) * Growth(k, n - 1)
  }

  lemma ScaleBound(f: real, x: real, y: real)
    requires f >= 0.0 && x >= y
    ensures f * x >= f * y
  {
  }

  /** In a settled histogram of buckets of mass at least 1, every two buckets multiply the total
      mass by 1 + 1/k, so the number of buckets is logarithmic in the mass. */
  lemma {:induction false} SettledGrows<S>(k: pos, p: seq<Bucket<S>>, i: nat)
    requires Settled(k, p) && i < |p| && forall j :: 0 <= j < |p| ==> p[j].l2 >= 1.0
    ensures MassFrom(p, i) >= Growth(k, (|p| - 1 - i) / 2)
    decreases |p| - i
  {
    MassNonNegative(p, i + 1);
    if i + 2 < |p| {
      SettledGrows(k, p, i + 2);
      assert !Light(k, p, i);
      var rest, f := MassFrom(p, i + 2), 1.0 + 1.0 / k as real;
      assert MassFrom(p, i) == p[i].l2 + p[i + 1].l2 + rest;
      Portion(rest, k as real);
      ScaleBound(f, rest, Growth(k, (|p| - 1 - (i + 2)) / 2));
      assert (|p| - 1 - i) / 2 == (|p| - 1 - (i + 2)) / 2 + 1;
    }
  }

  lemma Portion(x: real, k: real)
    requires k >= 1.0
    ensures (1.0 + 1.0 / k) * x == x + x / k
  {
  }

  lemma {:induction false} MassNonNegative<S>(p: seq<Bucket<S>>, i: nat)
    requires forall j :: 0 <= j < |p| ==> p[j].l2 >= 0.0
    ensures MassFrom(p, i) >= 0.0
    decreases |p| - i
  {
    if i < |p| {
      MassNonNegative(p, i + 1);
    }
  }

  // ---------------------------------------------------------------- one pass suffices

  /** Positions that agree from `i` on weigh the same. */
  lemma {:induction false} MassFromShift<S>(p: seq<Bucket<S>>, q: seq<Bucket<S>>, i: nat, j: nat)
    requires i <= |p| && j <= |q| && p[i..] == q[j..]
    ensures MassFrom(p, i) == MassFrom(q, j)
    decreases |p| - i
  {
    if i < |p| {
      assert |p| - i == |p[i..]| == |q[j..]| == |q| - j;
      assert p[i] == p[i..][0] == q[j..][0] == q[j];
      assert p[i + 1..] == p[i..][1..] == q[j..][1..] == q[j + 1..];
      MassFromShift(p, q, i + 1, j + 1);
    }
  }

  ghost predicate SettledFrom<S>(k: pos, p: seq<Bucket<S>>, n: nat) {
    forall j: nat :: n <= j ==> !Light(k, p, j)
  }

  /** Merging the newest light pair makes no pair among the newer buckets light. */
  lemma {:induction false} JoinSettledAbove<S>(ops: Ops<S>, k: pos, p: seq<Bucket<S>>, i: nat)
    requires Light(k, p, i) && SettledFrom(k, p, i + 1)
    ensures SettledFrom(k, JoinAt(ops, p, i), i + 1)
  {
    var q := JoinAt(ops, p, i);
    forall j: nat | i + 1 <= j ensures !Light(k, q, j) {
      if j + 1 < |q| {
        assert !Light(k, p, j + 1);
        assert q[j + 2..] == p[j + 3..];
        MassFromShift(q, p, j + 2, j + 3);
      }
    }
  }

  /** When merging never loses mass, merging the newest light pair creates no light pair among
      the newer buckets: the scan need not start over. */
  lemma {:induction false} JoinKeepsSettled<S>(ops: Ops<S>, k: pos, p: seq<Bucket<S>>, i: nat)
    requires Light(k, p, i) && SettledFrom(k, p, i + 1)
    requires Join(ops, p[i], p[i + 1]).l2 >= p[i + 1].l2
    ensures SettledFrom(k, JoinAt(ops, p, i), i)
  {
    var q := JoinAt(ops, p, i);
    forall j: nat | i <= j ensures !Light(k, q, j) {
      if j + 1 < |q| {
        assert !Light(k, p, j + 1);
        assert q[j + 2..] == p[j + 3..];
        MassFromShift(q, p, j + 2, j + 3);
        assert q[j + 1] == p[j + 2];
      }
    }
  }
}

/** The sliding-window exponential histogram. A sketch is modelled as the sequence of updates
    merged into it, the freest sketch there is; which merges are refused, and the L2 mass of a
    sketch, are parameters. */
module ExponentialHistogram {
  import opened EhBuckets
  import opened EhShape
  import opened Wrappers

  datatype Item = Item(time: nat, value: int)

  datatype Norm = L1 | L2

  /** The earliest time within the window that ends at `time`. */
  function Cutoff(time: nat, window: nat): (cutoff: nat)
    ensures cutoff + window >= time && (cutoff > 0 ==> cutoff + window == time)
  {
    if time < window then 0 else time - window
  }

  ghost predicate Concatenates(ops: Ops<seq<Item>>) {
    forall a, b :: ops.merge(a, b) == a + b
  }

  ghost predicate NeverRefuses(ops: Ops<seq<Item>>) {
    forall a, b :: !ops.refuses(a, b)
  }

  /** A bucket describes exactly the updates merged into it. */
  ghost predicate Describes(ops: Ops<seq<Item>>, b: Bucket<seq<Item>>) {
    && b.sketch != [] && b.size == |b.sketch| && b.l2 == ops.mass(b.sketch)
    && (forall x :: x in b.sketch ==> b.minTime <= x.time <= b.maxTime)
    && (exists x :: x in b.sketch && x.time == b.minTime) && (exists x :: x in b.sketch && x.time == b.maxTime)
  }

  ghost predicate AllDescribe(ops: Ops<seq<Item>>, p: seq<Bucket<seq<Item>>>) {
    forall i :: 0 <= i < |p| ==> Describes(ops, p[i])
  }

  /** The updates of all buckets, oldest first. */
  ghost function Concat(p: seq<Bucket<seq<Item>>>): seq<Item> {
    if p == [] then [] else p[0].sketch + Concat(p[1..])
  }

  function Sizes(p: seq<Bucket<seq<Item>>>): (s: seq<nat>)
    ensures |s| == |p| && forall i :: 0 <= i < |p| ==> s[i] == p[i].size
  {
    seq(|p|, i requires 0 <= i < |p| => p[i].size)
  }

  /** Half of `k`, rounded up. */
  function Half(k: pos): (h: nat)
    ensures k <= 2 * h <= k + 1
  {
    (k + 1) / 2
  }

  /** A class of `same` buckets is due for a merge. */
  predicate OverFull(same: int, k: pos) {
    same as real >= k as real / 2.0 + 2.0
  }

  lemma OverFullIff(same: int, k: pos)
    ensures OverFull(same, k) <==> same >= Half(k) + 2
    ensures Half(k) >= 1
  {
  }

  lemma {:induction false} ConcatAppend(p: seq<Bucket<seq<Item>>>, q: seq<Bucket<seq<Item>>>)
    ensures Concat(p + q) == Concat(p) + Concat(q)
  {
    if p == [] {
      assert p + q == q;
    } else {
      ConcatAppend(p[1..], q);
      assert (p + q)[1..] == p[1..] + q;
    }
  }

  lemma {:induction false} ConcatOne(b: Bucket<seq<Item>>)
    ensures Concat([b]) == b.sketch
  {
    assert Concat([b]) == b.sketch + Concat([b][1..]);
  }

  lemma {:induction false} JoinDescribes(ops: Ops<seq<Item>>, a: Bucket<seq<Item>>, b: Bucket<seq<Item>>)
    requires Concatenates(ops) && Describes(ops, a) && Describes(ops, b)
    ensures Describes(ops, Join(ops, a, b))
  {
    assert ops.merge(a.sketch, b.sketch) == a.sketch + b.sketch;
    var x :| x in a.sketch && x.time == a.minTime;
    var y :| y in b.sketch && y.time == b.minTime;
    var u :| u in a.sketch && u.time == a.maxTime;
    var v :| v in b.sketch && v.time == b.maxTime;
    assert x in a.sketch + b.sketch && y in a.sketch + b.sketch && u in a.sketch + b.sketch && v in a.sketch + b.sketch;
  }

  /** Merging two neighbours changes neither the updates held nor their order. */
  lemma {:induction false} JoinAtConcat(ops: Ops<seq<Item>>, p: seq<Bucket<seq<Item>>>, i: nat)
    requires Concatenates(ops) && i + 1 < |p|
    ensures Concat(JoinAt(ops, p, i)) == Concat(p)
  {
    hide Concat, JoinAt;
    var j := Join(ops, p[i], p[i + 1]);
    var pre, post := p[..i], p[i + 2..];
    Split(p, i);
    JoinAtSplit(ops, p, i);
    ConcatAround(pre + [p[i]], p[i + 1], post);
    ConcatAround(pre, p[i], []);
    assert pre + [p[i]] + [] == pre + [p[i]];
    ConcatAround(pre, j, post);
    JoinSketch(ops, p[i], p[i + 1]);
    ConcatNone();
    Regroup(Concat(pre), p[i].sketch, p[i + 1].sketch);
  }

  lemma ConcatNone()
    ensures Concat([]) == []
  {
  }

  lemma JoinSketch(ops: Ops<seq<Item>>, a: Bucket<seq<Item>>, b: Bucket<seq<Item>>)
    requires Concatenates(ops)
    ensures Join(ops, a, b).sketch == a.sketch + b.sketch
  {
  }

  lemma Regroup(x: seq<Item>, y: seq<Item>, z: seq<Item>)
    ensures x + (y + z) == (x + y + []) + z
  {
  }

  lemma Split<T>(p: seq<T>, i: nat)
    requires i + 1 < |p|
    ensures p == (p[..i] + [p[i]]) + [p[i + 1]] + p[i + 2..]
  {
  }

  lemma JoinAtSplit(ops: Ops<seq<Item>>, p: seq<Bucket<seq<Item>>>, i: nat)
    requires i + 1 < |p|
    ensures JoinAt(ops, p, i) == p[..i] + [Join(ops, p[i], p[i + 1])] + p[i + 2..]
  {
  }

  lemma {:induction false} ConcatAround(pre: seq<Bucket<seq<Item>>>, x: Bucket<seq<Item>>, post: seq<Bucket<seq<Item>>>)
    ensures Concat(pre + [x] + post) == Concat(pre) + x.sketch + Concat(post)
  {
    ConcatAppend(pre + [x], post);
    ConcatAppend(pre, [x]);
    ConcatOne(x);
  }

  lemma JoinAtSizes(ops: Ops<seq<Item>>, p: seq<Bucket<seq<Item>>>, i: nat)
    requires i + 1 < |p|
    ensures Sizes(JoinAt(ops, p, i)) == MergedAt(Sizes(p), i)
  {
  }

  /** What any series of merges keeps. */
  ghost predicate Keeps(ops: Ops<seq<Item>>, before: seq<Bucket<seq<Item>>>, after: seq<Bucket<seq<Item>>>) {
    && AllDescribe(ops, after) && Concat(after) == Concat(before) && 1 <= |after| <= |before|
    && after[0].maxTime >= before[0].maxTime
  }

  lemma KeepsSelf(ops: Ops<seq<Item>>, p: seq<Bucket<seq<Item>>>)
    requires AllDescribe(ops, p) && |p| >= 1
    ensures Keeps(ops, p, p)
  {
  }

  lemma {:induction false} JoinAtKeeps(ops: Ops<seq<Item>>, start: seq<Bucket<seq<Item>>>,
                                       p: seq<Bucket<seq<Item>>>, i: nat)
    requires Concatenates(ops) && |start| >= 1 && Keeps(ops, start, p) && i + 1 < |p|
    ensures Keeps(ops, start, JoinAt(ops, p, i))
  {
    JoinAtConcat(ops, p, i);
    JoinDescribes(ops, p[i], p[i + 1]);
  }

  class ExponentialHistogram {
    const k: pos
    const norm: Norm
    const ops: Ops<seq<Item>>
    var window: nat
    var payload: seq<Bucket<seq<Item>>>

    ghost var stream: seq<Item>  // every update so far
    ghost var gone: nat          // how many of them have been dropped
    ghost var windows: seq<nat>  // the window in force at each of them

    /** The buckets are a segmentation of the stream without a prefix of expired updates. */
    ghost predicate Segmented()
      reads this
    {
      && Concatenates(ops)
      && AllDescribe(ops, payload)
      && gone <= |stream| && Concat(payload) == stream[gone..]
      && |windows| == |stream| && forall i :: 0 <= i < gone ==> Dropped(stream, windows, i)
    }

    /** Between updates, and as long as no merge is refused, an L1 histogram is balanced and an L2
        histogram is settled. */
    ghost predicate Valid()
      reads this
    {
      && Segmented()
      && (norm.L1? && NeverRefuses(ops) ==> Balanced(Sizes(payload), Half(k)))
      && (norm.L2? && NeverRefuses(ops) ==> Settled(k, payload))
      && (norm.L2? && Superadditive(ops) ==> Earned(ops, k, payload))
    }

    constructor (k: nat, window: nat, norm: Norm, ops: Ops<seq<Item>>)
      requires Concatenates(ops)
      ensures Valid() && this.k == (if k < 1 then 1 else k) && this.window == window && this.norm == norm
      ensures this.ops == ops && payload == [] && stream == [] && windows == []
    {
      this.k := if k < 1 then 1 else k;
      this.window, this.norm, this.ops := window, norm, ops;
      payload := [];
      stream, gone, windows := [], 0, [];
    }

    method UpdateWindow(window: nat)
      requires Valid()
      modifies this`window
      ensures Valid() && this.window == window
    {
      this.window := window;
    }

    /** Joins a bucket to its older neighbour; a refused merge changes nothing. */
    method MergeAtIndex(index: nat) returns (ok: bool)
      modifies this`payload
      ensures index + 1 >= |old(payload)| ==> ok && payload == old(payload)
      ensures index + 1 < |old(payload)| ==>
                ok == !ops.refuses(old(payload)[index].sketch, old(payload)[index + 1].sketch)
                && payload == if ok then JoinAt(ops, old(payload), index) else old(payload)
    {
      hide Join;
      if index + 1 >= |payload| {
        return true;
      }
      ghost var was := payload;
      var other := payload[index + 1];
      if ops.refuses(payload[index].sketch, other.sketch) {
        return false;
      }
      payload := payload[index := Join(ops, payload[index], other)];
      payload := payload[..index + 1] + payload[index + 2..];
      assert payload == was[..index] + [Join(ops, was[index], other)] + was[index + 2..];
      return true;
    }

    /** The cascade's step at the end of a class: merges the two oldest of an over-full class and
        starts counting the next older class. */
    method EndClass(i: int, same: int, ghost start: seq<Bucket<seq<Item>>>,
                    ghost shaped: bool, ghost b: seq<nat>, ghost q: int, ghost carry: int)
      returns (ok: bool, next: int, ghost carried: int)
      requires Concatenates(ops) && |start| >= 1 && Keeps(ops, start, payload)
      requires 0 <= i && i + 1 < |payload| && payload[i].size != payload[i + 1].size
      requires shaped ==> Walk(b, Half(k), Sizes(payload), i, same, q, carry)
      modifies this`payload
      ensures Keeps(ops, start, payload) && i + 1 < |payload| && (NeverRefuses(ops) ==> ok)
      ensures ok && shaped ==> Onward(b, Half(k), Sizes(payload), i, next, carried)
    {
      hide Walk, Onward, Keeps, Balanced, OverFull, Half, MergedAt, JoinAt, Join, AllDescribe;
      OverFullIff(same, k);
      OverFullIff(1, k);
      if shaped {
        WalkBoundary(b, Half(k), Sizes(payload), i, same, q, carry);
      }
      ok, next, carried := true, 1, 0;
      if OverFull(same, k) {
        if i + 2 < |payload| {
          JoinAtKeeps(ops, start, payload, i + 1);
          JoinAtSizes(ops, payload, i + 1);
        }
        carried := 1;
        ok := MergeAtIndex(i + 1);
        if !ok {
          return;
        }
      }
      if i + 1 < |payload| && i > 0 && payload[i + 1].size == payload[i].size {
        next := next + 1;
      }
    }

    /** The L1 cascade: one walk from the newest bucket to the oldest, merging the two oldest
        buckets of every class that has become too long. */
    method MergeVolumesL1() returns (ok: bool)
      requires Concatenates(ops) && AllDescribe(ops, payload) && |payload| >= 1
      modifies this`payload
      ensures Keeps(ops, old(payload), payload)
      ensures NeverRefuses(ops) ==> ok
      ensures ok && Appended(old(Sizes(payload)), Half(k)) ==> Balanced(Sizes(payload), Half(k))
    {
      hide Walk, Keeps, AllDescribe, Appended, Balanced, MergedAt, JoinAt, Join, OverFull, Half;
      OverFullIff(1, k);
      KeepsSelf(ops, payload);
      ghost var start, h := payload, Half(k);
      ghost var shaped, b := Appended(Sizes(payload), h), Sizes(payload)[..|payload| - 1];
      if shaped {
        AppendedStart(Sizes(payload), h);
      }
      if |payload| < 2 {
        return true;
      }
      ghost var q, carry, top := |payload| - 1, 1, false;
      var same, i := 1, |payload| - 2;
      while true
        invariant 0 <= i && i + 1 < |payload| && Keeps(ops, start, payload) && !top
        invariant shaped ==> Walk(b, h, Sizes(payload), i, same, q, carry)
        decreases i
      {
        if payload[i].size == payload[i + 1].size {
          if shaped && i > 0 {
            WalkSame(b, h, Sizes(payload), i, same, q, carry);
          }
          top := i == 0;
          same := same + 1;
        } else {
          ok, same, carry := EndClass(i, same, start, shaped, b, q, carry);
          if !ok {
            return;
          }
          q := i + 1;
        }
        if i == 0 {
          break;
        }
        i := i - 1;
      }
      ok := true;
      OverFullIff(same, k);
      if shaped && top {
        if same < h + 2 { WalkTopStays(b, h, Sizes(payload), same - 1, q, carry); }
        else { WalkTopMerges(b, h, Sizes(payload), same - 1, q, carry); }
      }
      if |payload| >= 2 && OverFull(same, k) {
        JoinAtKeeps(ops, start, payload, 0);
        JoinAtSizes(ops, payload, 0);
        ok := MergeAtIndex(0);
      }
    }

    /** The newest pair of neighbours that is light. */
    method FindL2MergeCandidate() returns (found: bool, index: nat)
      ensures if found then NewestLight(k, payload, index) else Settled(k, payload)
    {
      found, index := false, 0;
      if |payload| < 2 {
        return;
      }
      var sumNewer := 0.0;
      var i := |payload| - 1;
      while i > 0
        invariant 0 <= i < |payload| && SettledFrom(k, payload, i)
        invariant sumNewer == MassFrom(payload, i + 1)
      {
        i := i - 1;
        var pair := payload[i].l2 + payload[i + 1].l2;
        if pair <= sumNewer / k as real + MASS_EPSILON {
          return true, i;
        }
        sumNewer := sumNewer + payload[i + 1].l2;
      }
    }

    /** Merges the newest light pair until none is left. */
    method MergeVolumesL2() returns (ok: bool)
      requires Concatenates(ops) && AllDescribe(ops, payload) && |payload| >= 1
      modifies this`payload
      ensures Keeps(ops, old(payload), payload)
      ensures NeverRefuses(ops) ==> ok
      ensures ok ==> payload == L2Fixpoint(ops, k, old(payload))
      ensures Superadditive(ops) && Earned(ops, k, old(payload)) ==> Earned(ops, k, payload)
    {
      hide Superadditive, Earned, Keeps;
      KeepsSelf(ops, payload);
      while true
        invariant Keeps(ops, old(payload), payload)
        invariant L2Fixpoint(ops, k, payload) == L2Fixpoint(ops, k, old(payload))
        invariant Superadditive(ops) && Earned(ops, k, old(payload)) ==> Earned(ops, k, payload)
        decreases |payload|
      {
        var found, index := FindL2MergeCandidate();
        if !found {
          FixpointDone(ops, k, payload);
          return true;
        }
        FixpointStep(ops, k, payload, index);
        JoinAtKeeps(ops, old(payload), payload, index);
        if Superadditive(ops) && Earned(ops, k, payload) {
          KeepsDescribes(ops, old(payload), payload);
          EarnedJoin(ops, k, payload, index);
        }
        ok := MergeAtIndex(index);
        if !ok {
          return false;
        }
      }
    }

    method CountExpired(cutoff: nat) returns (expired: nat)
      ensures expired <= |payload| && forall i :: 0 <= i < expired ==> payload[i].maxTime < cutoff
      ensures expired < |payload| ==> payload[expired].maxTime >= cutoff
    {
      expired := 0;
      while expired < |payload| && payload[expired].maxTime < cutoff
        invariant 0 <= expired <= |payload|
        invariant forall i :: 0 <= i < expired ==> payload[i].maxTime < cutoff
      {
        expired := expired + 1;
      }
    }

    /** Drops the expired buckets at the front and appends a bucket of its own for the update. */
    method Push(time: nat, value: int)
      requires Segmented()
      modifies this`payload, this`stream, this`gone, this`windows
      ensures Segmented()
      ensures stream == old(stream) + [Item(time, value)] && windows == old(windows) + [window]
      ensures gone >= old(gone) && forall i :: old(gone) <= i < gone ==> stream[i].time + window < time
      ensures exists n: nat :: Expires(old(payload), n, time, window)
                          && payload == old(payload)[n..] + [Newest(ops, Item(time, value))]
    {
      hide Describes, Concat, Cutoff, Dropped;
      var cutoff := Cutoff(time, window);
      var expired := CountExpired(cutoff);
      var item := Item(time, value);
      var newest := Bucket([item], 1, ops.mass([item]), time, time);
      NewestDescribes(ops, item);
      ghost var was := payload;
      payload := payload[expired..] + [newest];
      DropAndAppend(ops, was, expired, newest, time, window, stream, gone, item);
      assert Expires(was, expired, time, window);
      ghost var went := gone + |Concat(was[..expired])|;
      StillDropped(stream, windows, gone, went, item, window);
      gone := went;
      stream := stream + [item];
      windows := windows + [window];
    }

    /** Records one update. A refused merge is ignored. */
    method Update(time: nat, value: int)
      requires Valid()
      modifies this`payload, this`stream, this`gone, this`windows
      ensures Valid()
      ensures stream == old(stream) + [Item(time, value)] && windows == old(windows) + [window]
      ensures gone >= old(gone) && forall i :: old(gone) <= i < gone ==> stream[i].time + window < time
      ensures |payload| >= 1 && payload[0].maxTime + window >= time
      ensures norm.L1? && NeverRefuses(ops) && Sorted(stream) ==>
                WithinWindowError(k, stream[gone..], time, window)
      ensures norm.L2? && NeverRefuses(ops) ==>
                exists n: nat :: Expires(old(payload), n, time, window)
                            && payload == L2Fixpoint(ops, k, old(payload)[n..] + [Newest(ops, Item(time, value))])
    {
      hide Balanced, Settled, Concat, Half, Cutoff, Appended, Describes, Sizes, L2Fixpoint, Sorted, Expired,
          AllDescribe, Earned, Superadditive, Dropped;
      ghost var was, item := payload, Item(time, value);
      Push(time, value);
      ghost var n: nat :| Expires(was, n, time, window) && payload == was[n..] + [Newest(ops, item)];
      if norm.L1? {
        AppendedSizes(was, n, Newest(ops, item), Half(k));
        var ok := MergeVolumesL1();
        if ok && Balanced(Sizes(payload), Half(k)) && Sorted(stream) {
          SortedSuffix(stream, gone);
          WindowError(ops, k, payload, time, window);
        }
      } else {
        if Superadditive(ops) {
          EarnedPush(ops, k, was, n, item);
        }
        var ok := MergeVolumesL2();
        assert ok ==> payload == L2Fixpoint(ops, k, was[n..] + [Newest(ops, item)]);
      }
    }
  }

  /** Some later update found update `i` outside the window then in force. */
  ghost predicate Dropped(stream: seq<Item>, windows: seq<nat>, i: nat) {
    |windows| == |stream| && exists j :: i < j < |stream| && stream[i].time + windows[j] < stream[j].time
  }

  lemma {:induction false} StillDropped(stream: seq<Item>, windows: seq<nat>, gone: nat, went: nat, item: Item,
                                        window: nat)
    requires |windows| == |stream| && gone <= went <= |stream|
    requires forall i :: 0 <= i < gone ==> Dropped(stream, windows, i)
    requires forall i :: gone <= i < went ==> stream[i].time + window < item.time
    ensures forall i :: 0 <= i < went ==> Dropped(stream + [item], windows + [window], i)
  {
    var s, ws := stream + [item], windows + [window];
    forall i | 0 <= i < went ensures Dropped(s, ws, i) {
      if i < gone {
        assert Dropped(stream, windows, i);
        var j :| i < j < |stream| && stream[i].time + windows[j] < stream[j].time;
        assert s[i].time + ws[j] < s[j].time;
      } else {
        assert s[i].time + ws[|stream|] < s[|stream|].time;
      }
    }
  }

  /** The bucket of a single update. */
  ghost function Newest(ops: Ops<seq<Item>>, item: Item): Bucket<seq<Item>> {
    Bucket([item], 1, ops.mass([item]), item.time, item.time)
  }

  lemma KeepsDescribes(ops: Ops<seq<Item>>, before: seq<Bucket<seq<Item>>>, after: seq<Bucket<seq<Item>>>)
    requires Keeps(ops, before, after)
    ensures AllDescribe(ops, after)
  {
  }

  // ---------------------------------------------------------------- how heavy a merged bucket may be

  /** Merging loses no mass, and there is none below zero. */
  ghost predicate Superadditive(ops: Ops<seq<Item>>) {
    && (forall a :: ops.mass(a) >= 0.0)
    && forall a, b :: ops.mass(a + b) >= ops.mass(a) + ops.mass(b)
  }

  /** A merged bucket consists of two parts that together weigh at most 1/k of everything newer. */
  ghost predicate EarnedAt(ops: Ops<seq<Item>>, k: pos, sketch: seq<Item>, newer: real) {
    exists j :: 0 < j < |sketch|
                && ops.mass(sketch[..j]) + ops.mass(sketch[j..]) <= newer / k as real + 0.000000001
  }

  ghost predicate Earned(ops: Ops<seq<Item>>, k: pos, p: seq<Bucket<seq<Item>>>) {
    forall i :: 0 <= i < |p| && |p[i].sketch| >= 2 ==> EarnedAt(ops, k, p[i].sketch, MassFrom(p, i + 1))
  }

  lemma ShareGrows(x: real, y: real, k: real)
    requires x <= y && k >= 1.0
    ensures x / k <= y / k
  {
  }

  lemma {:induction false} EarnedGrows(ops: Ops<seq<Item>>, k: pos, sketch: seq<Item>, x: real, y: real)
    requires EarnedAt(ops, k, sketch, x) && x <= y
    ensures EarnedAt(ops, k, sketch, y)
  {
    ShareGrows(x, y, k as real);
  }

  lemma {:induction false} MassFromPush(ops: Ops<seq<Item>>, p: seq<Bucket<seq<Item>>>, b: Bucket<seq<Item>>, i: nat)
    requires i <= |p|
    ensures MassFrom(p + [b], i) == MassFrom(p, i) + b.l2
    decreases |p| - i
  {
    if i < |p| {
      MassFromPush(ops, p, b, i + 1);
    } else {
      assert MassFrom(p + [b], i + 1) == 0.0;
    }
  }

  lemma {:induction false} EarnedPush(ops: Ops<seq<Item>>, k: pos, p: seq<Bucket<seq<Item>>>, n: nat, item: Item)
    requires Superadditive(ops) && Earned(ops, k, p) && n <= |p|
    ensures Earned(ops, k, p[n..] + [Newest(ops, item)])
  {
    hide EarnedAt;
    var live, b := p[n..], Newest(ops, item);
    forall i | 0 <= i < |live| && |live[i].sketch| >= 2
      ensures EarnedAt(ops, k, live[i].sketch, MassFrom(live + [b], i + 1))
    {
      assert live[i] == p[n + i] && live[i + 1..] == p[n + i + 1..];
      MassFromShift(live, p, i + 1, n + i + 1);
      MassFromPush(ops, live, b, i + 1);
      EarnedGrows(ops, k, live[i].sketch, MassFrom(p, n + i + 1), MassFrom(live + [b], i + 1));
    }
  }

  lemma {:induction false} MassFromJoin(ops: Ops<seq<Item>>, p: seq<Bucket<seq<Item>>>, i: nat, j: nat)
    requires Superadditive(ops) && Concatenates(ops) && AllDescribe(ops, p) && j <= i && i + 1 < |p|
    ensures MassFrom(JoinAt(ops, p, i), j) >= MassFrom(p, j)
    decreases i - j
  {
    hide Describes, Superadditive;
    var q := JoinAt(ops, p, i);
    if j < i {
      MassFromJoin(ops, p, i, j + 1);
    } else {
      assert q[i + 1..] == p[i + 2..];
      MassFromShift(q, p, i + 1, i + 2);
      JoinedMass(ops, p[i], p[i + 1]);
      assert AllDescribe(ops, p) && Describes(ops, p[i]) && Describes(ops, p[i + 1]);
    }
  }

  lemma JoinedMass(ops: Ops<seq<Item>>, a: Bucket<seq<Item>>, b: Bucket<seq<Item>>)
    requires Superadditive(ops) && Concatenates(ops) && Describes(ops, a) && Describes(ops, b)
    ensures Join(ops, a, b).l2 >= a.l2 + b.l2
    ensures Join(ops, a, b).sketch == a.sketch + b.sketch
  {
    assert ops.merge(a.sketch, b.sketch) == a.sketch + b.sketch;
  }

  lemma {:induction false} EarnedOlder(ops: Ops<seq<Item>>, k: pos, p: seq<Bucket<seq<Item>>>, i: nat, j: nat)
    requires Superadditive(ops) && Concatenates(ops) && AllDescribe(ops, p) && Earned(ops, k, p)
    requires j < i && i + 1 < |p| && |p[j].sketch| >= 2
    ensures EarnedAt(ops, k, p[j].sketch, MassFrom(JoinAt(ops, p, i), j + 1))
  {
    hide EarnedAt, Superadditive, Concatenates, AllDescribe, MassFrom, JoinAt;
    MassFromJoin(ops, p, i, j + 1);
    EarnedGrows(ops, k, p[j].sketch, MassFrom(p, j + 1), MassFrom(JoinAt(ops, p, i), j + 1));
  }

  lemma {:induction false} EarnedNewer(ops: Ops<seq<Item>>, k: pos, p: seq<Bucket<seq<Item>>>, i: nat, j: nat)
    requires Earned(ops, k, p) && i < j && j + 1 < |p| && |p[j + 1].sketch| >= 2
    ensures EarnedAt(ops, k, p[j + 1].sketch, MassFrom(JoinAt(ops, p, i), j + 1))
  {
    hide EarnedAt;
    var q := JoinAt(ops, p, i);
    assert q[j + 1..] == p[j + 2..];
    MassFromShift(q, p, j + 1, j + 2);
    hide MassFrom, JoinAt;
  }

  /** Merging a light pair keeps every merged bucket within its share. */
  lemma {:induction false} EarnedJoin(ops: Ops<seq<Item>>, k: pos, p: seq<Bucket<seq<Item>>>, i: nat)
    requires Superadditive(ops) && Concatenates(ops) && AllDescribe(ops, p) && Earned(ops, k, p)
    requires Light(k, p, i)
    ensures Earned(ops, k, JoinAt(ops, p, i))
  {
    hide EarnedAt, Superadditive, Concatenates, Join, AllDescribe, Describes;
    var q := JoinAt(ops, p, i);
    assert Describes(ops, p[i]) && Describes(ops, p[i + 1]) by {
      BothDescribe(ops, p, i);
    }
    assert q[i + 1..] == p[i + 2..];
    MassFromShift(q, p, i + 1, i + 2);
    LightIsEarned(ops, k, p[i], p[i + 1], MassFrom(p, i + 2));
    hide MassFrom, Light, JoinAt;
    forall j | 0 <= j < |q| && |q[j].sketch| >= 2
      ensures EarnedAt(ops, k, q[j].sketch, MassFrom(q, j + 1))
    {
      if j < i {
        EarnedOlder(ops, k, p, i, j);
      } else if j > i {
        EarnedNewer(ops, k, p, i, j);
      }
    }
  }

  lemma BothDescribe(ops: Ops<seq<Item>>, p: seq<Bucket<seq<Item>>>, i: nat)
    requires AllDescribe(ops, p) && i + 1 < |p|
    ensures Describes(ops, p[i]) && Describes(ops, p[i + 1])
  {
  }

  lemma {:induction false} LightIsEarned(ops: Ops<seq<Item>>, k: pos, a: Bucket<seq<Item>>, b: Bucket<seq<Item>>,
                                         newer: real)
    requires Concatenates(ops) && Describes(ops, a) && Describes(ops, b)
    requires a.l2 + b.l2 <= newer / k as real + MASS_EPSILON
    ensures EarnedAt(ops, k, Join(ops, a, b).sketch, newer)
  {
    var sketch := Join(ops, a, b).sketch;
    assert ops.merge(a.sketch, b.sketch) == a.sketch + b.sketch;
    assert sketch == a.sketch + b.sketch && sketch[..|a.sketch|] == a.sketch && sketch[|a.sketch|..] == b.sketch;
  }

  /** The mass of two sketches together is at most twice the sum of their masses, as for the squared
      length of vectors. */
  ghost predicate AtMostDoubles(ops: Ops<seq<Item>>) {
    forall a, b :: ops.mass(a + b) <= 2.0 * (ops.mass(a) + ops.mass(b))
  }

  /** The error bound of the L2 histogram: a bucket of more than one update, the oldest one above all,
      weighs at most 2/k of everything newer. */
  lemma {:induction false} L2WindowError(ops: Ops<seq<Item>>, k: pos, p: seq<Bucket<seq<Item>>>, i: nat)
    requires AllDescribe(ops, p) && Earned(ops, k, p) && AtMostDoubles(ops)
    requires i < |p| && p[i].size >= 2
    ensures p[i].l2 <= 2.0 * (MassFrom(p, i + 1) / k as real + 0.000000001)
  {
    assert Describes(ops, p[i]) && EarnedAt(ops, k, p[i].sketch, MassFrom(p, i + 1));
    var sketch := p[i].sketch;
    var j :| 0 < j < |sketch|
             && ops.mass(sketch[..j]) + ops.mass(sketch[j..]) <= MassFrom(p, i + 1) / k as real + 0.000000001;
    assert sketch == sketch[..j] + sketch[j..];
  }

  lemma {:induction false} NewestDescribes(ops: Ops<seq<Item>>, item: Item)
    ensures Describes(ops, Bucket([item], 1, ops.mass([item]), item.time, item.time))
  {
    assert item in [item];
  }

  lemma {:induction false} AppendedSizes(p: seq<Bucket<seq<Item>>>, n: nat, newest: Bucket<seq<Item>>, h: nat)
    requires n <= |p| && newest.size == 1
    ensures Balanced(Sizes(p), h) ==> Appended(Sizes(p[n..] + [newest]), h)
  {
    var s := Sizes(p[n..] + [newest]);
    assert s[..|s| - 1] == Sizes(p)[n..];
    hide Balanced;
    if Balanced(Sizes(p), h) {
      DropBalanced(Sizes(p), h, n);
    }
  }

  lemma {:induction false} ExpiredItems(ops: Ops<seq<Item>>, p: seq<Bucket<seq<Item>>>, time: nat, window: nat)
    requires AllDescribe(ops, p) && forall i :: 0 <= i < |p| ==> p[i].maxTime + window < time
    ensures forall x :: x in Concat(p) ==> x.time + window < time
  {
    if p != [] {
      ExpiredItems(ops, p[1..], time, window);
      assert Describes(ops, p[0]);
    }
  }

  /** Dropping expired buckets from the front and appending a new one moves the segmentation
      along the stream. */
  lemma {:induction false} DropAndAppend(ops: Ops<seq<Item>>, p: seq<Bucket<seq<Item>>>, n: nat,
                                         newest: Bucket<seq<Item>>,
                      time: nat, window: nat, stream: seq<Item>, gone: nat, item: Item)
    requires AllDescribe(ops, p) && n <= |p| && forall i :: 0 <= i < n ==> p[i].maxTime + window < time
    requires Describes(ops, newest) && newest.sketch == [item]
    requires gone <= |stream| && Concat(p) == stream[gone..]
    ensures AllDescribe(ops, p[n..] + [newest])
    ensures var g := gone + |Concat(p[..n])|;
            && g <= |stream| && Concat(p[n..] + [newest]) == (stream + [item])[g..]
            && forall i :: gone <= i < g ==> stream[i].time + window < time
  {
    hide Concat, Describes;
    var a, r := Concat(p[..n]), Concat(p[n..]);
    assert p == p[..n] + p[n..];
    ConcatAppend(p[..n], p[n..]);
    ConcatAppend(p[n..], [newest]);
    ConcatOne(newest);
    ExpiredItems(ops, p[..n], time, window);
    SuffixSplit(stream, gone, a, r, item);
    forall i | gone <= i < gone + |a| ensures stream[i].time + window < time {
      assert stream[i] == a[i - gone];
    }
  }

  lemma {:induction false} SuffixSplit<T>(s: seq<T>, from: nat, a: seq<T>, r: seq<T>, x: T)
    requires from <= |s| && a + r == s[from..]
    ensures from + |a| <= |s| && r + [x] == (s + [x])[from + |a|..]
    ensures forall i :: from <= i < from + |a| ==> s[i] == a[i - from]
  {
    forall i | 0 <= i < |a| ensures s[from + i] == a[i] {
      assert (a + r)[i] == s[from..][i];
    }
    assert r == (a + r)[|a|..] == s[from + |a|..];
  }

  // ---------------------------------------------------------------- the sliding-window error

  ghost predicate Sorted(s: seq<Item>) {
    forall i, j :: 0 <= i < j < |s| ==> s[i].time <= s[j].time
  }

  /** How many updates are out of the window. */
  ghost function Expired(s: seq<Item>, time: nat, window: nat): nat {
    if s == [] then 0 else (if s[0].time + window < time then 1 else 0) + Expired(s[1..], time, window)
  }

  lemma {:induction false} ExpiredConcat(a: seq<Item>, b: seq<Item>, time: nat, window: nat)
    ensures Expired(a + b, time, window) == Expired(a, time, window) + Expired(b, time, window)
  {
    if a == [] {
      assert a + b == b;
    } else {
      ExpiredConcat(a[1..], b, time, window);
      assert (a + b)[1..] == a[1..] + b;
    }
  }

  lemma {:induction false} ExpiredNone(s: seq<Item>, time: nat, window: nat)
    requires forall x :: x in s ==> x.time + window >= time
    ensures Expired(s, time, window) == 0
  {
    if s != [] {
      ExpiredNone(s[1..], time, window);
    }
  }

  lemma {:induction false} ExpiredBelow(s: seq<Item>, time: nat, window: nat, x: Item)
    requires x in s && x.time + window >= time
    ensures Expired(s, time, window) <= |s| - 1
  {
    if s[0].time + window < time {
      ExpiredBelow(s[1..], time, window, x);
    } else {
      ExpiredAtMost(s[1..], time, window);
    }
  }

  lemma {:induction false} ExpiredAtMost(s: seq<Item>, time: nat, window: nat)
    ensures Expired(s, time, window) <= |s|
  {
    if s != [] {
      ExpiredAtMost(s[1..], time, window);
    }
  }

  lemma {:induction false} ConcatLength(ops: Ops<seq<Item>>, p: seq<Bucket<seq<Item>>>)
    requires AllDescribe(ops, p)
    ensures |Concat(p)| == Sum(Sizes(p))
  {
    if p != [] {
      ConcatLength(ops, p[1..]);
      assert Sizes(p)[1..] == Sizes(p[1..]);
      assert Describes(ops, p[0]);
    }
  }

  /** With nondecreasing times and a live oldest bucket, only the oldest bucket holds expired
      updates. */
  lemma {:induction false} OnlyOldestExpired(ops: Ops<seq<Item>>, p: seq<Bucket<seq<Item>>>, time: nat, window: nat)
    requires AllDescribe(ops, p) && |p| >= 1 && Sorted(Concat(p)) && p[0].maxTime + window >= time
    ensures Expired(Concat(p), time, window) == Expired(p[0].sketch, time, window) <= p[0].size - 1
    ensures forall x :: x in Concat(p[1..]) ==> x.time + window >= time
  {
    assert Describes(ops, p[0]);
    var u :| u in p[0].sketch && u.time == p[0].maxTime;
    var rest := Concat(p[1..]);
    assert Concat(p) == p[0].sketch + rest;
    forall x | x in rest ensures x.time + window >= time {
      var i :| 0 <= i < |p[0].sketch| && p[0].sketch[i] == u;
      var j :| 0 <= j < |rest| && rest[j] == x;
      assert Concat(p)[i] == u && Concat(p)[|p[0].sketch| + j] == x;
    }
    ExpiredConcat(p[0].sketch, rest, time, window);
    ExpiredNone(rest, time, window);
    ExpiredBelow(p[0].sketch, time, window, u);
  }

  lemma SortedSuffix(s: seq<Item>, from: nat)
    requires Sorted(s) && from <= |s|
    ensures Sorted(s[from..])
  {
  }

  /** The expired updates among those retained are at most one part in `Half(k)` of the live ones. */
  ghost predicate WithinWindowError(k: pos, retained: seq<Item>, time: nat, window: nat) {
    var expired := Expired(retained, time, window);
    Half(k) * expired <= |retained| - expired - 1
  }

  /** The error bound of the L1 histogram: the expired updates still counted are at most one part
      in `Half(k)` of the live ones. */
  lemma {:induction false} WindowError(ops: Ops<seq<Item>>, k: pos, p: seq<Bucket<seq<Item>>>, time: nat, window: nat)
    requires AllDescribe(ops, p) && |p| >= 1 && Sorted(Concat(p)) && p[0].maxTime + window >= time
    requires Balanced(Sizes(p), Half(k))
    ensures WithinWindowError(k, Concat(p), time, window)
  {
    var h, s, expired := Half(k), Sizes(p), Expired(Concat(p), time, window);
    OnlyOldestExpired(ops, p, time, window);
    NewerOutweighOldest(s, h);
    ConcatLength(ops, p);
    assert Sum(s) == s[0] + Sum(s[1..]);
    hide Balanced, Half, Expired, Concat, Sum, Sorted, AllDescribe;
    Times(h, expired, s[0] - 1);
  }

  lemma Times(h: nat, x: int, y: int)
    requires x <= y
    ensures h * x <= h * y
  {
  }
}
