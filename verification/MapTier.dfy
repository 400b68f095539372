/** The map tier of the optimised UnivMon histogram: recent buckets hold exact frequency maps and
    are merged by the L2 rule in a single backward pass. */
module MapTier {
  import opened Choice
  import opened EhBuckets
  import ExponentialHistogram
  import opened Wrappers

  type Freq = map<int, int>

  // ---------------------------------------------------------------- frequency maps

  ghost function At(m: Freq, x: int): int {
    if x in m then m[x] else 0
  }

  ghost function AddFreq(a: Freq, b: Freq): Freq {
    map x | x in a.Keys + b.Keys :: At(a, x) + At(b, x)
  }

  ghost function SumSquares(keys: set<int>, m: Freq): real {
    if keys == {} then 0.0
    else
      var x := Any(keys);
      (At(m, x) * At(m, x)) as real + SumSquares(keys - {x}, m)
  }

  /** The L2 mass of a frequency map. */
  ghost function MapMass(m: Freq): real {
    SumSquares(m.Keys, m)
  }

  ghost predicate NonNegative(m: Freq) {
    forall x :: x in m ==> m[x] >= 0
  }

  ghost const OPS: Ops<Freq> := Ops((a, b) => AddFreq(a, b), (a, b) => false, m => MapMass(m))

  lemma {:induction false} SquaresRemove(keys: set<int>, m: Freq, x: int)
    requires x in keys
    ensures SumSquares(keys, m) == (At(m, x) * At(m, x)) as real + SumSquares(keys - {x}, m)
  {
    hide At, Any;
    var y := Any(keys);
    if y != x {
      SquaresRemove(keys - {y}, m, x);
      SquaresRemove(keys - {x}, m, y);
      assert keys - {y} - {x} == keys - {x} - {y};
    }
  }

  lemma SquareMonotone(x: int, y: int)
    requires 0 <= x <= y
    ensures x * x <= y * y
  {
  }

  /** Larger frequencies on a larger set of keys weigh more. */
  lemma {:induction false} SquaresMonotone(small: set<int>, a: Freq, large: set<int>, b: Freq)
    requires small <= large && forall x :: x in small ==> 0 <= At(a, x) <= At(b, x)
    ensures SumSquares(small, a) <= SumSquares(large, b)
    decreases large
  {
    hide At;
    if large != {} {
      var x := Any(large);
      SquaresRemove(large, b, x);
      if x in small {
        SquaresRemove(small, a, x);
        SquareMonotone(At(a, x), At(b, x));
      } else {
        SquareNonNegative(At(b, x));
      }
      SquaresMonotone(small - {x}, a, large - {x}, b);
      assert x !in small ==> small - {x} == small;
    } else {
      assert small == {};
    }
  }

  lemma SquareNonNegative(x: int)
    ensures x * x >= 0
  {
  }

  /** Merging frequency maps without negative entries never loses mass. */
  lemma {:induction false} AddFreqMass(a: Freq, b: Freq)
    requires NonNegative(a) && NonNegative(b)
    ensures MapMass(AddFreq(a, b)) >= MapMass(b) && NonNegative(AddFreq(a, b))
  {
    SquaresMonotone(b.Keys, b, AddFreq(a, b).Keys, AddFreq(a, b));
  }

  // ---------------------------------------------------------------- the operations

  /** Adds every entry of `other` to `into`. */
  method MergeMaps(into: Freq, other: Freq) returns (m: Freq)
    ensures m == AddFreq(into, other)
  {
    m := into;
    var todo := other.Keys;
    while todo != {}
      invariant todo <= other.Keys && PartlyAdded(into, other, todo, m)
      decreases |todo|
    {
      ghost var some := Pick(todo);
      var x :| x in todo;
      AddOne(into, other, todo, m, x);
      m := m[x := (if x in m then m[x] else 0) + other[x]];
      todo := todo - {x};
    }
    AllAdded(into, other, m);
  }

  /** `m` is `into` with the entries of `other` added that are not in `todo`. */
  ghost predicate PartlyAdded(into: Freq, other: Freq, todo: set<int>, m: Freq) {
    forall x ::
      && (x in m <==> x in into || (x in other && x !in todo))
      && At(m, x) == At(into, x) + (if x in todo then 0 else At(other, x))
  }

  lemma {:induction false} AddOne(into: Freq, other: Freq, todo: set<int>, m: Freq, x: int)
    requires PartlyAdded(into, other, todo, m) && x in todo && x in other
    ensures PartlyAdded(into, other, todo - {x}, m[x := At(m, x) + other[x]])
  {
    assert At(m, x) == At(into, x);
  }

  lemma {:induction false} AllAdded(into: Freq, other: Freq, m: Freq)
    requires PartlyAdded(into, other, {}, m)
    ensures m == AddFreq(into, other)
  {
    forall x ensures x in m.Keys <==> x in into.Keys + other.Keys {
      assert x in m <==> x in into || x in other;
    }
    forall x | x in m ensures m[x] == At(into, x) + At(other, x) {
      assert At(m, x) == m[x];
    }
  }

  /** The sum of the squared frequencies. */
  method CalcMapL22(m: Freq) returns (l22: real)
    ensures l22 == MapMass(m)
  {
    l22 := 0.0;
    var todo := m.Keys;
    while todo != {}
      invariant todo <= m.Keys && l22 + SumSquares(todo, m) == MapMass(m)
      decreases |todo|
    {
      ghost var some := Pick(todo);
      var x :| x in todo;
      SquaresRemove(todo, m, x);
      l22 := l22 + (m[x] * m[x]) as real;
      todo := todo - {x};
    }
  }

  ghost predicate AllNonNegative(p: seq<Bucket<Freq>>) {
    forall i :: 0 <= i < |p| ==> NonNegative(p[i].sketch) && p[i].l2 == MapMass(p[i].sketch)
  }

  lemma {:induction false} JoinKeepsMass(a: Bucket<Freq>, b: Bucket<Freq>)
    requires NonNegative(a.sketch) && NonNegative(b.sketch) && b.l2 == MapMass(b.sketch)
    ensures Join(OPS, a, b).l2 >= b.l2
    ensures NonNegative(Join(OPS, a, b).sketch) && Join(OPS, a, b).l2 == MapMass(Join(OPS, a, b).sketch)
  {
    AddFreqMass(a.sketch, b.sketch);
  }

  lemma {:induction false} JoinAtNonNegative(p: seq<Bucket<Freq>>, i: nat)
    requires AllNonNegative(p) && i + 1 < |p|
    ensures AllNonNegative(JoinAt(OPS, p, i)) && Join(OPS, p[i], p[i + 1]).l2 >= p[i + 1].l2
  {
    JoinKeepsMass(p[i], p[i + 1]);
    hide NonNegative, MapMass, Join;
  }

  // ---------------------------------------------------------------- the single backward pass

  /** One backward scan from position `i`, merging every light pair it meets. */
  ghost function PassFrom(k: pos, p: seq<Bucket<Freq>>, i: nat): seq<Bucket<Freq>>
    requires i + 1 < |p|
    decreases i
  {
    var q := if Light(k, p, i) then JoinAt(OPS, p, i) else p;
    if i == 0 then q else PassFrom(k, q, i - 1)
  }

  ghost function OnePass(k: pos, p: seq<Bucket<Freq>>): seq<Bucket<Freq>> {
    if |p| < 2 then p else PassFrom(k, p, |p| - 2)
  }

  /** No merge of the pass leaves a light pair behind it: the merged bucket and the next newer one
      together are heavy enough. */
  ghost predicate Smooth(k: pos, p: seq<Bucket<Freq>>, i: nat)
    requires i + 1 < |p|
    decreases i
  {
    var q := if Light(k, p, i) then JoinAt(OPS, p, i) else p;
    && (Light(k, p, i) ==> !Light(k, q, i))
    && (i == 0 || Smooth(k, q, i - 1))
  }

  ghost predicate PassSmooth(k: pos, p: seq<Bucket<Freq>>) {
    |p| < 2 || Smooth(k, p, |p| - 2)
  }

  // Buckets hold consecutive updates, so the sizes of the suffixes of a histogram tell where one
  // bucket ends and the next begins.

  ghost predicate Proper(p: seq<Bucket<Freq>>) {
    forall i :: 0 <= i < |p| ==> p[i].size >= 1
  }

  ghost function SizeFrom(p: seq<Bucket<Freq>>, i: nat): nat
    decreases |p| - i
  {
    if i >= |p| then 0 else p[i].size + SizeFrom(p, i + 1)
  }

  /** Some bucket boundary has exactly `n` items after it. */
  ghost predicate Cut(p: seq<Bucket<Freq>>, n: nat) {
    exists j: nat :: j <= |p| && SizeFrom(p, j) == n
  }

  lemma {:induction false} SizeFromJoin(p: seq<Bucket<Freq>>, i: nat, j: nat)
    requires i + 1 < |p|
    ensures SizeFrom(JoinAt(OPS, p, i), j) == SizeFrom(p, if j <= i then j else j + 1)
    decreases |p| - j
  {
    hide OPS;
    var q := JoinAt(OPS, p, i);
    if j < |q| {
      SizeFromJoin(p, i, j + 1);
      assert j == i ==> SizeFrom(p, i) == p[i].size + (p[i + 1].size + SizeFrom(p, i + 2));
    }
  }

  lemma {:induction false} SizeFromFalls(p: seq<Bucket<Freq>>, a: nat, b: nat)
    requires Proper(p) && a < b <= |p|
    ensures SizeFrom(p, a) > SizeFrom(p, b)
    decreases |p| - a
  {
    if a + 1 < b {
      SizeFromFalls(p, a + 1, b);
    }
  }

  /** A merge keeps every boundary but its own. */
  lemma {:induction false} JoinCuts(p: seq<Bucket<Freq>>, i: nat, n: nat)
    requires i + 1 < |p|
    ensures Cut(JoinAt(OPS, p, i), n) ==> Cut(p, n)
    ensures Proper(p) ==> Proper(JoinAt(OPS, p, i)) && !Cut(JoinAt(OPS, p, i), SizeFrom(p, i + 1))
  {
    hide SizeFrom;
    var q := JoinAt(OPS, p, i);
    forall j: nat | j <= |q|
      ensures var m := if j <= i then j else j + 1;
              m <= |p| && SizeFrom(q, j) == SizeFrom(p, m) && (Proper(p) ==> SizeFrom(q, j) != SizeFrom(p, i + 1))
    {
      var m := if j <= i then j else j + 1;
      SizeFromJoin(p, i, j);
      if Proper(p) {
        if m < i + 1 {
          SizeFromFalls(p, m, i + 1);
        } else {
          SizeFromFalls(p, i + 1, m);
        }
      }
    }
  }

  /** The fixpoint has no boundary that its start does not have. */
  lemma {:induction false} FixpointCuts(k: pos, p: seq<Bucket<Freq>>, n: nat)
    requires Cut(L2Fixpoint(OPS, k, p), n)
    ensures Cut(p, n)
    decreases |p|
  {
    hide Cut, OPS, Light;
    if i: nat :| NewestLight(k, p, i) {
      NewestInRange(k, p, i);
      FixpointStep(OPS, k, p, i);
      FixpointCuts(k, JoinAt(OPS, p, i), n);
      JoinCuts(p, i, n);
    }
  }

  lemma {:induction false} NewestInRange(k: pos, p: seq<Bucket<Freq>>, i: nat)
    requires NewestLight(k, p, i)
    ensures i + 1 < |p|
  {
    hide MassFrom;
  }

  /** The pass never touches a boundary that is newer than the pair it has come to. */
  lemma {:induction false} PassKeepsCut(k: pos, p: seq<Bucket<Freq>>, i: nat, m: nat)
    requires i + 2 <= m <= |p|
    ensures Cut(PassFrom(k, p, i), SizeFrom(p, m))
    decreases i
  {
    hide Light, OPS;
    var q := if Light(k, p, i) then JoinAt(OPS, p, i) else p;
    var m1 := if Light(k, p, i) then m - 1 else m;
    if Light(k, p, i) {
      SizeFromJoin(p, i, m - 1);
    }
    assert SizeFrom(q, m1) == SizeFrom(p, m);
    if i > 0 {
      PassKeepsCut(k, q, i - 1, m1);
    }
  }

  /** A merge that leaves a light pair behind it sets the pass apart from the fixpoint for good. */
  lemma {:induction false} RoughDiffers(k: pos, q: seq<Bucket<Freq>>, i: nat)
    requires i + 1 < |q| && Proper(q) && NewestLight(k, q, i)
    ensures (if i == 0 then q else PassFrom(k, q, i - 1)) != L2Fixpoint(OPS, k, q)
  {
    hide PassFrom, Light, SizeFrom, OPS, Proper;
    var n := SizeFrom(q, i + 1);
    FixpointStep(OPS, k, q, i);
    JoinCuts(q, i, n);
    if Cut(L2Fixpoint(OPS, k, q), n) {
      FixpointCuts(k, JoinAt(OPS, q, i), n);
    }
    if i > 0 {
      PassKeepsCut(k, q, i - 1, i + 1);
    } else {
      assert Cut(q, n);
    }
  }

  /** From where the scan has come: it reaches the fixpoint exactly if it stays smooth. */
  lemma {:induction false} PassFromIff(k: pos, p: seq<Bucket<Freq>>, i: nat)
    requires i + 1 < |p| && SettledFrom(k, p, i + 1)
    ensures Smooth(k, p, i) ==> PassFrom(k, p, i) == L2Fixpoint(OPS, k, p)
    ensures Proper(p) && PassFrom(k, p, i) == L2Fixpoint(OPS, k, p) ==> Smooth(k, p, i)
    decreases i
  {
    hide Light, OPS, Proper, L2Fixpoint;
    var q := if Light(k, p, i) then JoinAt(OPS, p, i) else p;
    if Light(k, p, i) {
      FixpointStep(OPS, k, p, i);
      JoinSettledAbove(OPS, k, p, i);
      JoinCuts(p, i, 0);
    }
    if Light(k, p, i) && Light(k, q, i) {
      NewestInRange(k, q, i);
      if Proper(p) {
        RoughDiffers(k, q, i);
      }
    } else if i == 0 {
      FixpointDone(OPS, k, q);
    } else {
      PassFromIff(k, q, i - 1);
    }
  }

  /** Main result: one backward pass ends where starting over after every merge would end if it is
      smooth, and, between buckets none of which is empty, only if. */
  lemma {:induction false} OnePassIff(k: pos, p: seq<Bucket<Freq>>)
    ensures PassSmooth(k, p) ==> OnePass(k, p) == L2Fixpoint(OPS, k, p)
    ensures Proper(p) ==> (OnePass(k, p) == L2Fixpoint(OPS, k, p) <==> PassSmooth(k, p))
  {
    hide L2Fixpoint, PassFrom, Smooth, Proper;
    if |p| < 2 {
      FixpointDone(OPS, k, p);
    } else {
      PassFromIff(k, p, |p| - 2);
    }
  }

  lemma {:induction false} NonNegativeIsSmooth(k: pos, p: seq<Bucket<Freq>>, i: nat)
    requires i + 1 < |p| && AllNonNegative(p) && SettledFrom(k, p, i + 1)
    ensures Smooth(k, p, i) && AllNonNegative(PassFrom(k, p, i))
    decreases i
  {
    hide AllNonNegative, MapMass, Join;
    if Light(k, p, i) {
      JoinAtNonNegative(p, i);
      JoinKeepsSettled(OPS, k, p, i);
    }
    if i > 0 {
      NonNegativeIsSmooth(k, if Light(k, p, i) then JoinAt(OPS, p, i) else p, i - 1);
    }
  }

  /** Without negative frequencies the pass is smooth, so that it always reaches the fixpoint. */
  lemma {:induction false} OnePassIsFixpoint(k: pos, p: seq<Bucket<Freq>>)
    requires AllNonNegative(p)
    ensures OnePass(k, p) == L2Fixpoint(OPS, k, p) && AllNonNegative(OnePass(k, p))
  {
    hide AllNonNegative, L2Fixpoint;
    OnePassIff(k, p);
    if |p| >= 2 {
      NonNegativeIsSmooth(k, p, |p| - 2);
    }
  }

  lemma {:induction false} PassFromNonEmpty(k: pos, p: seq<Bucket<Freq>>, i: nat)
    requires i + 1 < |p|
    ensures PassFrom(k, p, i) != []
    decreases i
  {
    hide Light;
    if i > 0 {
      PassFromNonEmpty(k, if Light(k, p, i) then JoinAt(OPS, p, i) else p, i - 1);
    }
  }

  lemma {:induction false} PassNonEmpty(k: pos, p: seq<Bucket<Freq>>)
    requires p != []
    ensures OnePass(k, p) != []
  {
    if |p| >= 2 {
      PassFromNonEmpty(k, p, |p| - 2);
    }
  }

  // ---------------------------------------------------------------- what the buckets hold

  /** How often `x` occurs in all buckets together. */
  ghost function Held(p: seq<Bucket<Freq>>, x: int): int {
    if p == [] then 0 else At(p[0].sketch, x) + Held(p[1..], x)
  }

  lemma {:induction false} HeldAppend(p: seq<Bucket<Freq>>, q: seq<Bucket<Freq>>, x: int)
    ensures Held(p + q, x) == Held(p, x) + Held(q, x)
  {
    if p == [] {
      assert p + q == q;
    } else {
      HeldAppend(p[1..], q, x);
      assert (p + q)[1..] == p[1..] + q;
    }
  }

  lemma {:induction false} JoinAtHolds(k: pos, p: seq<Bucket<Freq>>, i: nat, x: int)
    requires i + 1 < |p|
    ensures Held(JoinAt(OPS, p, i), x) == Held(p, x)
    decreases i
  {
    var q := JoinAt(OPS, p, i);
    if i == 0 {
      assert q[1..] == p[1..][1..];
      assert At(q[0].sketch, x) == At(p[0].sketch, x) + At(p[1].sketch, x);
    } else {
      JoinAtHolds(k, p[1..], i - 1, x);
      assert q[1..] == JoinAt(OPS, p[1..], i - 1);
    }
  }

  /** Merging never changes how often a key is held, whatever the signs of the frequencies. */
  lemma {:induction false} PassHolds(k: pos, p: seq<Bucket<Freq>>, i: nat, x: int)
    requires i + 1 < |p|
    ensures Held(PassFrom(k, p, i), x) == Held(p, x)
    decreases i
  {
    hide Held, Light;
    if Light(k, p, i) {
      JoinAtHolds(k, p, i, x);
    }
    if i > 0 {
      PassHolds(k, if Light(k, p, i) then JoinAt(OPS, p, i) else p, i - 1, x);
    }
  }

  /** How much all buckets together have counted. */
  ghost function SizeOf(p: seq<Bucket<Freq>>): nat {
    SizeFrom(p, 0)
  }

  lemma {:induction false} SizeFromAppend(p: seq<Bucket<Freq>>, b: Bucket<Freq>, i: nat)
    requires i <= |p|
    ensures SizeFrom(p + [b], i) == SizeFrom(p, i) + b.size
    decreases |p| - i
  {
    if i < |p| {
      SizeFromAppend(p, b, i + 1);
    } else {
      assert SizeFrom(p + [b], i + 1) == 0;
    }
  }

  lemma {:induction false} PassKeepsSize(k: pos, p: seq<Bucket<Freq>>, i: nat)
    requires i + 1 < |p|
    ensures SizeOf(PassFrom(k, p, i)) == SizeOf(p)
    decreases i
  {
    hide Light, SizeFrom;
    var q := if Light(k, p, i) then JoinAt(OPS, p, i) else p;
    if Light(k, p, i) {
      SizeFromJoin(p, i, 0);
    }
    if i > 0 {
      PassKeepsSize(k, q, i - 1);
    }
  }

  /** The recorded sizes add up to the values of the updates, as long as these are not negative. */
  lemma {:induction false} UpdateKeepsSize(k: pos, live: seq<Bucket<Freq>>, time: nat, key: int, value: int)
    requires -0x8000_0000_0000_0000 <= value
    ensures value >= 0 ==> SizeOf(OnePass(k, live + [Single(time, key, value)])) == SizeOf(live) + value
    ensures Single(time, key, value).minTime == Single(time, key, value).maxTime == time
  {
    hide SizeFrom;
    var q := live + [Single(time, key, value)];
    SizeFromAppend(live, Single(time, key, value), 0);
    if |q| >= 2 {
      PassKeepsSize(k, q, |q| - 2);
    }
  }

  /** How many of the oldest buckets ended before `cutoff`. */
  ghost function ExpiredPrefix(p: seq<Bucket<Freq>>, cutoff: nat): (n: nat)
    ensures n <= |p| && (n < |p| ==> p[n].maxTime >= cutoff)
    ensures forall i :: 0 <= i < n ==> p[i].maxTime < cutoff
  {
    if p == [] || p[0].maxTime >= cutoff then 0 else 1 + ExpiredPrefix(p[1..], cutoff)
  }

  /** A signed 64-bit value cast to an unsigned one. */
  function ToUnsigned(value: int): nat
    requires -0x8000_0000_0000_0000 <= value
  {
    if value < 0 then value + 0x1_0000_0000_0000_0000 else value
  }

  /** The bucket of one update. */
  function Single(time: nat, key: int, value: int): Bucket<Freq>
    requires -0x8000_0000_0000_0000 <= value
  {
    Bucket(map[key := value], ToUnsigned(value), (value * value) as real, time, time)
  }

  lemma {:induction false} SingleMass(time: nat, key: int, value: int)
    requires -0x8000_0000_0000_0000 <= value
    ensures Single(time, key, value).l2 == MapMass(Single(time, key, value).sketch)
  {
    var m := Single(time, key, value).sketch;
    assert m.Keys == {key};
    SquaresRemove(m.Keys, m, key);
    assert m.Keys - {key} == {};
  }

  /** The buckets an update merges: the live ones and its own. */
  ghost function Refreshed(p: seq<Bucket<Freq>>, cutoff: nat, newest: Bucket<Freq>): seq<Bucket<Freq>> {
    p[ExpiredPrefix(p, cutoff)..] + [newest]
  }

  /** An update drops only buckets that have wholly expired, and every other occurrence is held
      afterwards. */
  lemma {:induction false} UpdateHolds(k: pos, p: seq<Bucket<Freq>>, cutoff: nat, newest: Bucket<Freq>, x: int)
    ensures Held(OnePass(k, Refreshed(p, cutoff, newest)), x)
         == Held(p[ExpiredPrefix(p, cutoff)..], x) + At(newest.sketch, x)
    ensures forall i :: 0 <= i < ExpiredPrefix(p, cutoff) ==> p[i].maxTime < cutoff
  {
    var live := p[ExpiredPrefix(p, cutoff)..];
    var q := live + [newest];
    HeldAppend(live, [newest], x);
    assert Held([newest], x) == At(newest.sketch, x) + Held([newest][1..], x);
    if |q| >= 2 {
      PassHolds(k, q, |q| - 2, x);
    }
  }

  lemma {:induction false} RefreshedNonNegative(p: seq<Bucket<Freq>>, cutoff: nat, time: nat, key: int, value: int)
    requires AllNonNegative(p) && value >= 0
    ensures AllNonNegative(Refreshed(p, cutoff, Single(time, key, value)))
  {
    SingleMass(time, key, value);
  }

  // ---------------------------------------------------------------- with negative frequencies

  /** The merged bucket of two updates that cancel weighs nothing. */
  lemma {:induction false} CancelledMass(a: Freq, b: Freq, key: int)
    requires a.Keys == {key} && b.Keys == {key} && a[key] + b[key] == 0
    ensures MapMass(AddFreq(a, b)) == 0.0
  {
    var m := AddFreq(a, b);
    assert m.Keys == {key};
    SquaresRemove(m.Keys, m, key);
    assert m.Keys - {key} == {};
  }

  const CANCELLING_LIMIT: int := 0x8000_0000_0000_0000

  /** The updates of the example: `k` and `-k` on one key, then `k` on a new key each time. */
  function CancellingKey(n: nat): int {
    if n < 2 then 0 else n
  }

  function CancellingValue(k: pos, n: nat): int {
    var v: int := k;
    if n == 1 then -v else v
  }

  /** One bucket per update, for the first `n` updates. */
  ghost function Cancelling(k: pos, n: nat): (p: seq<Bucket<Freq>>)
    requires k < CANCELLING_LIMIT
    ensures |p| == n && forall j :: 0 <= j < n ==> p[j] == Single(0, CancellingKey(j), CancellingValue(k, j))
  {
    seq(n, j requires 0 <= j < n => Single(0, CancellingKey(j), CancellingValue(k, j)))
  }

  lemma {:induction false} CancellingSnoc(k: pos, n: nat)
    requires k < CANCELLING_LIMIT
    ensures Cancelling(k, n) + [Single(0, CancellingKey(n), CancellingValue(k, n))] == Cancelling(k, n + 1)
  {
    hide Single, CancellingKey, CancellingValue;
  }

  function Product(x: real, y: real): real {
    x * y
  }

  lemma ProductNext(n: nat, m: real)
    ensures Product((n + 1) as real, m) == Product(n as real, m) + m && Product(0.0, m) == 0.0
  {
  }

  /** Buckets of equal mass. */
  lemma {:induction false} MassUniform(p: seq<Bucket<Freq>>, i: nat, m: real)
    requires i <= |p| && forall j :: i <= j < |p| ==> p[j].l2 == m
    ensures MassFrom(p, i) == Product((|p| - i) as real, m)
    decreases |p| - i
  {
    hide Product;
    if i < |p| {
      MassUniform(p, i + 1, m);
      ProductNext(|p| - (i + 1), m);
    } else {
      ProductNext(0, m);
    }
  }

  lemma Quotient(n: real, k: real)
    requires k > 0.0
    ensures Product(n, k * k) / k == n * k
  {
    assert Product(n, k * k) == (n * k) * k;
  }

  lemma Expand(x: real)
    ensures (2.0 * x - 1.0) * x == x * x + x * x - x && 2.0 * x * x == x * x + x * x
  {
  }

  lemma {:induction false} Ranges(k: pos, n: nat)
    ensures n <= 2 * k - 1 ==> k as real * k as real + k as real * k as real > n as real * k as real + MASS_EPSILON
    ensures n == 2 * k ==> k as real * k as real + k as real * k as real <= n as real * k as real + MASS_EPSILON
    ensures n == 2 * k - 1 ==> k as real * k as real <= n as real * k as real + MASS_EPSILON
  {
    var x, y := k as real, n as real;
    Expand(x);
    if n < 2 * k {
      AtMostTimes(y, 2.0 * x - 1.0, x);
      if n == 2 * k - 1 {
        assert y == 2.0 * x - 1.0;
        AtMostTimes(1.0, x, x);
        assert y * x == (2.0 * x - 1.0) * x;
        assert x * x >= x;
      }
    } else if n == 2 * k {
      assert y == 2.0 * x;
    }
  }

  lemma AtMostTimes(x: real, y: real, z: real)
    requires x <= y && z >= 0.0
    ensures x * z <= y * z
  {
  }

  /** Among buckets of mass `k * k` a pair is light exactly if `2 * k` buckets are newer. */
  lemma {:induction false} LightAmongEqual(k: pos, p: seq<Bucket<Freq>>, i: nat)
    requires i + 1 < |p| <= 2 * k + 2 && forall j :: 0 <= j < |p| ==> p[j].l2 == k as real * k as real
    ensures Light(k, p, i) <==> |p| - i - 2 == 2 * k
  {
    var n: nat := |p| - (i + 2);
    MassUniform(p, i + 2, k as real * k as real);
    Quotient(n as real, k as real);
    Ranges(k, n);
    hide Product, MassFrom;
  }

  lemma CancellingMass(k: pos, n: nat)
    requires k < CANCELLING_LIMIT
    ensures forall j :: 0 <= j < n ==> Cancelling(k, n)[j].l2 == k as real * k as real
  {
  }

  lemma {:induction false} PassSkips(k: pos, p: seq<Bucket<Freq>>, i: nat)
    requires i + 1 < |p| && forall j: nat :: 0 < j <= i ==> !Light(k, p, j)
    ensures PassFrom(k, p, i) == PassFrom(k, p, 0)
    decreases i
  {
    hide Light;
    if i > 0 {
      PassSkips(k, p, i - 1);
    }
  }

  /** Up to the last update nothing is merged; then the two that cancel are, and nothing else. */
  lemma {:induction false} CancellingPass(k: pos, n: nat)
    requires k < CANCELLING_LIMIT && n <= 2 * k + 2
    ensures var p := Cancelling(k, n);
            OnePass(k, p) == if n == 2 * k + 2 then JoinAt(OPS, p, 0) else p
    ensures n == 2 * k + 2 ==> Light(k, Cancelling(k, n), 0)
  {
    hide Light, OPS, Cancelling;
    var p := Cancelling(k, n);
    CancellingMass(k, n);
    forall j: nat | j + 1 < n ensures Light(k, p, j) <==> j == 0 && n == 2 * k + 2 {
      LightAmongEqual(k, p, j);
    }
    if n >= 2 {
      PassSkips(k, p, n - 2);
    }
  }

  /** For every `k`: the merge of the two updates that cancel loses all their mass, and the pass does
      not come back to the newer pair that this makes light. */
  lemma {:induction false} NegativeFrequencyLeavesLightPair(k: pos)
    requires k < CANCELLING_LIMIT
    ensures var p := Cancelling(k, 2 * k + 2);
            Light(k, OnePass(k, p), 0) && OnePass(k, p) != L2Fixpoint(OPS, k, p)
  {
    hide L2Fixpoint, OnePass, Cancelling, OPS, Light;
    var p := Cancelling(k, 2 * k + 2);
    CancellingPass(k, 2 * k + 2);
    CancelledPairIsLight(k);
    assert Settled(k, L2Fixpoint(OPS, k, p));
  }

  /** The merged pair of updates that cancel. */
  lemma {:induction false} CancelledBucket(k: pos, a: Bucket<Freq>, b: Bucket<Freq>)
    requires k < CANCELLING_LIMIT
    requires a == Single(0, CancellingKey(0), CancellingValue(k, 0))
             && b == Single(0, CancellingKey(1), CancellingValue(k, 1))
    ensures Join(OPS, a, b).l2 == 0.0
  {
    hide MapMass, AddFreq;
    CancelledMass(a.sketch, b.sketch, 0);
  }

  lemma {:induction false} WeightlessIsLight(k: pos, q: seq<Bucket<Freq>>)
    requires |q| == 2 * k + 1 && q[0].l2 == 0.0 && forall j :: 1 <= j < |q| ==> q[j].l2 == k as real * k as real
    ensures Light(k, q, 0)
  {
    var n: nat := |q| - 2;
    MassUniform(q, 2, k as real * k as real);
    Quotient(n as real, k as real);
    Ranges(k, n);
    hide Product, MassFrom;
    assert q[1].l2 == k as real * k as real;
  }

  lemma {:induction false} CancelledPairIsLight(k: pos)
    requires k < CANCELLING_LIMIT
    ensures Light(k, JoinAt(OPS, Cancelling(k, 2 * k + 2), 0), 0)
  {
    hide Cancelling, Light, Single, OPS;
    var p := Cancelling(k, 2 * k + 2);
    CancellingMass(k, 2 * k + 2);
    CancelledBucket(k, p[0], p[1]);
    WeightlessIsLight(k, JoinAt(OPS, p, 0));
  }

  class MapTier {
    const k: pos
    const window: nat
    const maxMapSize: nat
    var buckets: seq<Bucket<Freq>>

    constructor (k: nat, window: nat, maxMapSize: nat)
      ensures buckets == [] && this.window == window && this.k == (if k < 1 then 1 else k)
      ensures this.maxMapSize == maxMapSize
    {
      this.k := if k < 1 then 1 else k;
      this.window := window;
      this.maxMapSize := maxMapSize;
      buckets := [];
    }

    /** Joins a bucket to its older neighbour. */
    method MergeAt(i: nat)
      requires i + 1 < |buckets|
      modifies this`buckets
      ensures buckets == JoinAt(OPS, old(buckets), i)
    {
      var other, mine := buckets[i + 1], buckets[i];
      var m := MergeMaps(mine.sketch, other.sketch);
      var l22 := CalcMapL22(m);
      var joined := Bucket(m, mine.size + other.size, l22,
                           Min(mine.minTime, other.minTime), Max(mine.maxTime, other.maxTime));
      buckets := buckets[..i] + [joined] + buckets[i + 2..];
    }

    /** The single backward pass; returns the mass of all buckets but the oldest. */
    method MergePass() returns (sumL22: real)
      modifies this`buckets
      ensures buckets == OnePass(k, old(buckets)) && sumL22 == MassFrom(buckets, 1)
    {
      hide Join, OPS;
      ghost var start := buckets;
      sumL22 := 0.0;
      if |buckets| >= 2 {
        var i := |buckets| - 2;
        while true
          invariant 0 <= i && i + 1 < |buckets| && sumL22 == MassFrom(buckets, i + 2)
          invariant PassFrom(k, buckets, i) == OnePass(k, start)
          decreases i
        {
          ghost var was := buckets;
          if buckets[i].l2 + buckets[i + 1].l2 <= sumL22 / k as real + MASS_EPSILON {
            MergeAt(i);
            assert buckets[i + 1..] == was[i + 2..];
            MassFromShift(buckets, was, i + 1, i + 2);
          } else {
            sumL22 := sumL22 + buckets[i + 1].l2;
          }
          if i == 0 {
            break;
          }
          i := i - 1;
        }
      }
    }

    method CountExpired(cutoff: nat) returns (expired: nat)
      ensures expired == ExpiredPrefix(buckets, cutoff)
    {
      expired := 0;
      while expired < |buckets| && buckets[expired].maxTime < cutoff
        invariant expired <= |buckets|
        invariant expired + ExpiredPrefix(buckets[expired..], cutoff) == ExpiredPrefix(buckets, cutoff)
      {
        assert buckets[expired..][1..] == buckets[expired + 1..];
        expired := expired + 1;
      }
    }

    /** One update. `promoted` holds the oldest bucket if it has grown too large and left for the
        sketch tier. */
    method Update(time: nat, key: int, value: int) returns (promoted: seq<Bucket<Freq>>)
      requires -0x8000_0000_0000_0000 <= value
      modifies this`buckets
      ensures var cutoff := ExponentialHistogram.Cutoff(time, window);
              promoted + buckets == OnePass(k, Refreshed(old(buckets), cutoff, Single(time, key, value)))
      ensures exists n: nat :: Expires(old(buckets), n, time, window)
                          && promoted + buckets == OnePass(k, old(buckets)[n..] + [Single(time, key, value)])
      ensures promoted == [] ==> buckets != [] && 2 * |buckets[0].sketch| < maxMapSize
      ensures promoted != [] ==> |promoted| == 1 && 2 * |promoted[0].sketch| >= maxMapSize
      ensures AllNonNegative(old(buckets)) && value >= 0 ==>
                Settled(k, promoted + buckets) && AllNonNegative(promoted + buckets)
    {
      hide Settled, OPS, MapMass, Single, NonNegative;
      ghost var before := buckets;
      var cutoff := ExponentialHistogram.Cutoff(time, window);
      var expired := CountExpired(cutoff);
      assert Expires(before, expired, time, window);
      buckets := buckets[expired..];
      buckets := buckets + [Single(time, key, value)];
      ghost var merging := buckets;
      var sumL22 := MergePass();
      if AllNonNegative(before) && value >= 0 {
        RefreshedNonNegative(before, cutoff, time, key, value);
        OnePassIsFixpoint(k, merging);
      }
      promoted := [];
      PassNonEmpty(k, merging);
      if buckets != [] && 2 * |buckets[0].sketch| >= maxMapSize {
        promoted := [buckets[0]];
        buckets := buckets[1..];
      }
    }
  }

  lemma {:induction false} NothingExpires(p: seq<Bucket<Freq>>, cutoff: nat, newest: Bucket<Freq>)
    requires cutoff == 0
    ensures Refreshed(p, cutoff, newest) == p + [newest]
  {
    assert ExpiredPrefix(p, cutoff) == 0;
    assert p[0..] == p;
  }

  lemma {:induction false} OldestIsSmall(k: pos, n: nat)
    requires k < CANCELLING_LIMIT && 1 <= n <= 2 * k + 2
    ensures var q := OnePass(k, Cancelling(k, n)); q != [] && |q[0].sketch| == 1
  {
    hide OnePass, Light;
    CancellingPass(k, n);
    var p := Cancelling(k, n);
    assert p[0].sketch == map[0 := CancellingValue(k, 0)];
    if n == 2 * k + 2 {
      var m := AddFreq(p[0].sketch, p[1].sketch);
      assert p[1].sketch == map[0 := CancellingValue(k, 1)];
      assert m.Keys == {0} && |m| == |m.Keys|;
    }
  }

  /** The same through the updates of an empty tier, whatever its window. */
  method CancellingRun(k: pos, window: nat, maxMapSize: nat) returns (t: MapTier)
    requires k < CANCELLING_LIMIT && maxMapSize > 2
    ensures fresh(t) && t.k == k && t.buckets == OnePass(k, Cancelling(k, 2 * k + 2))
    ensures Light(k, t.buckets, 0) && t.buckets != L2Fixpoint(OPS, k, Cancelling(k, 2 * k + 2))
  {
    hide Light, OPS, Cancelling, OnePass, Refreshed, Single, L2Fixpoint, AllNonNegative, Settled;
    t := new MapTier(k, window, maxMapSize);
    var n: nat := 0;
    assert t.buckets == Cancelling(k, 0);
    CancellingPass(k, 0);
    while n < 2 * k + 2
      invariant n <= 2 * k + 2 && fresh(t) && t.k == k && t.window == window && t.maxMapSize == maxMapSize
      invariant t.buckets == OnePass(k, Cancelling(k, n))
    {
      CancellingPass(k, n);
      CancellingPass(k, n + 1);
      CancellingSnoc(k, n);
      OldestIsSmall(k, n + 1);
      NothingExpires(t.buckets, 0, Single(0, CancellingKey(n), CancellingValue(k, n)));
      var promoted := t.Update(0, CancellingKey(n), CancellingValue(k, n));
      assert promoted + t.buckets == OnePass(k, Cancelling(k, n + 1));
      n := n + 1;
    }
    NegativeFrequencyLeavesLightPair(k);
  }
}
