/** Pool-adjacent-violators: makes estimated ranks nondecreasing by averaging neighbouring blocks
    that are out of order, and clamps them to [0, 1]. Ranks are real numbers. */
module Isotonic {

  datatype Point = Point(x: int, rank: real)

  datatype Block = Block(start: nat, end: nat, sum: real, count: nat)

  type Reals = seq<real>

  function Mean(b: Block): real
    requires b.count > 0
  {
    b.sum / b.count as real
  }

  function Clamp(x: real): (r: real)
    ensures 0.0 <= r <= 1.0
  {
    if x < 0.0 then 0.0 else if x > 1.0 then 1.0 else x
  }

  function Ranks(points: seq<Point>): (y: Reals)
    ensures |y| == |points| && forall i :: 0 <= i < |y| ==> y[i] == points[i].rank
  {
    seq(|points|, i requires 0 <= i < |points| => points[i].rank)
  }

  // ---------------------------------------------------------------- what a fit should be

  ghost predicate Monotone(z: Reals) {
    forall i, j :: 0 <= i <= j < |z| ==> z[i] <= z[j]
  }

  ghost predicate InUnit(z: Reals) {
    forall i :: 0 <= i < |z| ==> 0.0 <= z[i] <= 1.0
  }

  function Square(x: real): real {
    x * x
  }

  /** A product; a function of its own so that proofs can treat it abstractly. */
  function Times(x: real, y: real): real {
    x * y
  }

  lemma TimesMonotone(x: real, y: real, n: real)
    requires x <= y && n >= 0.0
    ensures Times(x, n) <= Times(y, n) && (x < y && n > 0.0 ==> Times(x, n) < Times(y, n))
  {
  }

  lemma TimesDistributes(x: real, a: real, b: real)
    ensures Times(x, a + b) == Times(x, a) + Times(x, b)
  {
  }

  lemma {:induction false} SquarePositive(x: real)
    ensures Square(x) >= 0.0 && (Square(x) == 0.0 <==> x == 0.0)
  {
    if x >= 0.0 {
      TimesMonotone(0.0, x, x);
    } else {
      TimesMonotone(0.0, -x, -x);
    }
  }

  /** Squared distance of the first `n` entries. */
  ghost function Distance(z: Reals, y: Reals, n: nat): (d: real)
    requires n <= |z| && n <= |y|
    ensures d >= 0.0
  {
    if n == 0 then 0.0
    else
      SquarePositive(z[n - 1] - y[n - 1]);
      Distance(z, y, n - 1) + Square(z[n - 1] - y[n - 1])
  }

  /** No admissible sequence is closer to `y` than `f`: any other is further off by at least its
      distance from `f`. */
  ghost predicate Closer(y: Reals, f: Reals, z: Reals)
    requires |z| == |y| == |f|
  {
    Distance(z, y, |y|) >= Distance(f, y, |y|) + Distance(z, f, |y|)
  }

  ghost predicate ClosestMonotone(y: Reals, f: Reals)
    requires |f| == |y|
  {
    forall z | |z| == |y| && Monotone(z) :: Closer(y, f, z)
  }

  ghost predicate ClosestInUnit(y: Reals, f: Reals)
    requires |f| == |y|
  {
    forall z | |z| == |y| && Monotone(z) && InUnit(z) :: Closer(y, f, z)
  }

  lemma {:induction false} DistanceZero(z: Reals, y: Reals, n: nat)
    requires n <= |z| && n <= |y|
    ensures Distance(z, y, n) == 0.0 <==> z[..n] == y[..n]
  {
    hide Square;
    if n > 0 {
      DistanceZero(z, y, n - 1);
      SquarePositive(z[n - 1] - y[n - 1]);
      assert z[..n] == z[..n - 1] + [z[n - 1]] && y[..n] == y[..n - 1] + [y[n - 1]];
      if z[..n] == y[..n] {
        assert z[..n - 1] == z[..n][..n - 1] == y[..n - 1];
        assert z[n - 1] == z[..n][n - 1] == y[n - 1];
      }
    }
  }

  /** Such a fit leaves an admissible sequence as it is. */
  lemma {:induction false} FitKeepsAdmissible(y: Reals, f: Reals)
    requires |f| == |y| && ClosestInUnit(y, f) && Monotone(y) && InUnit(y)
    ensures f == y
  {
    assert Closer(y, f, y);
    DistanceZero(y, y, |y|);
    DistanceZero(f, y, |y|);
    assert f[..|y|] == f && y[..|y|] == y;
  }

  /** There is only one such fit. */
  lemma {:induction false} FitIsUnique(y: Reals, f: Reals, g: Reals)
    requires |f| == |g| == |y| && ClosestInUnit(y, f) && ClosestInUnit(y, g)
    requires Monotone(f) && InUnit(f) && Monotone(g) && InUnit(g)
    ensures f == g
  {
    assert Closer(y, f, g) && Closer(y, g, f);
    DistanceZero(g, f, |y|);
    assert f[..|y|] == f && g[..|y|] == g;
  }

  // ---------------------------------------------------------------- blocks

  ghost function Sum(y: Reals, a: nat, b: nat): real
    requires b <= |y|
  {
    if a >= b then 0.0 else Sum(y, a, b - 1) + y[b - 1]
  }

  /** The mean of the entries from `a` to `b` is at least `m`. */
  ghost predicate Heavy(y: Reals, a: nat, b: nat, m: real)
    requires a <= b <= |y|
  {
    Sum(y, a, b) >= Times(m, (b - a) as real)
  }

  /** A block with its sum, none of whose prefixes has a mean below that of the block. */
  ghost predicate Pooled(y: Reals, b: Block) {
    && b.start < b.end <= |y| && b.count == b.end - b.start && b.sum == Sum(y, b.start, b.end)
    && forall j :: b.start <= j <= b.end ==> Heavy(y, b.start, j, Mean(b))
  }

  function Joined(left: Block, right: Block): Block {
    Block(left.start, right.end, left.sum + right.sum, left.count + right.count)
  }

  lemma {:induction false} SumSplit(y: Reals, a: nat, b: nat, c: nat)
    requires a <= b <= c <= |y|
    ensures Sum(y, a, c) == Sum(y, a, b) + Sum(y, b, c)
    decreases c
  {
    if b < c {
      SumSplit(y, a, b, c - 1);
    }
  }

  lemma MeanTimesCount(b: Block)
    requires b.count > 0
    ensures Times(Mean(b), b.count as real) == b.sum
  {
  }

  /** The mean of a join lies between the means of its parts. */
  lemma {:induction false} JoinedMean(left: Block, right: Block)
    requires left.count > 0 && right.count > 0 && Mean(left) > Mean(right)
    ensures Mean(right) <= Mean(Joined(left, right)) <= Mean(left)
  {
    MeanTimesCount(left);
    MeanTimesCount(right);
    MeanTimesCount(Joined(left, right));
    hide Times, Mean;
    assert (left.count + right.count) as real == left.count as real + right.count as real;
    MeanBetween(Mean(Joined(left, right)), Mean(left), Mean(right), left.count as real, right.count as real);
  }

  lemma {:induction false} MeanBetween(m: real, ml: real, mr: real, cl: real, cr: real)
    requires mr <= ml && cl > 0.0 && cr > 0.0 && Times(m, cl + cr) == Times(ml, cl) + Times(mr, cr)
    ensures mr <= m <= ml
  {
    hide Times;
    TimesMonotone(mr, ml, cl);
    TimesMonotone(mr, ml, cr);
    TimesDistributes(ml, cl, cr);
    TimesDistributes(mr, cl, cr);
    if m > ml {
      TimesMonotone(ml, m, cl + cr);
    }
    if m < mr {
      TimesMonotone(m, mr, cl + cr);
    }
  }

  /** Joining two neighbours that are out of order pools them. */
  lemma {:induction false} JoinPools(y: Reals, left: Block, right: Block)
    requires Pooled(y, left) && Pooled(y, right) && left.end == right.start && Mean(left) > Mean(right)
    ensures Pooled(y, Joined(left, right))
  {
    var b := Joined(left, right);
    JoinedMean(left, right);
    SumSplit(y, b.start, left.end, b.end);
    forall j | b.start <= j <= b.end ensures Heavy(y, b.start, j, Mean(b)) {
      if j <= left.end {
        LeftPrefix(y, left, j, Mean(b));
      } else {
        RightPrefix(y, left, right, j);
      }
    }
  }

  lemma {:induction false} LeftPrefix(y: Reals, left: Block, j: nat, m: real)
    requires Pooled(y, left) && left.start <= j <= left.end && m <= Mean(left)
    ensures Heavy(y, left.start, j, m)
  {
    assert Heavy(y, left.start, j, Mean(left));
    TimesMonotone(m, Mean(left), (j - left.start) as real);
  }

  lemma {:induction false} RightPrefix(y: Reals, left: Block, right: Block, j: nat)
    requires Pooled(y, left) && Pooled(y, right) && left.end == right.start && right.start <= j <= right.end
    requires Mean(right) <= Mean(Joined(left, right))
    ensures Heavy(y, left.start, j, Mean(Joined(left, right)))
  {
    var m, mr, cl, t, cr := Mean(Joined(left, right)), Mean(right), left.count as real, (j - right.start) as real,
        right.count as real;
    assert Heavy(y, right.start, j, mr);
    SumSplit(y, left.start, left.end, j);
    MeanTimesCount(right);
    MeanTimesCount(Joined(left, right));
    hide Mean, Times;
    assert (left.count + right.count) as real == cl + cr;
    PrefixBound(m, mr, cl, t, cr, left.sum, right.sum);
    assert (j - left.start) as real == cl + t;
  }

  /** A prefix that ends in the right part is as heavy as the whole. */
  lemma {:induction false} PrefixBound(m: real, mr: real, cl: real, t: real, cr: real, sl: real, sr: real)
    requires mr <= m && 0.0 <= t <= cr && Times(m, cl + cr) == sl + sr && Times(mr, cr) == sr
    ensures sl + Times(mr, t) >= Times(m, cl + t)
  {
    hide Times;
    TimesMonotone(mr, m, cr - t);
    TimesDistributes(m, cl, cr);
    TimesDistributes(m, cl, t);
    TimesDistributes(m, t, cr - t);
    TimesDistributes(mr, t, cr - t);
    assert t + (cr - t) == cr;
  }

  // ---------------------------------------------------------------- why pooling is optimal

  /** What the fit `f` and the sequence `z` have in common, weighed by how far `f` is from `y`. */
  ghost function Gap(y: Reals, f: Reals, z: Reals, a: nat, b: nat): real
    requires b <= |y| && b <= |f| && b <= |z|
  {
    if a >= b then 0.0 else Gap(y, f, z, a, b - 1) + Times(f[b - 1] - z[b - 1], y[b - 1] - f[b - 1])
  }

  lemma {:induction false} GapSplit(y: Reals, f: Reals, z: Reals, a: nat, b: nat, c: nat)
    requires a <= b <= c && c <= |y| && c <= |f| && c <= |z|
    ensures Gap(y, f, z, a, c) == Gap(y, f, z, a, b) + Gap(y, f, z, b, c)
    decreases c
  {
    if b < c {
      GapSplit(y, f, z, a, b, c - 1);
    }
  }

  lemma SquareOfSum(z: real, y: real, f: real)
    ensures Square(z - y) == Square(f - y) + Square(z - f) + 2.0 * Times(f - z, y - f)
  {
  }

  lemma {:induction false} DistanceByGap(y: Reals, f: Reals, z: Reals, n: nat)
    requires n <= |y| && n <= |f| && n <= |z|
    ensures Distance(z, y, n) == Distance(f, y, n) + Distance(z, f, n) + 2.0 * Gap(y, f, z, 0, n)
  {
    hide Times, Square;
    if n > 0 {
      DistanceByGap(y, f, z, n - 1);
      SquareOfSum(z[n - 1], y[n - 1], f[n - 1]);
    }
  }

  /** Like `Gap` for a constant fit, with the deviations taken from `m`. */
  ghost function Lean(y: Reals, z: Reals, c: real, m: real, a: nat, b: nat): real
    requires b <= |y| && b <= |z|
  {
    if a >= b then 0.0 else Lean(y, z, c, m, a, b - 1) + Times(c - z[b - 1], y[b - 1] - m)
  }

  /** Summation by parts: heavy prefixes make the deviations lean against any monotone sequence. */
  lemma {:induction false} LeanBound(y: Reals, z: Reals, b: Block, c: real, j: nat)
    requires Pooled(y, b) && Monotone(z) && |z| == |y| && b.start < j <= b.end
    ensures Lean(y, z, c, Mean(b), b.start, j)
         >= Times(c - z[j - 1], Sum(y, b.start, j) - Times(Mean(b), (j - b.start) as real))
    decreases j
  {
    var m, n := Mean(b), (j - b.start) as real;
    hide Times, Mean;
    TimesZero(m);
    if j == b.start + 1 {
      TimesOne(m);
      assert Sum(y, b.start, b.start) == 0.0 && Lean(y, z, c, m, b.start, b.start) == 0.0;
    } else {
      LeanBound(y, z, b, c, j - 1);
      assert Heavy(y, b.start, j - 1, m);
      var before := Sum(y, b.start, j - 1) - Times(m, (j - 1 - b.start) as real);
      assert z[j - 2] <= z[j - 1];
      TimesMonotone(c - z[j - 1], c - z[j - 2], before);
      TimesDistributes(c - z[j - 1], before, y[j - 1] - m);
      TimesDistributes(m, (j - 1 - b.start) as real, 1.0);
      TimesOne(m);
      assert n == (j - 1 - b.start) as real + 1.0;
    }
  }

  lemma TimesOne(m: real)
    ensures Times(m, 1.0) == m
  {
  }

  lemma TimesZero(m: real)
    ensures Times(m, 0.0) == 0.0
  {
  }

  /** The value a block's entries get. */
  function Level(b: Block, clamped: bool): real
    requires b.count > 0
  {
    if clamped then Clamp(Mean(b)) else Mean(b)
  }

  ghost predicate Admissible(z: Reals, clamped: bool) {
    Monotone(z) && (clamped ==> InUnit(z))
  }

  /** Clamping moves a value towards every admissible one. */
  lemma {:induction false} ClampHelps(z: real, y: real, m: real, c: real, clamped: bool)
    requires c == if clamped then Clamp(m) else m
    requires clamped ==> 0.0 <= z <= 1.0
    ensures Times(c - z, y - c) >= Times(c - z, y - m)
  {
    hide Times;
    TimesDistributes(c - z, y - m, m - c);
    TimesZero(c - z);
    TimesSign(c - z, m - c);
    assert (y - m) + (m - c) == y - c;
  }

  lemma {:induction false} TimesSign(a: real, b: real)
    ensures (a >= 0.0 && b >= 0.0) || (a <= 0.0 && b <= 0.0) ==> Times(a, b) >= 0.0
  {
    if a >= 0.0 && b >= 0.0 {
      TimesMonotone(0.0, a, b);
    } else if a <= 0.0 && b <= 0.0 {
      TimesMonotone(0.0, -a, -b);
    }
  }

  /** `f` is constant on the block, at the block's level. */
  ghost predicate FitsBlock(f: Reals, b: Block, clamped: bool)
    requires b.count > 0
  {
    forall i :: b.start <= i < b.end && i < |f| ==> f[i] == Level(b, clamped)
  }

  lemma {:induction false} GapFromLean(y: Reals, f: Reals, z: Reals, b: Block, clamped: bool, j: nat)
    requires Pooled(y, b) && Admissible(z, clamped) && |z| == |y| == |f| && b.start <= j <= b.end
    requires FitsBlock(f, b, clamped)
    ensures Gap(y, f, z, b.start, j) >= Lean(y, z, Level(b, clamped), Mean(b), b.start, j)
    decreases j
  {
    hide Times, Clamp, Mean;
    if j > b.start {
      GapFromLean(y, f, z, b, clamped, j - 1);
      ClampHelps(z[j - 1], y[j - 1], Mean(b), Level(b, clamped), clamped);
    }
  }

  lemma {:induction false} BlockGap(y: Reals, f: Reals, z: Reals, b: Block, clamped: bool)
    requires Pooled(y, b) && Admissible(z, clamped) && |z| == |y| == |f| && FitsBlock(f, b, clamped)
    ensures Gap(y, f, z, b.start, b.end) >= 0.0
  {
    var c := Level(b, clamped);
    GapFromLean(y, f, z, b, clamped, b.end);
    LeanBound(y, z, b, c, b.end);
    MeanTimesCount(b);
    hide Times, Mean, Level;
    TimesZero(c - z[b.end - 1]);
  }

  // ---------------------------------------------------------------- a sequence of blocks

  /** Pooled blocks, one after the other, over the first `n` entries. */
  ghost predicate Chain(y: Reals, blocks: seq<Block>, n: nat) {
    && (forall i :: 0 <= i < |blocks| ==> Pooled(y, blocks[i]))
    && (forall i :: 0 < i < |blocks| ==> blocks[i].start == blocks[i - 1].end)
    && (if blocks == [] then n == 0 else blocks[0].start == 0 && blocks[|blocks| - 1].end == n)
  }

  ghost predicate Ascending(blocks: seq<Block>)
    requires forall i :: 0 <= i < |blocks| ==> blocks[i].count > 0
  {
    forall i :: 0 < i < |blocks| ==> Mean(blocks[i - 1]) <= Mean(blocks[i])
  }

  ghost predicate Fits(f: Reals, blocks: seq<Block>, clamped: bool)
    requires forall i :: 0 <= i < |blocks| ==> blocks[i].count > 0
  {
    forall k :: 0 <= k < |blocks| ==> FitsBlock(f, blocks[k], clamped)
  }

  lemma {:induction false} ChainGap(y: Reals, f: Reals, z: Reals, blocks: seq<Block>, clamped: bool, k: nat)
    requires Chain(y, blocks, |y|) && Fits(f, blocks, clamped) && Admissible(z, clamped) && |z| == |y| == |f|
    requires k < |blocks|
    ensures Gap(y, f, z, 0, blocks[k].end) >= 0.0
    decreases k
  {
    BlockGap(y, f, z, blocks[k], clamped);
    hide Gap, Admissible, FitsBlock, Pooled;
    if k > 0 {
      ChainGap(y, f, z, blocks, clamped, k - 1);
      assert Pooled(y, blocks[k]);
      PooledRange(y, blocks[k]);
      GapSplit(y, f, z, 0, blocks[k].start, blocks[k].end);
    }
  }

  lemma PooledRange(y: Reals, b: Block)
    requires Pooled(y, b)
    ensures b.start < b.end <= |y| && b.count > 0
  {
  }

  /** The block an entry belongs to. */
  lemma {:induction false} BlockOf(y: Reals, blocks: seq<Block>, n: nat, i: nat) returns (k: nat)
    requires Chain(y, blocks, n) && i < n
    ensures k < |blocks| && blocks[k].start <= i < blocks[k].end
  {
    hide Pooled;
    k := |blocks| - 1;
    while i < blocks[k].start
      invariant 0 <= k < |blocks| && i < blocks[k].end
      decreases k
    {
      k := k - 1;
    }
  }

  lemma {:induction false} MeansAscend(blocks: seq<Block>, a: nat, b: nat)
    requires (forall i :: 0 <= i < |blocks| ==> blocks[i].count > 0) && Ascending(blocks) && a <= b < |blocks|
    ensures Mean(blocks[a]) <= Mean(blocks[b])
    decreases b
  {
    hide Mean;
    if a < b {
      MeansAscend(blocks, a, b - 1);
    }
  }

  lemma {:induction false} StartsAscend(y: Reals, blocks: seq<Block>, n: nat, a: nat, b: nat)
    requires Chain(y, blocks, n) && a < b < |blocks|
    ensures blocks[a].end <= blocks[b].start
    decreases b
  {
    hide Mean, Heavy;
    if a < b - 1 {
      StartsAscend(y, blocks, n, a, b - 1);
    }
  }

  /** The levels of ascending blocks form an admissible sequence. */
  lemma {:induction false} FitAdmissible(y: Reals, f: Reals, blocks: seq<Block>, clamped: bool)
    requires Chain(y, blocks, |y|) && Ascending(blocks) && Fits(f, blocks, clamped) && |f| == |y|
    ensures Admissible(f, clamped)
  {
    assert forall k :: 0 <= k < |blocks| ==> blocks[k].count > 0;
    hide Pooled;
    forall i: nat, j: nat | i <= j < |f| ensures f[i] <= f[j] && (clamped ==> 0.0 <= f[i] <= 1.0) {
      var a := BlockOf(y, blocks, |y|, i);
      var b := BlockOf(y, blocks, |y|, j);
      if b < a {
        StartsAscend(y, blocks, |y|, b, a);
      }
      MeansAscend(blocks, a, b);
      hide Mean;
      assert FitsBlock(f, blocks[a], clamped) && FitsBlock(f, blocks[b], clamped);
    }
  }

  /** Main result: the levels of ascending pooled blocks are the closest admissible sequence to `y`:
      unclamped among all monotone sequences, clamped among those that stay within [0, 1]. */
  lemma {:induction false} BlocksAreClosest(y: Reals, f: Reals, blocks: seq<Block>, clamped: bool)
    requires Chain(y, blocks, |y|) && Ascending(blocks) && Fits(f, blocks, clamped) && |f| == |y|
    ensures Monotone(f)
    ensures clamped ==> InUnit(f) && ClosestInUnit(y, f)
    ensures !clamped ==> ClosestMonotone(y, f)
  {
    FitAdmissible(y, f, blocks, clamped);
    forall z | |z| == |y| && Admissible(z, clamped) ensures Closer(y, f, z) {
      DistanceByGap(y, f, z, |y|);
      if y != [] {
        ChainGap(y, f, z, blocks, clamped, |blocks| - 1);
      }
    }
  }

  // ---------------------------------------------------------------- the algorithm

  lemma {:induction false} SingleBlock(y: Reals, index: nat)
    requires index < |y|
    ensures Pooled(y, Block(index, index + 1, y[index], 1))
  {
    var b := Block(index, index + 1, y[index], 1);
    assert Sum(y, index, index) == 0.0;
    assert Sum(y, index, index + 1) == Sum(y, index, index) + y[index];
    TimesZero(Mean(b));
    TimesOne(Mean(b));
    MeanTimesCount(b);
    hide Times, Mean, Sum;
    forall j | b.start <= j <= b.end ensures Heavy(y, b.start, j, Mean(b)) {
      assert j == index || j == index + 1;
    }
  }

  /** A chain of blocks that ascend, with the possible exception of the last. */
  ghost predicate Pooling(y: Reals, blocks: seq<Block>, n: nat) {
    Chain(y, blocks, n) && blocks != [] && Ascending(blocks[..|blocks| - 1])
  }

  lemma {:induction false} PushBlock(y: Reals, blocks: seq<Block>, index: nat)
    requires index < |y| && Chain(y, blocks, index) && Ascending(blocks)
    ensures Pooling(y, blocks + [Block(index, index + 1, y[index], 1)], index + 1)
  {
    var last := Block(index, index + 1, y[index], 1);
    SingleBlock(y, index);
    hide Pooled, Mean;
    assert (blocks + [last])[..|blocks|] == blocks;
  }

  lemma ChainCounts(y: Reals, blocks: seq<Block>, n: nat)
    requires Chain(y, blocks, n)
    ensures forall i :: 0 <= i < |blocks| ==> blocks[i].count > 0
  {
  }

  /** Joining the last two blocks, which are out of order, keeps the chain. */
  lemma {:induction false} JoinLast(y: Reals, blocks: seq<Block>, n: nat)
    requires Pooling(y, blocks, n) && |blocks| >= 2
    requires blocks[|blocks| - 2].count > 0 && blocks[|blocks| - 1].count > 0
    requires Mean(blocks[|blocks| - 2]) > Mean(blocks[|blocks| - 1])
    ensures Pooling(y, blocks[..|blocks| - 2] + [Joined(blocks[|blocks| - 2], blocks[|blocks| - 1])], n)
  {
    var m := |blocks| - 2;
    JoinPools(y, blocks[m], blocks[m + 1]);
    ChainCounts(y, blocks, n);
    hide Pooled, Mean;
    var rest := blocks[..m] + [Joined(blocks[m], blocks[m + 1])];
    assert rest[..|rest| - 1] == blocks[..m + 1][..m];
    assert Ascending(blocks[..m + 1]);
  }

  /** Blocks that ascend up to the last, and there too, ascend. */
  lemma {:induction false} PoolingDone(y: Reals, blocks: seq<Block>, n: nat)
    requires Pooling(y, blocks, n) && forall i :: 0 <= i < |blocks| ==> blocks[i].count > 0
    requires |blocks| >= 2 ==> Mean(blocks[|blocks| - 2]) <= Mean(blocks[|blocks| - 1])
    ensures Ascending(blocks)
  {
    hide Mean;
    forall i | 0 < i < |blocks| ensures Mean(blocks[i - 1]) <= Mean(blocks[i]) {
      if i < |blocks| - 1 {
        assert blocks[..|blocks| - 1][i] == blocks[i] && blocks[..|blocks| - 1][i - 1] == blocks[i - 1];
      }
    }
  }

  ghost predicate BlocksAscend(blocks: seq<Block>) {
    (forall i :: 0 <= i < |blocks| ==> blocks[i].count > 0) && Ascending(blocks)
  }

  /** Pushes the block of one point and pools it with its predecessors while they are out of order. */
  method PushAndPool(blocks0: seq<Block>, index: nat, rank: real, ghost y: Reals) returns (blocks: seq<Block>)
    requires index < |y| && y[index] == rank && Chain(y, blocks0, index) && BlocksAscend(blocks0)
    ensures Chain(y, blocks, index + 1) && BlocksAscend(blocks)
  {
    blocks := blocks0 + [Block(index, index + 1, rank, 1)];
    PushBlock(y, blocks0, index);
    ChainCounts(y, blocks, index + 1);
    hide Chain, Ascending;
    while |blocks| >= 2
      invariant Pooling(y, blocks, index + 1) && forall i :: 0 <= i < |blocks| ==> blocks[i].count > 0
      decreases |blocks|
    {
      var right, left := blocks[|blocks| - 1], blocks[|blocks| - 2];
      if Mean(left) <= Mean(right) {
        break;
      }
      JoinLast(y, blocks, index + 1);
      blocks := blocks[..|blocks| - 2] + [Joined(left, right)];
      ChainCounts(y, blocks, index + 1);
    }
    PoolingDone(y, blocks, index + 1);
  }

  /** Overwrites the ranks of a block's points with its clamped mean. */
  method Spread(points: array<Point>, b: Block)
    requires b.count > 0 && b.start <= b.end <= points.Length
    modifies points
    ensures forall i :: 0 <= i < points.Length ==>
              points[i] == if b.start <= i < b.end then Point(old(points[i].x), Level(b, true)) else old(points[i])
  {
    var rank := Clamp(Mean(b));
    hide Clamp, Mean;
    var i := b.start;
    while i < b.end
      invariant b.start <= i <= b.end
      invariant forall j :: 0 <= j < points.Length ==>
                  points[j] == if b.start <= j < i then Point(old(points[j].x), rank) else old(points[j])
    {
      points[i] := points[i].(rank := rank);
      i := i + 1;
    }
  }

  /** Each point written so far keeps its abscissa and has the level of its block. */
  ghost predicate Spreading(before: seq<Point>, now: seq<Point>, blocks: seq<Block>, k: nat)
    requires k <= |blocks| && forall i :: 0 <= i < |blocks| ==> blocks[i].count > 0
  {
    && |now| == |before| && (forall i :: 0 <= i < |now| ==> now[i].x == before[i].x)
    && forall b :: 0 <= b < k ==> FitsBlock(Ranks(now), blocks[b], true)
  }

  lemma {:induction false} SpreadingStep(y: Reals, before: seq<Point>, was: seq<Point>, now: seq<Point>,
                                         blocks: seq<Block>, k: nat)
    requires Chain(y, blocks, |y|) && |before| == |y| && k < |blocks|
    requires forall i :: 0 <= i < |blocks| ==> blocks[i].count > 0
    requires Spreading(before, was, blocks, k) && |now| == |was|
    requires forall i :: 0 <= i < |now| ==>
               now[i] == if blocks[k].start <= i < blocks[k].end then Point(was[i].x, Level(blocks[k], true))
                          else was[i]
    ensures Spreading(before, now, blocks, k + 1)
  {
    hide Pooled, Level;
    forall b | 0 <= b < k + 1 ensures FitsBlock(Ranks(now), blocks[b], true) {
      if b < k {
        StartsAscend(y, blocks, |y|, b, k);
        assert FitsBlock(Ranks(was), blocks[b], true);
      }
    }
  }

  /** Main result: only the ranks change, to the closest nondecreasing ranks within [0, 1]. */
  method Isotonicize(points: array<Point>)
    modifies points
    ensures forall i :: 0 <= i < points.Length ==> points[i].x == old(points[i].x)
    ensures Monotone(Ranks(points[..])) && InUnit(Ranks(points[..]))
    ensures ClosestInUnit(Ranks(old(points[..])), Ranks(points[..]))
  {
    hide Chain, Ascending, Ranks, Monotone, InUnit, ClosestInUnit, FitsBlock, Mean;
    ghost var before, y := points[..], Ranks(points[..]);
    var blocks := [];
    NoBlocks(y);
    var index := 0;
    while index < points.Length
      invariant 0 <= index <= points.Length && points[..] == before
      invariant Chain(y, blocks, index) && BlocksAscend(blocks)
    {
      blocks := PushAndPool(blocks, index, points[index].rank, y);
      index := index + 1;
    }
    ChainCounts(y, blocks, |y|);
    var k := 0;
    while k < |blocks|
      invariant 0 <= k <= |blocks| && Spreading(before, points[..], blocks, k)
    {
      ghost var was := points[..];
      ChainRange(y, blocks, k);
      Spread(points, blocks[k]);
      SpreadingStep(y, before, was, points[..], blocks, k);
      k := k + 1;
    }
    BlocksAreClosest(y, Ranks(points[..]), blocks, true);
  }

  lemma NoBlocks(y: Reals)
    ensures Chain(y, [], 0) && BlocksAscend([])
  {
  }

  lemma ChainRange(y: Reals, blocks: seq<Block>, k: nat)
    requires Chain(y, blocks, |y|) && k < |blocks|
    ensures blocks[k].start <= blocks[k].end <= |y|
  {
  }
}
