/** The size classes of the L1 exponential histogram, as a property of the bucket sizes from
    oldest to newest, and the cascade that restores it after a bucket of size 1 is appended. */
module EhShape {

  /** Adjacent buckets have equal sizes or the older one is twice the newer. */
  ghost predicate Steps(s: seq<nat>) {
    forall j :: 0 <= j && j + 1 < |s| ==> s[j] == s[j + 1] || s[j] == 2 * s[j + 1]
  }

  ghost predicate EndsInOne(s: seq<nat>) {
    |s| > 0 ==> s[|s| - 1] == 1
  }

  /** From position `from` on, no class holds more than `h + 1` buckets. */
  ghost predicate NoLong(s: seq<nat>, h: nat, from: int) {
    forall j :: 0 <= j && from <= j && j + h + 1 < |s| ==> s[j] != s[j + h + 1]
  }

  /** From position `from` on, every class that an older class precedes holds at least `h`. */
  ghost predicate Full(s: seq<nat>, h: nat, from: int) {
    forall j :: 0 <= j && from <= j && j + 1 < |s| && s[j] == 2 * s[j + 1] ==> j + h < |s| && s[j + h] == s[j + 1]
  }

  /** Sizes are powers of two that do not increase towards the newest bucket; every class below
      the largest holds `h` or `h + 1` buckets and the largest at most `h + 1`. */
  ghost predicate Balanced(s: seq<nat>, h: nat) {
    Steps(s) && EndsInOne(s) && NoLong(s, h, 0) && Full(s, h, 0)
  }

  /** Positions `from..from + n` hold one class, and no more of it follows. */
  ghost predicate IsRun(s: seq<nat>, from: int, n: int) {
    && 0 <= from && 1 <= n && from + n <= |s|
    && (forall j :: from <= j < from + n ==> s[j] == s[from])
    && (from + n < |s| ==> s[from + n] != s[from])
  }

  /** The cascade's loop invariant. `b` are the sizes before the append and `s` the current ones;
      `i + 1` starts the class under inspection, of which `same` buckets have been met: those at
      `i + 1..q` are untouched, and one more (`carry` = 1) came from the append or a merge. All
      newer classes are settled. */
  ghost predicate Walk(b: seq<nat>, h: nat, s: seq<nat>, i: int, same: int, q: int, carry: int) {
    && h >= 1 && Balanced(b, h)
    && 0 <= i && i + 1 < |s| && 0 <= carry <= 1
    && i + 1 <= q <= |b| && q <= |s| && s[..q] == b[..q]
    && same == q - (i + 1) + carry
    && IsRun(s, i + 1, same)
    && (q < |b| ==> b[q] != s[i + 1])
    && (q == i + 1 ==> s[i] == s[i + 1])
    && Steps(s) && EndsInOne(s) && NoLong(s, h, i + 1 + same) && Full(s, h, i + same)
  }

  lemma {:induction false} WalkStart(b: seq<nat>, h: nat)
    requires h >= 1 && Balanced(b, h) && |b| >= 1
    ensures Walk(b, h, b + [1], |b| - 1, 1, |b|, 1)
  {
    var s := b + [1];
    assert s[..|b|] == b;
    forall j | 0 <= j && j + 1 < |s| ensures s[j] == s[j + 1] || s[j] == 2 * s[j + 1] {
      assert s[j] == b[j];
      assert j + 1 < |b| ==> s[j + 1] == b[j + 1];
    }
  }

  /** A balanced histogram with a bucket of size 1 appended. */
  ghost predicate Appended(s: seq<nat>, h: nat) {
    |s| >= 1 && s[|s| - 1] == 1 && Balanced(s[..|s| - 1], h)
  }

  lemma {:induction false} AppendedStart(s: seq<nat>, h: nat)
    requires h >= 1 && Appended(s, h)
    ensures |s| >= 2 ==> Walk(s[..|s| - 1], h, s, |s| - 2, 1, |s| - 1, 1)
    ensures |s| == 1 ==> Balanced(s, h)
  {
    assert s == s[..|s| - 1] + [1];
    if |s| >= 2 {
      hide Walk;
      WalkStart(s[..|s| - 1], h);
    }
  }

  /** The untouched part of a run is at most `h + 1` long. */
  lemma {:induction false} RunBound(b: seq<nat>, h: nat, from: int, q: int)
    requires Balanced(b, h) && 0 <= from <= q <= |b|
    requires forall j :: from <= j < q ==> b[j] == b[from]
    ensures q - from <= h + 1
  {
    var k := from + h + 1;
    assert k < |b| ==> b[from] != b[k];
  }

  lemma {:induction false} WalkFacts(b: seq<nat>, h: nat, s: seq<nat>, i: int, same: int, q: int, carry: int)
    requires Walk(b, h, s, i, same, q, carry)
    ensures forall j :: 0 <= j < q ==> s[j] == b[j]
    ensures same <= h + 2
  {
    assert forall j :: 0 <= j < q ==> s[j] == s[..q][j] == b[..q][j] == b[j];
    RunBound(b, h, i + 1, q);
  }

  /** The next older bucket is of the same class. */
  lemma {:induction false} WalkSame(b: seq<nat>, h: nat, s: seq<nat>, i: int, same: int, q: int, carry: int)
    requires Walk(b, h, s, i, same, q, carry) && s[i] == s[i + 1] && i > 0
    ensures Walk(b, h, s, i - 1, same + 1, q, carry)
  {
    WalkFacts(b, h, s, i, same, q, carry);
  }

  /** Where the class ends it holds `h`, `h + 1` or `h + 2` buckets. */
  lemma {:induction false} WalkCount(b: seq<nat>, h: nat, s: seq<nat>, i: int, same: int, q: int, carry: int)
    requires Walk(b, h, s, i, same, q, carry) && s[i] != s[i + 1]
    ensures s[i] == 2 * s[i + 1] && h <= same <= h + 2
  {
    WalkFacts(b, h, s, i, same, q, carry);
    assert b[i] == 2 * b[i + 1] && i + h < |b| && b[i + h] == b[i + 1];
    if i + h >= q {
      BetweenEqual(b, h, i + 1, q, i + h);
    }
  }

  /** Sizes do not increase, so a bucket between two of equal size has that size. */
  lemma {:induction false} NonIncreasing(b: seq<nat>, x: int, y: int)
    requires Steps(b) && 0 <= x <= y < |b|
    ensures b[x] >= b[y]
    decreases y - x
  {
    if x < y {
      NonIncreasing(b, x + 1, y);
    }
  }

  lemma {:induction false} BetweenEqual(b: seq<nat>, h: nat, x: int, m: int, y: int)
    requires Steps(b) && 0 <= x <= m <= y < |b| && b[x] == b[y]
    ensures b[m] == b[x]
  {
    NonIncreasing(b, x, m);
    NonIncreasing(b, m, y);
  }

  /** The class is not over-full: move on to the next older one. */
  lemma {:induction false} WalkClose(b: seq<nat>, h: nat, s: seq<nat>, i: int, same: int, q: int, carry: int)
    requires Walk(b, h, s, i, same, q, carry) && s[i] != s[i + 1] && same < h + 2 && i > 0
    ensures Walk(b, h, s, i - 1, 1, i + 1, 0)
  {
    WalkFacts(b, h, s, i, same, q, carry);
    WalkCount(b, h, s, i, same, q, carry);
    assert s[..i + 1] == s[..q][..i + 1] == b[..q][..i + 1] == b[..i + 1];
    ClassSettled(h, s, i, same);
  }

  /** A class of `h` or `h + 1` buckets that an older class precedes is settled. */
  lemma {:induction false} ClassSettled(h: nat, s: seq<nat>, i: int, same: int)
    requires h >= 1 && Steps(s) && 0 <= i && IsRun(s, i + 1, same) && h <= same <= h + 1 && s[i] != s[i + 1]
    requires NoLong(s, h, i + 1 + same) && Full(s, h, i + same)
    ensures NoLong(s, h, i + 1) && Full(s, h, i)
  {
    forall j | i + 1 <= j < i + 1 + same && j + h + 1 < |s| ensures s[j] != s[j + h + 1] {
      assert s[i + 1 + same] != s[i + 1];
      if s[j] == s[j + h + 1] {
        BetweenEqual(s, h, j, i + 1 + same, j + h + 1);
      }
    }
  }

  /** Buckets `at` and `at + 1` merged into one. */
  function MergedAt(s: seq<nat>, at: nat): (t: seq<nat>)
    requires at + 1 < |s|
    ensures |t| == |s| - 1
    ensures forall j :: 0 <= j < at ==> t[j] == s[j]
    ensures t[at] == s[at] + s[at + 1]
    ensures forall j :: at < j < |t| ==> t[j] == s[j + 1]
  {
    s[..at] + [s[at] + s[at + 1]] + s[at + 2..]
  }

  /** Merging the two oldest of an over-full class settles it at `h`. */
  lemma {:induction false} MergeSettles(h: nat, s: seq<nat>, at: nat)
    requires h >= 1 && Steps(s) && EndsInOne(s) && IsRun(s, at, h + 2)
    requires NoLong(s, h, at + h + 2) && Full(s, h, at + h + 1)
    requires at > 0 ==> s[at - 1] == 2 * s[at]
    ensures var t := MergedAt(s, at);
            && Steps(t) && EndsInOne(t) && at + 1 < |t| && t[at] == 2 * t[at + 1]
            && NoLong(t, h, at + 1) && Full(t, h, at)
            && (at > 0 ==> t[at - 1] == t[at])
  {
    MergeSteps(h, s, at);
    MergeNoLong(h, s, at);
    MergeFull(h, s, at);
    hide Steps, NoLong, Full, EndsInOne;
  }

  lemma {:induction false} MergeSteps(h: nat, s: seq<nat>, at: nat)
    requires h >= 1 && Steps(s) && EndsInOne(s) && IsRun(s, at, h + 2)
    requires at > 0 ==> s[at - 1] == 2 * s[at]
    ensures Steps(MergedAt(s, at)) && EndsInOne(MergedAt(s, at))
  {
    var t := MergedAt(s, at);
    forall j | 0 <= j && j + 1 < |t| ensures t[j] == t[j + 1] || t[j] == 2 * t[j + 1] {
      if j >= at {
        assert t[j + 1] == s[j + 2];
        assert j > at ==> t[j] == s[j + 1];
        assert s[at + 2] == s[at];
      } else {
        assert t[j] == s[j] && (j + 1 < at ==> t[j + 1] == s[j + 1]);
      }
    }
  }

  lemma {:induction false} MergeNoLong(h: nat, s: seq<nat>, at: nat)
    requires h >= 1 && Steps(s) && IsRun(s, at, h + 2) && NoLong(s, h, at + h + 2)
    ensures NoLong(MergedAt(s, at), h, at + 1)
  {
    var t := MergedAt(s, at);
    forall j | at + 1 <= j && j + h + 1 < |t| ensures t[j] != t[j + h + 1] {
      var x, y := j + 1, j + h + 2;
      assert t[j] == s[x] && t[j + h + 1] == s[y];
      if x < at + h + 2 && s[x] == s[y] {
        BetweenEqual(s, h, x, at + h + 2, y);
      }
    }
  }

  lemma {:induction false} MergeFull(h: nat, s: seq<nat>, at: nat)
    requires h >= 1 && Steps(s) && EndsInOne(s) && IsRun(s, at, h + 2) && Full(s, h, at + h + 1)
    ensures Full(MergedAt(s, at), h, at)
  {
    var t := MergedAt(s, at);
    Positive(s, at);
    forall j | at <= j && j + 1 < |t| && t[j] == 2 * t[j + 1] ensures j + h < |t| && t[j + h] == t[j + 1] {
      assert t[j + 1] == s[j + 2];
      if j == at {
        assert t[at + h] == s[at + h + 1];
      } else {
        assert t[j] == s[j + 1];
        assert j + 1 >= at + h + 1;
        assert s[j + 1 + h] == s[j + 1 + 1];
        assert t[j + h] == s[j + h + 1];
      }
    }
  }

  lemma {:induction false} WalkMerge(b: seq<nat>, h: nat, s: seq<nat>, i: int, same: int, q: int, carry: int)
    requires Walk(b, h, s, i, same, q, carry) && s[i] != s[i + 1] && same == h + 2
    ensures i > 0 ==> Walk(b, h, MergedAt(s, i + 1), i - 1, 2, i + 1, 1)
    ensures i == 0 ==> Balanced(MergedAt(s, i + 1), h)
  {
    WalkFacts(b, h, s, i, same, q, carry);
    WalkCount(b, h, s, i, same, q, carry);
    assert i + 1 < |b| ==> b[i + 1] == s[i + 1];
    Positive(s, i + 1);
    MergeSettles(h, s, i + 1);
    hide Full, Steps, NoLong, EndsInOne;
    var t := MergedAt(s, i + 1);
    if i > 0 {
      assert forall j :: 0 <= j < i + 1 ==> t[j] == s[j];
      assert t[..i + 1] == b[..i + 1];
    } else {
      assert t[0] == t[1] && t[1] == 2 * t[2];
      TwoOnTop(h, t);
    }
  }

  /** A largest class of exactly two buckets over settled ones is balanced. */
  lemma {:induction false} TwoOnTop(h: nat, t: seq<nat>)
    requires h >= 1 && |t| >= 3 && Steps(t) && EndsInOne(t) && NoLong(t, h, 2) && Full(t, h, 1)
    requires t[0] == t[1] && t[1] == 2 * t[2] && t[2] >= 1
    ensures Balanced(t, h)
  {
    forall j | 0 <= j < 2 && j + h + 1 < |t| ensures t[j] != t[j + h + 1] {
      NonIncreasing(t, 2, j + h + 1);
    }
  }

  /** The cascade has reached the oldest bucket, which is alone in its class. */
  lemma {:induction false} WalkEnd(b: seq<nat>, h: nat, s: seq<nat>, same: int, q: int, carry: int)
    requires Walk(b, h, s, 0, same, q, carry) && s[0] != s[1] && same < h + 2
    ensures Balanced(s, h)
  {
    WalkCount(b, h, s, 0, same, q, carry);
    ClassSettled(h, s, 0, same);
    hide Full, Steps, NoLong, EndsInOne, IsRun;
    AloneOnTop(h, s);
  }

  lemma {:induction false} AloneOnTop(h: nat, s: seq<nat>)
    requires Steps(s) && |s| >= 2 && s[0] != s[1] && NoLong(s, h, 1)
    ensures NoLong(s, h, 0)
  {
    if h + 1 < |s| && s[0] == s[h + 1] {
      BetweenEqual(s, h, 0, 1, h + 1);
    }
  }

  /** Where the cascade stands once the class that starts at `i + 1` is finished. */
  ghost predicate Onward(b: seq<nat>, h: nat, s: seq<nat>, i: int, same: int, carry: int) {
    if i > 0 then Walk(b, h, s, i - 1, same, i + 1, carry) else Balanced(s, h) && same == 1
  }

  /** What the cascade's step does at the end of a class, over-full or not. */
  lemma {:induction false} WalkBoundary(b: seq<nat>, h: nat, s: seq<nat>, i: int, same: int, q: int, carry: int)
    requires Walk(b, h, s, i, same, q, carry) && s[i] != s[i + 1]
    ensures same < h + 2 ==> Onward(b, h, s, i, 1, 0)
    ensures same >= h + 2 ==> i + 2 < |s| && Onward(b, h, MergedAt(s, i + 1), i, if i > 0 then 2 else 1, 1)
    ensures same >= h + 2 && i > 0 ==> MergedAt(s, i + 1)[i] == MergedAt(s, i + 1)[i + 1]
  {
    WalkCount(b, h, s, i, same, q, carry);
    if same == h + 2 {
      WalkMerge(b, h, s, i, same, q, carry);
      if i > 0 {
        assert MergedAt(s, i + 1)[i] == s[i];
        assert s[i + 2] == s[i + 1];
      }
    } else if i == 0 {
      WalkEnd(b, h, s, same, q, carry);
    } else {
      WalkClose(b, h, s, i, same, q, carry);
    }
  }

  /** The cascade has reached the oldest bucket, which is of the class under inspection. */
  lemma {:induction false} WalkTopStays(b: seq<nat>, h: nat, s: seq<nat>, same: int, q: int, carry: int)
    requires Walk(b, h, s, 0, same, q, carry) && s[0] == s[1] && same + 1 < h + 2
    ensures Balanced(s, h)
  {
    Positive(s, 0);
    assert IsRun(s, 0, same + 1);
    hide Full, Balanced;
    TopRun(h, s, same + 1);
  }

  lemma {:induction false} TopRun(h: nat, s: seq<nat>, n: int)
    requires h >= 1 && Steps(s) && EndsInOne(s) && IsRun(s, 0, n) && n <= h + 1 && s[0] >= 1
    requires NoLong(s, h, n) && Full(s, h, n - 1)
    ensures Balanced(s, h)
  {
    forall j | 0 <= j < n && j + h + 1 < |s| ensures s[j] != s[j + h + 1] {
      var y := j + h + 1;
      if s[j] == s[y] {
        BetweenEqual(s, h, j, n, y);
      }
    }
    forall j | 0 <= j && j + 1 < |s| && s[j] == 2 * s[j + 1] ensures j + h < |s| && s[j + h] == s[j + 1] {
      if j + 1 < n {
        assert false;
      }
    }
  }

  lemma {:induction false} WalkTopMerges(b: seq<nat>, h: nat, s: seq<nat>, same: int, q: int, carry: int)
    requires Walk(b, h, s, 0, same, q, carry) && s[0] == s[1] && same + 1 >= h + 2
    ensures Balanced(MergedAt(s, 0), h)
  {
    WalkFacts(b, h, s, 0, same, q, carry);
    RunBound(b, h, 0, q);
    assert IsRun(s, 0, h + 2);
    MergeSettles(h, s, 0);
    OneOnTop(h, MergedAt(s, 0));
  }

  lemma {:induction false} OneOnTop(h: nat, t: seq<nat>)
    requires h >= 1 && |t| >= 2 && Steps(t) && EndsInOne(t) && NoLong(t, h, 1) && Full(t, h, 0)
    requires t[0] == 2 * t[1]
    ensures Balanced(t, h)
  {
    if h + 1 < |t| {
      NonIncreasing(t, 1, h + 1);
      Positive(t, h + 1);
    }
  }

  lemma {:induction false} Positive(s: seq<nat>, x: nat)
    requires Steps(s) && EndsInOne(s) && x < |s|
    ensures s[x] >= 1
    decreases |s| - x
  {
    if x + 1 < |s| {
      Positive(s, x + 1);
    }
  }

  /** Dropping the oldest buckets keeps the shape. */
  lemma {:induction false} DropBalanced(s: seq<nat>, h: nat, n: nat)
    requires Balanced(s, h) && n <= |s|
    ensures Balanced(s[n..], h)
  {
    var t := s[n..];
    assert forall j :: 0 <= j < |t| ==> t[j] == s[j + n];
    forall j | 0 <= j && j + 1 < |t| ensures t[j] == t[j + 1] || t[j] == 2 * t[j + 1] {
      assert t[j] == s[j + n] && t[j + 1] == s[j + n + 1];
    }
    forall j | 0 <= j && j + h + 1 < |t| ensures t[j] != t[j + h + 1] {
      assert t[j] == s[j + n] && t[j + h + 1] == s[j + n + h + 1];
    }
    forall j | 0 <= j && j + 1 < |t| && t[j] == 2 * t[j + 1] ensures j + h < |t| && t[j + h] == t[j + 1] {
      assert t[j] == s[j + n] && t[j + 1] == s[j + n + 1];
    }
  }

  // ---------------------------------------------------------------- what the shape implies

  /** The number of buckets in a class: at most `h + 1`, and at least `h` unless it is the
      largest. */
  lemma {:induction false} ClassCounts(s: seq<nat>, h: nat, from: int, n: int)
    requires h >= 1 && Balanced(s, h) && IsRun(s, from, n) && (from > 0 ==> s[from - 1] != s[from])
    ensures n <= h + 1 && (from > 0 ==> n >= h && s[from - 1] == 2 * s[from])
  {
    RunBound(s, h, from, from + n);
    if from > 0 && n < h {
      assert s[from - 1] == 2 * s[from] && s[from - 1 + h] == s[from];
      BetweenEqual(s, h, from, from + n, from - 1 + h);
    }
  }

  ghost function Sum(s: seq<nat>): nat {
    if s == [] then 0 else s[0] + Sum(s[1..])
  }

  ghost predicate PowerOfTwo(n: nat) {
    n == 1 || (n > 1 && n % 2 == 0 && PowerOfTwo(n / 2))
  }

  lemma {:induction false} SizesArePowersOfTwo(s: seq<nat>, x: nat)
    requires Steps(s) && EndsInOne(s) && x < |s|
    ensures PowerOfTwo(s[x])
    decreases |s| - x
  {
    if x + 1 < |s| {
      SizesArePowersOfTwo(s, x + 1);
    }
  }

  lemma {:induction false} SumOfRun(s: seq<nat>, n: nat, v: nat)
    requires n <= |s| && forall j :: 0 <= j < n ==> s[j] == v
    ensures Sum(s) == n * v + Sum(s[n..])
  {
    if n > 0 {
      SumOfRun(s[1..], n - 1, v);
      assert s[1..][n - 1..] == s[n..];
    } else {
      assert s[0..] == s;
    }
  }

  /** The buckets newer than the oldest one hold at least `h` times its size less one. */
  lemma {:induction false} NewerOutweighOldest(s: seq<nat>, h: nat)
    requires h >= 1 && Balanced(s, h) && |s| >= 1
    ensures Sum(s[1..]) >= h * (s[0] as int - 1)
    decreases |s|
  {
    hide Sum;
    if |s| == 1 {
      SumNonNegative(s[1..]);
      assert h * (s[0] as int - 1) == 0;
    } else if s[0] == s[1] {
      DropBalanced(s, h, 1);
      NewerOutweighOldest(s[1..], h);
      SumFirst(s[1..]);
    } else {
      HalfClass(s, h);
      DropBalanced(s, h, h);
      NewerOutweighOldest(s[h..], h);
      assert s[h..][1..] == s[h + 1..];
      Distribute(h, s[1]);
    }
  }

  lemma SumNonNegative(s: seq<nat>)
    ensures Sum(s) >= 0
  {
  }

  lemma SumFirst(s: seq<nat>)
    requires |s| > 0
    ensures Sum(s) == s[0] + Sum(s[1..])
  {
  }

  /** The class after a single largest bucket has at least `h` buckets, of half its size. */
  lemma {:induction false} HalfClass(s: seq<nat>, h: nat)
    requires h >= 1 && Balanced(s, h) && |s| >= 2 && s[0] != s[1]
    ensures h < |s| && s[0] == 2 * s[1] && s[h] == s[1] && Sum(s[1..]) == h * s[1] + Sum(s[h + 1..])
  {
    var t := s[1..];
    assert s[0] == 2 * s[1] && s[0 + h] == s[1];
    forall j | 0 <= j < h ensures t[j] == s[1] {
      BetweenEqual(s, h, 1, j + 1, h);
    }
    SumOfRun(t, h, s[1]);
    assert t[h..] == s[h + 1..];
  }

  lemma Distribute(h: nat, x: int)
    ensures h * x + h * (x - 1) == h * (2 * x - 1)
  {
  }
}
