/** The median of row estimates, by hand-written comparison networks for up to five rows. Estimates
    are real numbers. */
module Median {

  /** How many values lie below `x`. */
  ghost function Below(v: seq<real>, x: real): (n: nat)
    ensures n <= |v|
  {
    if v == [] then 0 else (if v[0] < x then 1 else 0) + Below(v[1..], x)
  }

  /** How many values are at most `x`. */
  ghost function AtMost(v: seq<real>, x: real): (n: nat)
    ensures n <= |v|
  {
    if v == [] then 0 else (if v[0] <= x then 1 else 0) + AtMost(v[1..], x)
  }

  /** `x` is the value that stands at position `k` when `v` is sorted. */
  ghost predicate Ranked(v: seq<real>, k: nat, x: real) {
    x in v && Below(v, x) <= k < AtMost(v, x)
  }

  /** The middle value, or the mean of the two middle values; zero of nothing. */
  ghost predicate IsMedian(v: seq<real>, m: real) {
    if v == [] then m == 0.0
    else if |v| % 2 == 1 then Ranked(v, |v| / 2, m)
    else exists a, b :: Middle(v, a, b) && m == (a + b) / 2.0
  }

  /** The two middle values of an even number of values. */
  ghost predicate Middle(v: seq<real>, a: real, b: real)
    requires |v| >= 2
  {
    Ranked(v, |v| / 2 - 1, a) && Ranked(v, |v| / 2, b)
  }

  lemma {:induction false} RanksApart(v: seq<real>, x: real, y: real)
    requires x < y
    ensures AtMost(v, x) <= Below(v, y)
  {
    if v != [] {
      RanksApart(v[1..], x, y);
    }
  }

  /** A position holds only one value. */
  lemma {:induction false} RankedUnique(v: seq<real>, k: nat, x: real, y: real)
    requires Ranked(v, k, x) && Ranked(v, k, y)
    ensures x == y
  {
    if x < y {
      RanksApart(v, x, y);
    } else if y < x {
      RanksApart(v, y, x);
    }
  }

  /** A lower bound of all values bounds their median. */
  lemma MedianAtLeast(v: seq<real>, m: real, bound: real)
    requires v != [] && IsMedian(v, m) && forall i :: 0 <= i < |v| ==> v[i] >= bound
    ensures m >= bound
  {
  }

  /** The median follows the majority: it lies between any two bounds that more than half of the
      values respect. */
  lemma {:induction false} MedianFollowsMajority(v: seq<real>, m: real, lo: real, hi: real)
    requires v != [] && IsMedian(v, m)
    ensures 2 * AtMost(v, hi) > |v| ==> m <= hi
    ensures 2 * Below(v, lo) < |v| ==> m >= lo
  {
    hide Below, AtMost;
    if |v| % 2 == 1 {
      MajorityRanked(v, |v| / 2, m, lo, hi);
    } else {
      var a, b :| Middle(v, a, b) && m == (a + b) / 2.0;
      MajorityRanked(v, |v| / 2 - 1, a, lo, hi);
      MajorityRanked(v, |v| / 2, b, lo, hi);
    }
  }

  lemma {:induction false} MajorityRanked(v: seq<real>, k: nat, x: real, lo: real, hi: real)
    requires Ranked(v, k, x)
    ensures AtMost(v, hi) > k ==> x <= hi
    ensures Below(v, lo) <= k ==> x >= lo
  {
    if x > hi {
      RanksApart(v, hi, x);
    }
    if x < lo {
      RanksApart(v, x, lo);
    }
  }

  // ---------------------------------------------------------------- sorting

  function Place(x: real, s: seq<real>): seq<real> {
    if s == [] || x <= s[0] then [x] + s else [s[0]] + Place(x, s[1..])
  }

  /** The library sort. */
  function Sorted(v: seq<real>): seq<real> {
    if v == [] then [] else Place(v[0], Sorted(v[1..]))
  }

  ghost predicate InOrder(s: seq<real>) {
    forall i, j :: 0 <= i <= j < |s| ==> s[i] <= s[j]
  }

  lemma {:induction false} PlaceOrders(x: real, s: seq<real>)
    requires InOrder(s)
    ensures InOrder(Place(x, s)) && |Place(x, s)| == |s| + 1
    ensures forall y :: y in Place(x, s) <==> y == x || y in s
  {
    if s != [] && x > s[0] {
      PlaceOrders(x, s[1..]);
      var r := Place(x, s[1..]);
      forall i | 0 <= i < |r| ensures s[0] <= r[i] {
        assert r[i] in r;
      }
      assert s == [s[0]] + s[1..];
    }
  }

  lemma {:induction false} PlaceCounts(x: real, s: seq<real>, y: real)
    ensures Below(Place(x, s), y) == Below(s, y) + if x < y then 1 else 0
    ensures AtMost(Place(x, s), y) == AtMost(s, y) + if x <= y then 1 else 0
  {
    if s != [] && x > s[0] {
      PlaceCounts(x, s[1..], y);
      assert Place(x, s)[1..] == Place(x, s[1..]);
    } else {
      assert Place(x, s)[1..] == s;
    }
  }

  lemma {:induction false} SortedSorts(v: seq<real>)
    ensures InOrder(Sorted(v)) && |Sorted(v)| == |v| && forall y :: y in Sorted(v) <==> y in v
  {
    if v != [] {
      hide Place;
      SortedSorts(v[1..]);
      PlaceOrders(v[0], Sorted(v[1..]));
      assert v == [v[0]] + v[1..];
    }
  }

  lemma {:induction false} SortedCounts(v: seq<real>, y: real)
    ensures Below(Sorted(v), y) == Below(v, y) && AtMost(Sorted(v), y) == AtMost(v, y)
  {
    if v != [] {
      SortedCounts(v[1..], y);
      PlaceCounts(v[0], Sorted(v[1..]), y);
    }
  }

  lemma {:induction false} InOrderCounts(s: seq<real>, k: nat)
    requires InOrder(s) && k < |s|
    ensures Below(s, s[k]) <= k < AtMost(s, s[k])
  {
    if k > 0 {
      InOrderCounts(s[1..], k - 1);
    } else {
      NoneBelow(s, s[0]);
    }
  }

  lemma {:induction false} NoneBelow(s: seq<real>, x: real)
    requires forall i :: 0 <= i < |s| ==> x <= s[i]
    ensures Below(s, x) == 0
  {
    if s != [] {
      NoneBelow(s[1..], x);
    }
  }

  /** The sorted values stand at their positions. */
  lemma {:induction false} SortedRanks(v: seq<real>, k: nat)
    requires k < |v|
    ensures |Sorted(v)| == |v| && Ranked(v, k, Sorted(v)[k])
  {
    hide Sorted, Below, AtMost;
    SortedSorts(v);
    var x := Sorted(v)[k];
    assert x in Sorted(v);
    InOrderCounts(Sorted(v), k);
    SortedCounts(v, x);
  }

  // ---------------------------------------------------------------- the networks

  function One(b: bool): nat {
    if b then 1 else 0
  }

  lemma {:induction false} CountFrom(v: seq<real>, k: nat, x: real)
    requires k < |v|
    ensures Below(v[k..], x) == One(v[k] < x) + Below(v[k + 1..], x)
    ensures AtMost(v[k..], x) == One(v[k] <= x) + AtMost(v[k + 1..], x)
  {
    assert v[k..][1..] == v[k + 1..];
  }

  lemma CountNone(v: seq<real>, x: real)
    ensures Below(v[|v|..], x) == 0 && AtMost(v[|v|..], x) == 0 && v[0..] == v
  {
  }

  lemma {:induction false} CountThree(v: seq<real>, x: real)
    requires |v| == 3
    ensures Below(v, x) == One(v[0] < x) + One(v[1] < x) + One(v[2] < x)
    ensures AtMost(v, x) == One(v[0] <= x) + One(v[1] <= x) + One(v[2] <= x)
  {
    CountNone(v, x);
    CountFrom(v, 0, x);
    CountFrom(v, 1, x);
    CountFrom(v, 2, x);
    hide One, Below, AtMost;
  }

  lemma {:induction false} CountFour(v: seq<real>, x: real)
    requires |v| == 4
    ensures Below(v, x) == One(v[0] < x) + One(v[1] < x) + One(v[2] < x) + One(v[3] < x)
    ensures AtMost(v, x) == One(v[0] <= x) + One(v[1] <= x) + One(v[2] <= x) + One(v[3] <= x)
  {
    CountNone(v, x);
    CountFrom(v, 0, x);
    CountFrom(v, 1, x);
    CountFrom(v, 2, x);
    CountFrom(v, 3, x);
    hide One, Below, AtMost;
  }

  lemma {:induction false} CountFive(v: seq<real>, x: real)
    requires |v| == 5
    ensures Below(v, x) == One(v[0] < x) + One(v[1] < x) + One(v[2] < x) + One(v[3] < x) + One(v[4] < x)
    ensures AtMost(v, x) == One(v[0] <= x) + One(v[1] <= x) + One(v[2] <= x) + One(v[3] <= x) + One(v[4] <= x)
  {
    CountNone(v, x);
    CountFrom(v, 0, x);
    CountFrom(v, 1, x);
    CountFrom(v, 2, x);
    CountFrom(v, 3, x);
    CountFrom(v, 4, x);
    hide One, Below, AtMost;
  }

  method MedianOfThree(values: seq<real>) returns (m: real)
    requires |values| == 3
    ensures Ranked(values, 1, m)
  {
    hide Below, AtMost;
    var v0, v1, v2 := values[0], values[1], values[2];
    if v0 > v1 {
      v0, v1 := v1, v0;
    }
    if v1 > v2 {
      v1 := v2;
    }
    if v0 > v1 {
      v1 := v0;
    }
    m := v1;
    CountThree(values, m);
  }

  method MedianOfFour(values: seq<real>) returns (m: real)
    requires |values| == 4
    ensures IsMedian(values, m)
  {
    hide Below, AtMost;
    var v0, v1, v2, v3 := values[0], values[1], values[2], values[3];
    if v0 > v1 {
      v0, v1 := v1, v0;
    }
    if v2 > v3 {
      v2, v3 := v3, v2;
    }
    if v0 > v2 {
      v2 := v0;
    }
    if v1 > v3 {
      v1 := v3;
    }
    m := (v1 + v2) / 2.0;
    CountFour(values, v1);
    CountFour(values, v2);
    assert v1 <= v2 ==> Middle(values, v1, v2);
    assert v2 <= v1 ==> Middle(values, v2, v1);
  }

  method MedianOfFive(values: seq<real>) returns (m: real)
    requires |values| == 5
    ensures Ranked(values, 2, m)
  {
    hide Below, AtMost;
    var v0, v1, v2, v3, v4 := values[0], values[1], values[2], values[3], values[4];
    if v0 > v1 {
      v0, v1 := v1, v0;
    }
    if v3 > v4 {
      v3, v4 := v4, v3;
    }
    if v0 > v3 {
      v3 := v0;
    }
    if v1 > v4 {
      v1 := v4;
    }
    if v1 > v2 {
      v1, v2 := v2, v1;
    }
    if v2 > v3 {
      v2 := v3;
    }
    if v1 > v2 {
      v2 := v1;
    }
    m := v2;
    CountFive(values, m);
  }

  method ComputeMedian(values: seq<real>) returns (m: real)
    ensures IsMedian(values, m)
  {
    hide Below, AtMost, Sorted;
    if |values| == 0 {
      m := 0.0;
    } else if |values| == 1 {
      m := values[0];
      SingleRanked(values);
    } else if |values| == 2 {
      m := (values[0] + values[1]) / 2.0;
      PairRanked(values);
    } else if |values| == 3 {
      m := MedianOfThree(values);
    } else if |values| == 4 {
      m := MedianOfFour(values);
    } else if |values| == 5 {
      m := MedianOfFive(values);
    } else {
      var sorted, mid := Sorted(values), |values| / 2;
      SortedRanks(values, mid);
      if |values| % 2 == 1 {
        m := sorted[mid];
      } else {
        SortedRanks(values, mid - 1);
        m := (sorted[mid - 1] + sorted[mid]) / 2.0;
        assert Middle(values, sorted[mid - 1], sorted[mid]);
      }
    }
  }

  lemma {:induction false} SingleRanked(v: seq<real>)
    requires |v| == 1
    ensures Ranked(v, 0, v[0])
  {
    CountFrom(v, 0, v[0]);
    CountNone(v, v[0]);
  }

  lemma {:induction false} PairRanked(v: seq<real>)
    requires |v| == 2
    ensures Middle(v, v[0], v[1]) || Middle(v, v[1], v[0])
  {
    CountTwo(v, v[0]);
    CountTwo(v, v[1]);
    hide Below, AtMost;
  }

  lemma {:induction false} CountTwo(v: seq<real>, x: real)
    requires |v| == 2
    ensures Below(v, x) == One(v[0] < x) + One(v[1] < x)
    ensures AtMost(v, x) == One(v[0] <= x) + One(v[1] <= x)
  {
    CountNone(v, x);
    CountFrom(v, 0, x);
    CountFrom(v, 1, x);
    hide One, Below, AtMost;
  }
}
