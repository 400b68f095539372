/** The Space-Saving summary with a lazily cleaned heap: every live (count, key) pair is kept in
    the heap among stale and repeated ones, and an eviction pops until it meets a live pair.

    `Updated` and `Merged` give the effect of the two operations on the counts; the class is
    proved against them, and the guarantees are proved for every tree of updates and merges. */
module SpaceSaving {
  import opened Choice

  datatype Entry = Entry(count: int, key: int)

  /** The heap's order: by count, then by key. */
  predicate AtMost(a: Entry, b: Entry) {
    a.count < b.count || (a.count == b.count && a.key <= b.key)
  }

  type Counts = map<int, int>

  predicate Live(counts: Counts, e: Entry) {
    e.key in counts && counts[e.key] == e.count
  }

  // ---------------------------------------------------------------- what the operations do

  /** `k` holds the least count, and the least key among those that do. */
  ghost predicate Least(counts: Counts, k: int) {
    && k in counts
    && forall j :: j in counts ==> counts[k] < counts[j] || (counts[k] == counts[j] && k <= j)
  }

  ghost predicate Updated(capacity: nat, before: Counts, value: int, after: Counts) {
    if value in before then after == before[value := before[value] + 1]
    else if |before| < capacity then after == before[value := 1]
    else exists k :: Least(before, k) && after == (before - {k})[value := before[k] + 1]
  }

  ghost predicate IsMin(counts: Counts, min: int) {
    (exists k :: k in counts && counts[k] == min) && forall k :: k in counts ==> min <= counts[k]
  }

  lemma {:induction false} PickFrom<T>(s: multiset<T>) returns (x: T)
    requires s != multiset{}
    ensures x in s
  {
    x :| x in s;
  }

  lemma {:induction false} MinExists(counts: Counts, keys: set<int>)
    requires keys != {} && keys <= counts.Keys
    ensures exists k :: k in keys && forall j :: j in keys ==> counts[k] <= counts[j]
  {
    var x := Pick(keys);
    if keys - {x} == {} {
      assert forall j :: j in keys ==> j == x || j in keys - {x};
    } else {
      MinExists(counts, keys - {x});
      var y :| y in keys - {x} && forall j :: j in keys - {x} ==> counts[y] <= counts[j];
      if counts[x] < counts[y] {
        assert forall j :: j in keys ==> counts[x] <= counts[j];
      } else {
        assert forall j :: j in keys ==> counts[y] <= counts[j];
      }
    }
  }

  /** The least count of a full summary, and 0 while it has room: what an untracked key can
      have at most. */
  ghost function Ceiling(capacity: nat, counts: Counts): (c: int)
    ensures if |counts| == capacity && counts != map[] then IsMin(counts, c) else c == 0
  {
    if |counts| == capacity && counts != map[] then
      MinExists(counts, counts.Keys);
      var k :| k in counts && forall j :: j in counts ==> counts[k] <= counts[j];
      counts[k]
    else 0
  }

  /** A summary's count for `k`, or `min` if it does not track `k`. */
  ghost function Upper(counts: Counts, min: int, k: int): int {
    if k in counts then counts[k] else min
  }

  /** The keys of both sides, each with the sum of the two upper bounds. */
  ghost function Union(a: Counts, aMin: int, b: Counts, bMin: int): Counts {
    map k | k in a.Keys + b.Keys :: Upper(a, aMin, k) + Upper(b, bMin, k)
  }

  /** `r` is what a sort by falling count and a cut after `n` leave of `m`; the order among equal
      counts is the sort's choice. */
  ghost predicate Top(m: Counts, n: nat, r: Counts) {
    && r.Keys <= m.Keys && |r| == (if |m| <= n then |m| else n)
    && (forall k :: k in r ==> r[k] == m[k])
    && (forall k, j :: k in r && j in m && j !in r ==> m[j] <= r[k])
  }

  ghost predicate Merged(capacity: nat, a: Counts, otherCapacity: nat, b: Counts, r: Counts) {
    Top(Union(a, Ceiling(capacity, a), b, Ceiling(otherCapacity, b)), capacity, r)
  }

  // ---------------------------------------------------------------- the data structure

  ghost predicate LowerBound(e: Entry, h: multiset<Entry>) {
    forall f :: f in h ==> AtMost(e, f)
  }

  lemma LowerBoundAdd(e: Entry, x: Entry, h: multiset<Entry>)
    requires LowerBound(e, h) && AtMost(e, x)
    ensures LowerBound(e, h + multiset{x})
  {
  }

  lemma LowerBoundBelow(e: Entry, x: Entry, h: multiset<Entry>)
    requires LowerBound(e, h) && AtMost(x, e)
    ensures LowerBound(x, h)
  {
  }

  lemma {:induction false} LeastEntry(h: multiset<Entry>) returns (e: Entry)
    requires h != multiset{}
    ensures e in h && LowerBound(e, h)
    decreases |h|
  {
    hide LowerBound;
    var x := PickFrom(h);
    var rest := h - multiset{x};
    assert rest + multiset{x} == h;
    if rest == multiset{} {
      e := x;
      LowerBoundEmpty(x);
      LowerBoundAdd(x, x, multiset{});
    } else {
      e := LeastEntry(rest);
      if AtMost(x, e) {
        LowerBoundBelow(e, x, rest);
        e := x;
      }
      LowerBoundAdd(e, x, rest);
    }
  }

  lemma LowerBoundEmpty(e: Entry)
    ensures LowerBound(e, multiset{})
  {
  }

  /** `BinaryHeap::pop` on a min-heap. */
  method PopLeast(h: multiset<Entry>) returns (e: Entry, rest: multiset<Entry>)
    requires h != multiset{}
    ensures e in h && rest + multiset{e} == h && LowerBound(e, h)
  {
    ghost var least := LeastEntry(h);
    e :| e in h && forall f :: f in h ==> AtMost(e, f);
    rest := h - multiset{e};
  }

  /** Every live pair is in the heap. */
  ghost predicate Covers(heap: multiset<Entry>, counts: Counts) {
    forall k :: k in counts ==> Entry(counts[k], k) in heap
  }

  lemma CoversSet(heap: multiset<Entry>, counts: Counts, k: int, n: int)
    requires Covers(heap, counts)
    ensures Covers(heap + multiset{Entry(n, k)}, counts[k := n])
  {
  }

  lemma {:induction false} CoversNonEmpty(heap: multiset<Entry>, counts: Counts)
    requires Covers(heap, counts) && counts != map[]
    ensures heap != multiset{}
  {
    var k := Pick(counts.Keys);
    assert Entry(counts[k], k) in heap;
  }

  lemma SkipStale(heap: multiset<Entry>, counts: Counts, e: Entry)
    requires Covers(heap + multiset{e}, counts) && !Live(counts, e)
    ensures Covers(heap, counts)
  {
  }

  lemma {:induction false} CoversRest(heap: multiset<Entry>, counts: Counts, e: Entry)
    requires Covers(heap + multiset{e}, counts) && Live(counts, e) && LowerBound(e, heap)
    ensures Covers(heap, counts - {e.key}) && Least(counts, e.key)
  {
    forall j | j in counts ensures AtMost(e, Entry(counts[j], j)) {
      assert Entry(counts[j], j) in heap + multiset{e};
    }
  }

  class SpaceSaving {
    const capacity: nat
    var counts: Counts
    var heap: multiset<Entry>

    /** Every live pair is in the heap, whose length stays linear in the capacity. */
    ghost predicate Valid()
      reads this
    {
      && |counts| <= capacity
      && Covers(heap, counts)
      && (heap == multiset{} || |heap| <= 4 * capacity - 1 + |counts|)
    }

    constructor (capacity: nat)
      ensures Valid() && this.capacity == capacity && counts == map[]
    {
      this.capacity := capacity;
      counts := map[];
      heap := multiset{};
    }

    /** Counts one occurrence of `value`. Zero capacity has nothing to evict and is excluded. */
    method Update(value: int)
      requires Valid() && capacity > 0
      modifies this
      ensures Valid()
      ensures Updated(capacity, old(counts), value, counts)
    {
      if value in counts {
        ghost var was := counts;
        counts := counts[value := counts[value] + 1];
        CoversSet(heap, was, value, counts[value]);
        heap := heap + multiset{Entry(counts[value], value)};
        assert counts.Keys == was.Keys;
        Compact();
        return;
      }
      if |counts| < capacity {
        CoversSet(heap, counts, value, 1);
        counts := counts[value := 1];
        heap := heap + multiset{Entry(1, value)};
        return;
      }
      var evicted := PopLive();
      ghost var kept := counts - {evicted.key};
      CoversSet(heap, kept, value, evicted.count + 1);
      assert |kept.Keys| == |counts.Keys| - 1;
      counts := (counts - {evicted.key})[value := evicted.count + 1];
      heap := heap + multiset{Entry(evicted.count + 1, value)};
      assert counts.Keys == kept.Keys + {value};
      Compact();
    }

    /** The eviction loop: pops until a live pair comes up, which is the least of the counts. */
    method PopLive() returns (e: Entry)
      requires counts != map[] && Covers(heap, counts)
      modifies this`heap
      ensures Live(counts, e) && Least(counts, e.key)
      ensures Covers(heap, counts - {e.key})
    {
      hide Covers;
      assert Covers(heap, counts);
      CoversNonEmpty(heap, counts);
      ghost var all := heap;
      e, heap := PopLeast(heap);
      assert heap + multiset{e} == all;
      while !Live(counts, e)
        invariant Covers(heap + multiset{e}, counts)
        invariant LowerBound(e, heap)
        decreases |heap|
      {
        hide Covers, Live;
        SkipStale(heap, counts, e);
        CoversNonEmpty(heap, counts);
        ghost var was := heap;
        e, heap := PopLeast(heap);
        assert heap + multiset{e} == was;
      }
      CoversRest(heap, counts, e);
    }

    /** Drops the stale and repeated pairs once the heap holds four per slot. */
    method Compact()
      requires |counts| <= capacity && capacity > 0
      requires Covers(heap, counts)
      modifies this`heap
      ensures Valid()
    {
      if |heap| < 4 * capacity {
        return;
      }
      Refill();
    }

    /** Clears the heap and pushes one pair per tracked key. */
    method Refill()
      modifies this`heap
      ensures Covers(heap, counts) && |heap| == |counts|
    {
      heap := multiset{};
      var todo := counts.Keys;
      while todo != {}
        invariant todo <= counts.Keys
        invariant forall k :: k in counts && k !in todo ==> Entry(counts[k], k) in heap
        invariant |heap| + |todo| == |counts.Keys|
        decreases |todo|
      {
        ghost var some := Pick(todo);
        var k :| k in todo;
        heap := heap + multiset{Entry(counts[k], k)};
        todo := todo - {k};
      }
    }

    /** Absorbs `other`, which is a different summary. */
    method Merge(other: SpaceSaving)
      requires Valid() && other.Valid() && other != this
      modifies this
      ensures Valid()
      ensures Merged(capacity, old(counts), other.capacity, other.counts, counts)
    {
      var leftMin := LeastCount(counts, capacity);
      var rightMin := LeastCount(other.counts, other.capacity);
      var combined := Combine(counts, leftMin, other.counts, rightMin);
      var retained := Largest(combined, capacity);
      counts := retained;
      Refill();
    }
  }

  // ---------------------------------------------------------------- the steps of a merge

  method LeastCount(counts: Counts, capacity: nat) returns (min: int)
    ensures min == Ceiling(capacity, counts)
  {
    min := 0;
    if |counts| == capacity && counts != map[] {
      var todo := counts.Keys;
      ghost var some := Pick(todo);
      var first :| first in todo;
      min := counts[first];
      todo := todo - {first};
      while todo != {}
        invariant todo <= counts.Keys
        invariant exists k :: k in counts && counts[k] == min
        invariant forall k :: k in counts && k !in todo ==> min <= counts[k]
        decreases |todo|
      {
        some := Pick(todo);
        var k :| k in todo;
        if counts[k] < min {
          min := counts[k];
        }
        todo := todo - {k};
      }
    }
  }

  /** `a` with the other side's count or ceiling added to each of its keys. */
  method AddOther(a: Counts, b: Counts, bMin: int) returns (combined: Counts)
    ensures combined.Keys == a.Keys
    ensures forall k :: k in a ==> combined[k] == a[k] + Upper(b, bMin, k)
  {
    combined := map[];
    var todo := a.Keys;
    while todo != {}
      invariant todo <= a.Keys && combined.Keys == a.Keys - todo
      invariant forall k :: k in combined ==> combined[k] == a[k] + Upper(b, bMin, k)
      decreases |todo|
    {
      ghost var some := Pick(todo);
      var k :| k in todo;
      combined := combined[k := a[k] + (if k in b then b[k] else bMin)];
      todo := todo - {k};
    }
  }

  method Combine(a: Counts, aMin: int, b: Counts, bMin: int) returns (combined: Counts)
    ensures combined == Union(a, aMin, b, bMin)
  {
    combined := AddOther(a, b, bMin);
    var todo := b.Keys;
    while todo != {}
      invariant todo <= b.Keys && a.Keys <= combined.Keys <= a.Keys + b.Keys && b.Keys - todo <= combined.Keys
      invariant Combined(combined, a, aMin, b, bMin)
      decreases |todo|
    {
      ghost var some := Pick(todo);
      var k :| k in todo;
      if k !in combined {
        combined := combined[k := b[k] + aMin];
      }
      todo := todo - {k};
    }
    CombinedIsUnion(combined, a, aMin, b, bMin);
  }

  ghost predicate Combined(m: Counts, a: Counts, aMin: int, b: Counts, bMin: int) {
    forall k :: k in m ==> m[k] == Upper(a, aMin, k) + Upper(b, bMin, k)
  }

  method Largest(m: Counts, n: nat) returns (r: Counts)
    ensures Top(m, n, r)
  {
    r := map[];
    var rest := m;
    while rest != map[] && |r| < n
      invariant |r| + |rest| == |m| && |r| <= n
      invariant r.Keys <= m.Keys && rest.Keys == m.Keys - r.Keys
      invariant (forall k :: k in r ==> r[k] == m[k]) && (forall k :: k in rest ==> rest[k] == m[k])
      invariant forall k, j :: k in r && j in rest ==> rest[j] <= r[k]
      decreases |rest|
    {
      var k := MostOf(rest);
      r := r[k := rest[k]];
      assert (rest - {k}).Keys == rest.Keys - {k};
      rest := rest - {k};
    }
  }

  method MostOf(counts: Counts) returns (k: int)
    requires counts != map[]
    ensures k in counts && forall j :: j in counts ==> counts[j] <= counts[k]
  {
    var todo := counts.Keys;
    ghost var some := Pick(todo);
    k :| k in todo;
    todo := todo - {k};
    while todo != {}
      invariant todo <= counts.Keys && k in counts
      invariant forall j :: j in counts && j !in todo ==> counts[j] <= counts[k]
      decreases |todo|
    {
      some := Pick(todo);
      var j :| j in todo;
      if counts[j] > counts[k] {
        k := j;
      }
      todo := todo - {j};
    }
  }

  lemma {:induction false} CombinedIsUnion(m: Counts, a: Counts, aMin: int, b: Counts, bMin: int)
    requires m.Keys == a.Keys + b.Keys && Combined(m, a, aMin, b, bMin)
    ensures m == Union(a, aMin, b, bMin)
  {
    hide Upper;
    assert m.Keys == Union(a, aMin, b, bMin).Keys;
  }
}

/** The guarantees of Space-Saving, for every tree of updates and merges. */
module SpaceSavingBounds {
  import opened Choice
  import opened SpaceSaving

  /** How a summary came about: from scratch, by counting one more item, or by a merge. */
  datatype Plan = Fresh | Count(plan: Plan, value: int) | Merge(left: Plan, right: Plan)

  /** The items that went in. */
  ghost function Stream(p: Plan): multiset<int> {
    match p
    case Fresh => multiset{}
    case Count(q, v) => Stream(q) + multiset{v}
    case Merge(l, r) => Stream(l) + Stream(r)
  }

  /** `counts` is a possible outcome of the plan, given the free choices of the merges' sorts. */
  ghost predicate Yields(capacity: nat, p: Plan, counts: Counts) {
    match p
    case Fresh => counts == map[]
    case Count(q, v) => exists before :: Yields(capacity, q, before) && Updated(capacity, before, v, counts)
    case Merge(l, r) =>
      exists a, b :: Yields(capacity, l, a) && Yields(capacity, r, b) && Merged(capacity, a, capacity, b, counts)
  }

  ghost function Sum(keys: set<int>, counts: Counts, min: int): int
  {
    if keys == {} then 0
    else
      var k := Any(keys);
      Upper(counts, min, k) + Sum(keys - {k}, counts, min)
  }

  lemma {:induction false} SumRemove(keys: set<int>, counts: Counts, min: int, k: int)
    requires k in keys
    ensures Sum(keys, counts, min) == Upper(counts, min, k) + Sum(keys - {k}, counts, min)
  {
    hide Upper, Any;
    var j := Any(keys);
    if j != k {
      SumRemove(keys - {j}, counts, min, k);
      SumRemove(keys - {k}, counts, min, j);
      assert keys - {j} - {k} == keys - {k} - {j};
    }
  }

  lemma {:induction false} SumUnion(a: set<int>, b: set<int>, counts: Counts, min: int)
    requires a !! b
    ensures Sum(a + b, counts, min) == Sum(a, counts, min) + Sum(b, counts, min)
  {
    hide Upper;
    if a == {} {
      assert a + b == b;
    } else {
      var k := Any(a);
      SumRemove(a, counts, min, k);
      SumRemove(a + b, counts, min, k);
      SumUnion(a - {k}, b, counts, min);
      assert a + b - {k} == (a - {k}) + b;
    }
  }

  /** Changing the count of a key outside `keys` leaves the sum alone. */
  lemma {:induction false} SumFrame(keys: set<int>, x: Counts, xMin: int, y: Counts, yMin: int)
    requires forall k :: k in keys ==> Upper(x, xMin, k) == Upper(y, yMin, k)
    ensures Sum(keys, x, xMin) == Sum(keys, y, yMin)
  {
    hide Upper;
    if keys != {} {
      SumFrame(keys - {Any(keys)}, x, xMin, y, yMin);
    }
  }

  lemma {:induction false} SumAdd(keys: set<int>, m: Counts, a: Counts, aMin: int, b: Counts, bMin: int)
    requires forall k :: k in keys ==> Upper(m, 0, k) == Upper(a, aMin, k) + Upper(b, bMin, k)
    ensures Sum(keys, m, 0) == Sum(keys, a, aMin) + Sum(keys, b, bMin)
  {
    hide Upper;
    if keys != {} {
      SumAdd(keys - {Any(keys)}, m, a, aMin, b, bMin);
    }
  }

  lemma {:induction false} SumAtLeast(keys: set<int>, counts: Counts, min: int, low: int)
    requires forall k :: k in keys ==> Upper(counts, min, k) >= low
    ensures Sum(keys, counts, min) >= |keys| * low
  {
    hide Upper;
    if keys != {} {
      SumAtLeast(keys - {Any(keys)}, counts, min, low);
    }
  }

  lemma {:induction false} SumOfMin(keys: set<int>, counts: Counts, min: int)
    requires keys !! counts.Keys
    ensures Sum(keys, counts, min) == |keys| * min
  {
    if keys != {} {
      SumOfMin(keys - {Any(keys)}, counts, min);
    }
  }

  lemma {:induction false} SumSet(keys: set<int>, before: Counts, k: int, n: int, after: Counts)
    requires k in keys && k in after && after[k] == n
    requires forall j :: j in keys && j != k ==> j in before && j in after && after[j] == before[j]
    ensures Sum(keys, after, 0) == Sum(keys - {k}, before, 0) + n
  {
    SumRemove(keys, after, 0, k);
    SumFrame(keys - {k}, before, 0, after, 0);
  }

  // ---------------------------------------------------------------- the invariant

  /** Tracked counts are never below the truth and never above it by more than the ceiling;
      untracked keys occur at most as often as the ceiling; the counts never claim more than the
      items that went in. */
  ghost predicate Sound(capacity: nat, f: multiset<int>, counts: Counts) {
    && |counts| <= capacity
    && (forall k :: k in counts ==> 1 <= counts[k] && f[k] <= counts[k] <= f[k] + Ceiling(capacity, counts))
    && (forall k :: k in f && k !in counts ==> f[k] <= Ceiling(capacity, counts))
    && Sum(counts.Keys, counts, 0) <= |f|
  }

  lemma CeilingNonNegative(capacity: nat, f: multiset<int>, counts: Counts)
    requires Sound(capacity, f, counts)
    ensures Ceiling(capacity, counts) >= 0
    ensures forall k :: k in counts ==> Ceiling(capacity, counts) <= counts[k]
  {
  }

  /** A full summary's ceiling is at least whatever all its counts are at least. */
  lemma CeilingAtLeast(capacity: nat, counts: Counts, low: int)
    requires forall k :: k in counts ==> counts[k] >= low
    requires |counts| == capacity && counts != map[]
    ensures Ceiling(capacity, counts) >= low
  {
  }

  lemma {:induction false} RaiseSound(capacity: nat, f: multiset<int>, before: Counts, v: int)
    requires Sound(capacity, f, before) && v in before
    ensures Sound(capacity, f + multiset{v}, before[v := before[v] + 1])
  {
    var after, g := before[v := before[v] + 1], f + multiset{v};
    assert after.Keys == before.Keys && |after| == |before|;
    CeilingNonNegative(capacity, f, before);
    if |after| == capacity { CeilingAtLeast(capacity, after, Ceiling(capacity, before)); }
    SumSet(after.Keys, before, v, before[v] + 1, after);
    SumRemove(before.Keys, before, 0, v);
    hide Sum, Ceiling;
  }

  lemma {:induction false} SeatSound(capacity: nat, f: multiset<int>, before: Counts, v: int)
    requires Sound(capacity, f, before) && v !in before && |before| < capacity
    ensures Sound(capacity, f + multiset{v}, before[v := 1])
  {
    var after, g := before[v := 1], f + multiset{v};
    assert after.Keys == before.Keys + {v} && |after| == |before| + 1;
    assert v !in f;
    if |after| == capacity { CeilingAtLeast(capacity, after, 0); }
    SumSet(after.Keys, before, v, 1, after);
    assert after.Keys - {v} == before.Keys;
    hide Sum, Ceiling;
  }

  lemma {:induction false} LeastIsCeiling(capacity: nat, counts: Counts, k: int)
    requires |counts| == capacity && Least(counts, k)
    ensures Ceiling(capacity, counts) == counts[k]
  {
    var j :| j in counts && counts[j] == Ceiling(capacity, counts);
    assert AtMost(Entry(counts[k], k), Entry(counts[j], j));
  }

  lemma {:induction false} EvictSum(before: Counts, v: int, k: int, n: int)
    requires v !in before && k in before
    ensures var after := (before - {k})[v := n];
            |after| == |before| && Sum(after.Keys, after, 0) == Sum(before.Keys, before, 0) - before[k] + n
  {
    var kept := before - {k};
    var after := kept[v := n];
    assert kept.Keys == before.Keys - {k} && after.Keys == kept.Keys + {v};
    assert |kept.Keys| == |before.Keys| - 1 && |after.Keys| == |kept.Keys| + 1;
    assert after.Keys - {v} == kept.Keys;
    SumSet(after.Keys, kept, v, n, after);
    SumFrame(kept.Keys, kept, 0, before, 0);
    SumRemove(before.Keys, before, 0, k);
  }

  lemma {:induction false} EvictSound(capacity: nat, f: multiset<int>, before: Counts, v: int, k: int)
    requires Sound(capacity, f, before) && v !in before && |before| == capacity && Least(before, k)
    ensures Sound(capacity, f + multiset{v}, (before - {k})[v := before[k] + 1])
  {
    var after, c := (before - {k})[v := before[k] + 1], before[k];
    LeastIsCeiling(capacity, before, k);
    CeilingNonNegative(capacity, f, before);
    EvictSum(before, v, k, c + 1);
    hide Sum, Ceiling, Least;
    assert forall j :: j in after ==> after[j] >= c;
    CeilingAtLeast(capacity, after, c);
    assert f[v] <= c;
  }

  lemma {:induction false} CountSound(capacity: nat, f: multiset<int>, before: Counts, v: int, after: Counts)
    requires capacity > 0 && Sound(capacity, f, before) && Updated(capacity, before, v, after)
    ensures Sound(capacity, f + multiset{v}, after)
  {
    if v in before {
      RaiseSound(capacity, f, before, v);
    } else if |before| < capacity {
      SeatSound(capacity, f, before, v);
    } else {
      var k :| Least(before, k) && after == (before - {k})[v := before[k] + 1];
      EvictSound(capacity, f, before, v, k);
    }
  }

  // ---------------------------------------------------------------- merging

  lemma {:induction false} Cardinalities(r: set<int>, t: set<int>)
    ensures |r| == |r * t| + |r - t|
  {
    assert r == (r * t) + (r - t);
  }

  lemma {:induction false} UpperSum(keys: set<int>, a: Counts, c: int)
    ensures Sum(keys, a, c) == Sum(keys * a.Keys, a, 0) + |keys - a.Keys| * c
  {
    SumUnion(keys * a.Keys, keys - a.Keys, a, c);
    assert keys == (keys * a.Keys) + (keys - a.Keys);
    SumOfMin(keys - a.Keys, a, c);
    SumFrame(keys * a.Keys, a, c, a, 0);
  }

  lemma {:induction false} TrackedSum(keys: set<int>, a: Counts, c: int)
    requires forall k :: k in a ==> a[k] >= c
    ensures Sum(a.Keys, a, 0) >= Sum(keys * a.Keys, a, 0) + |a.Keys - keys| * c
  {
    hide Sum;
    SumUnion(keys * a.Keys, a.Keys - keys, a, 0);
    assert a.Keys == (keys * a.Keys) + (a.Keys - keys);
    SumAtLeast(a.Keys - keys, a, 0, c);
  }

  /** Any `capacity` keys, valued by one side's upper bounds, sum to at most that side's counts. */
  lemma {:induction false} TopBelowTotal(capacity: nat, f: multiset<int>, a: Counts, keys: set<int>)
    requires Sound(capacity, f, a) && |keys| <= capacity
    ensures Sum(keys, a, Ceiling(capacity, a)) <= Sum(a.Keys, a, 0)
  {
    var c, t := Ceiling(capacity, a), a.Keys;
    CeilingNonNegative(capacity, f, a);
    CeilingWhenRoom(capacity, a);
    hide Ceiling, Sound, Sum;
    UpperSum(keys, a, c);
    TrackedSum(keys, a, c);
    Cardinalities(keys, t);
    Cardinalities(t, keys);
    assert keys * t == t * keys && |t| == |a|;
    if c > 0 {
      AtMostTimesLeft(|keys - t|, |t - keys|, c);
    }
  }

  lemma AtMostTimesLeft(x: nat, y: nat, c: int)
    requires x <= y && c >= 0
    ensures x * c <= y * c
  {
  }

  lemma CeilingWhenRoom(capacity: nat, a: Counts)
    ensures |a| < capacity ==> Ceiling(capacity, a) == 0
  {
  }

  lemma {:induction false} MergedSum(capacity: nat, f: multiset<int>, a: Counts, g: multiset<int>, b: Counts, r: Counts)
    requires Sound(capacity, f, a) && Sound(capacity, g, b) && Merged(capacity, a, capacity, b, r)
    ensures Sum(r.Keys, r, 0) <= |f + g|
  {
    hide Sum, Ceiling;
    assert |r.Keys| == |r|;
    TopBelowTotal(capacity, f, a, r.Keys);
    TopBelowTotal(capacity, g, b, r.Keys);
    SumAdd(r.Keys, r, a, Ceiling(capacity, a), b, Ceiling(capacity, b));
  }

  /** One side's upper bound for any key: never below its count there, nor above it by more than
      the side's ceiling. */
  lemma {:induction false} UpperBounds(capacity: nat, f: multiset<int>, a: Counts, k: int)
    requires Sound(capacity, f, a)
    ensures f[k] <= Upper(a, Ceiling(capacity, a), k) <= f[k] + Ceiling(capacity, a)
    ensures Ceiling(capacity, a) <= Upper(a, Ceiling(capacity, a), k)
  {
    CeilingNonNegative(capacity, f, a);
    hide Ceiling, Sum;
    assert f[k] == 0 || k in f;
  }

  lemma UnionAt(a: Counts, aMin: int, b: Counts, bMin: int, k: int)
    ensures k in Union(a, aMin, b, bMin) <==> k in a || k in b
    ensures k in a || k in b ==> Union(a, aMin, b, bMin)[k] == Upper(a, aMin, k) + Upper(b, bMin, k)
  {
  }

  /** The merged ceiling covers both ceilings. */
  lemma {:induction false} MergedCeiling(capacity: nat, f: multiset<int>, a: Counts, g: multiset<int>, b: Counts,
                                         r: Counts)
    requires Sound(capacity, f, a) && Sound(capacity, g, b) && Merged(capacity, a, capacity, b, r)
    ensures Ceiling(capacity, r) >= Ceiling(capacity, a) + Ceiling(capacity, b)
  {
    var u := Union(a, Ceiling(capacity, a), b, Ceiling(capacity, b));
    var low := Ceiling(capacity, a) + Ceiling(capacity, b);
    hide Ceiling, Sound, Union, Upper;
    if |r| == capacity && r != map[] {
      forall k | k in r ensures r[k] >= low {
        UnionAt(a, Ceiling(capacity, a), b, Ceiling(capacity, b), k);
        UpperBounds(capacity, f, a, k);
        UpperBounds(capacity, g, b, k);
      }
      CeilingAtLeast(capacity, r, low);
    } else {
      UnionKeys(a, Ceiling(capacity, a), b, Ceiling(capacity, b));
      MergedSmall(capacity, a, b, r, u);
    }
  }

  lemma {:induction false} UnionKeys(a: Counts, aMin: int, b: Counts, bMin: int)
    ensures Union(a, aMin, b, bMin).Keys == a.Keys + b.Keys
  {
    hide Upper;
  }

  /** A merge that does not fill the summary drops nothing, and neither side was full. */
  lemma {:induction false} MergedSmall(capacity: nat, a: Counts, b: Counts, r: Counts, u: Counts)
    requires Top(u, capacity, r) && u.Keys == a.Keys + b.Keys
    requires !(|r| == capacity && r != map[])
    ensures Ceiling(capacity, a) == 0 && Ceiling(capacity, b) == 0 && Ceiling(capacity, r) == 0
  {
    assert |u.Keys| == |u| && |a.Keys| == |a| && |b.Keys| == |b|;
    SubsetSize(a.Keys, u.Keys);
    SubsetSize(b.Keys, u.Keys);
  }

  lemma {:induction false} SubsetSize(x: set<int>, y: set<int>)
    requires x <= y
    ensures |x| <= |y| && (|x| == |y| ==> x == y)
  {
    if x != {} {
      var k := Any(x);
      SubsetSize(x - {k}, y - {k});
      assert x == (x - {k}) + {k} && y == (y - {k}) + {k};
    }
  }

  lemma {:induction false} DroppedBelow(capacity: nat, u: Counts, r: Counts, j: int)
    requires Top(u, capacity, r) && j in u && j !in r
    requires capacity > 0
    ensures u[j] <= Ceiling(capacity, r)
  {
    assert |r.Keys| == |r| && |u.Keys| == |u|;
    SubsetSize(r.Keys, u.Keys);
    assert |r| == capacity;
    CeilingAtLeast(capacity, r, u[j]);
  }

  /** What the merge makes of one key. */
  lemma {:induction false} MergedKey(capacity: nat, f: multiset<int>, a: Counts, g: multiset<int>, b: Counts,
                                     r: Counts, k: int)
    requires capacity > 0
    requires Sound(capacity, f, a) && Sound(capacity, g, b) && Merged(capacity, a, capacity, b, r)
    ensures k in r ==> (k in a || k in b) && (f + g)[k] <= r[k] <= (f + g)[k] + Ceiling(capacity, r)
    ensures k !in r ==> (f + g)[k] <= Ceiling(capacity, r)
  {
    var u := Union(a, Ceiling(capacity, a), b, Ceiling(capacity, b));
    hide Ceiling, Sound, Union;
    MergedCeiling(capacity, f, a, g, b, r);
    UnionAt(a, Ceiling(capacity, a), b, Ceiling(capacity, b), k);
    UpperBounds(capacity, f, a, k);
    UpperBounds(capacity, g, b, k);
    if k !in r && k in u {
      DroppedBelow(capacity, u, r, k);
    }
  }

  lemma {:induction false} MergeSound(capacity: nat, f: multiset<int>, a: Counts, g: multiset<int>, b: Counts,
                                      r: Counts)
    requires capacity > 0
    requires Sound(capacity, f, a) && Sound(capacity, g, b) && Merged(capacity, a, capacity, b, r)
    ensures Sound(capacity, f + g, r)
  {
    hide Ceiling, Sum, Upper, Union;
    MergedSum(capacity, f, a, g, b, r);
    forall k ensures k in r ==> 1 <= r[k] {
      if k in r {
        MergedKey(capacity, f, a, g, b, r, k);
        MergedPositive(capacity, f, a, g, b, r, k);
      }
    }
    forall k
      ensures k in r ==> (f + g)[k] <= r[k] <= (f + g)[k] + Ceiling(capacity, r)
      ensures k !in r ==> (f + g)[k] <= Ceiling(capacity, r)
    {
      MergedKey(capacity, f, a, g, b, r, k);
    }
  }

  lemma {:induction false} MergedPositive(capacity: nat, f: multiset<int>, a: Counts, g: multiset<int>, b: Counts,
                                          r: Counts, k: int)
    requires Sound(capacity, f, a) && Sound(capacity, g, b) && Merged(capacity, a, capacity, b, r)
    requires k in r && (k in a || k in b)
    ensures 1 <= r[k]
  {
    CeilingNonNegative(capacity, f, a);
    CeilingNonNegative(capacity, g, b);
    hide Ceiling, Sum, Union;
    UnionAt(a, Ceiling(capacity, a), b, Ceiling(capacity, b), k);
  }

  // ---------------------------------------------------------------- main results

  /** Every outcome of every tree of updates and merges is sound for the items that went in. */
  lemma {:induction false} EveryPlanSound(capacity: nat, p: Plan, counts: Counts)
    requires capacity > 0 && Yields(capacity, p, counts)
    ensures Sound(capacity, Stream(p), counts)
  {
    hide Sound, Updated, Merged;
    match p
    case Fresh => FreshSound(capacity);
    case Count(q, v) =>
      var before :| Yields(capacity, q, before) && Updated(capacity, before, v, counts);
      EveryPlanSound(capacity, q, before);
      CountSound(capacity, Stream(q), before, v, counts);
    case Merge(l, r) =>
      var a, b :| Yields(capacity, l, a) && Yields(capacity, r, b) && Merged(capacity, a, capacity, b, counts);
      EveryPlanSound(capacity, l, a);
      EveryPlanSound(capacity, r, b);
      MergeSound(capacity, Stream(l), a, Stream(r), b, counts);
  }

  lemma FreshSound(capacity: nat)
    ensures Sound(capacity, multiset{}, map[])
  {
  }

  /** The ceiling is at most the number of items over the capacity. */
  lemma {:induction false} CeilingBound(capacity: nat, f: multiset<int>, counts: Counts)
    requires capacity > 0 && Sound(capacity, f, counts)
    ensures capacity * Ceiling(capacity, counts) <= |f|
  {
    CeilingNonNegative(capacity, f, counts);
    SumAtLeast(counts.Keys, counts, 0, Ceiling(capacity, counts));
    CeilingWhenRoom(capacity, counts);
    assert |counts.Keys| == |counts|;
    hide Ceiling, Sum;
    if |counts| < capacity {
      assert capacity * Ceiling(capacity, counts) == 0;
    }
  }

  /** After any tree of updates and merges over N items: every key that occurs more than
      N / capacity times is tracked, and no count is more than N / capacity above the truth. */
  lemma {:induction false} HeavyHittersTracked(capacity: nat, p: Plan, counts: Counts, k: int)
    requires capacity > 0 && Yields(capacity, p, counts)
    ensures capacity * Stream(p)[k] > |Stream(p)| ==> k in counts
    ensures k in counts ==> Stream(p)[k] <= counts[k] && capacity * (counts[k] - Stream(p)[k]) <= |Stream(p)|
  {
    hide *;
    var f := Stream(p);
    EveryPlanSound(capacity, p, counts);
    CeilingBound(capacity, f, counts);
    KeyBounds(capacity, f, counts, k);
    AtMostTimes(capacity, if k in counts then counts[k] - f[k] else f[k], Ceiling(capacity, counts));
  }

  lemma {:induction false} KeyBounds(capacity: nat, f: multiset<int>, counts: Counts, k: int)
    requires Sound(capacity, f, counts)
    ensures if k in counts then f[k] <= counts[k] <= f[k] + Ceiling(capacity, counts)
            else f[k] <= Ceiling(capacity, counts)
  {
    UpperBounds(capacity, f, counts, k);
    hide Ceiling, Sum;
  }

  lemma AtMostTimes(n: nat, x: int, y: int)
    requires x <= y
    ensures n * x <= n * y
  {
  }

  ghost predicate NoMerge(p: Plan) {
    match p
    case Fresh => true
    case Count(q, _) => NoMerge(q)
    case Merge(_, _) => false
  }

  /** Without merges the counts account for every item exactly. */
  lemma {:induction false} CountsConserveItems(capacity: nat, p: Plan, counts: Counts)
    requires capacity > 0 && Yields(capacity, p, counts) && NoMerge(p)
    ensures Sum(counts.Keys, counts, 0) == |Stream(p)|
  {
    hide Sum;
    match p
    case Fresh => assert counts.Keys == {}; SumEmpty(counts);
    case Count(q, v) =>
      var before :| Yields(capacity, q, before) && Updated(capacity, before, v, counts);
      CountsConserveItems(capacity, q, before);
      if v in before {
        SumSet(counts.Keys, before, v, before[v] + 1, counts);
        assert counts.Keys == before.Keys;
        SumRemove(before.Keys, before, 0, v);
      } else if |before| < capacity {
        SumSet(counts.Keys, before, v, 1, counts);
        assert counts.Keys - {v} == before.Keys;
      } else {
        var k :| Least(before, k) && counts == (before - {k})[v := before[k] + 1];
        EvictSum(before, v, k, before[k] + 1);
      }
  }

  lemma SumEmpty(counts: Counts)
    ensures Sum({}, counts, 0) == 0
  {
  }
}
