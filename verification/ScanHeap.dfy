/** The heap that finds keys by a linear scan: the simple form the indexed heap has to
    agree with, position by position. Keys have lawful equality. */
module ScanHeap {
  import opened Wrappers

  type Key = int

  datatype Item = Item(key: Key, count: int)

  // ---------------------------------------------------------------- sifting

  function Parent(i: nat): (p: nat)
    requires i > 0
    ensures p < i && (i == 2 * p + 1 || i == 2 * p + 2)
  {
    (i - 1) / 2
  }

  function Swap<T>(s: seq<T>, i: nat, j: nat): (t: seq<T>)
    requires i < |s| && j < |s|
    ensures |t| == |s| && t[i] == s[j] && t[j] == s[i]
    ensures forall n :: 0 <= n < |s| && n != i && n != j ==> t[n] == s[n]
  {
    s[i := s[j]][j := s[i]]
  }

  function BubbleUp(d: seq<Item>, i: nat): (e: seq<Item>)
    requires i < |d|
    ensures |e| == |d|
    decreases i
  {
    if i > 0 && d[i].count < d[Parent(i)].count then BubbleUp(Swap(d, Parent(i), i), Parent(i)) else d
  }

  /** The smaller child of `i`, if it is smaller than the entry at `i`; otherwise `i`. */
  function Target(d: seq<Item>, i: nat): (t: nat)
    requires i < |d|
    ensures i <= t < |d| && (t != i ==> Parent(t) == i && d[t].count < d[i].count)
    ensures forall c :: i < c < |d| && Parent(c) == i ==> d[t].count <= d[c].count
  {
    var left, right := 2 * i + 1, 2 * i + 2;
    var t := if left < |d| && d[left].count < d[i].count then left else i;
    if right < |d| && d[right].count < d[t].count then right else t
  }

  function BubbleDown(d: seq<Item>, i: nat): (e: seq<Item>)
    requires i < |d|
    ensures |e| == |d|
    decreases |d| - i
  {
    var t := Target(d, i);
    if t == i then d else BubbleDown(Swap(d, i, t), t)
  }

  /** Moves the entry at `i` down, or up if it cannot move down. */
  function Sift(d: seq<Item>, i: nat): (e: seq<Item>)
    requires i < |d|
    ensures |e| == |d|
  {
    if Target(d, i) == i then BubbleUp(d, i) else BubbleDown(d, i)
  }

  // ---------------------------------------------------------------- heap order

  ghost predicate Ordered(d: seq<Item>) {
    forall j :: 0 < j < |d| ==> d[Parent(j)].count <= d[j].count
  }

  /** Heap order holds at every pair but those around position `i`, and across it. */
  ghost predicate OrderedAround(d: seq<Item>, i: nat)
    requires i < |d|
  {
    && (forall j :: 0 < j < |d| && j != i && Parent(j) != i ==> d[Parent(j)].count <= d[j].count)
    && (i > 0 ==> forall j :: 0 < j < |d| && Parent(j) == i ==> d[Parent(i)].count <= d[j].count)
  }

  ghost predicate AboveChildren(d: seq<Item>, i: nat)
    requires i < |d|
  {
    forall j :: 0 < j < |d| && Parent(j) == i ==> d[i].count <= d[j].count
  }

  ghost predicate BelowParent(d: seq<Item>, i: nat)
    requires i < |d|
  {
    i > 0 ==> d[Parent(i)].count <= d[i].count
  }

  lemma {:induction false} BubbleUpOrders(d: seq<Item>, i: nat)
    requires i < |d| && OrderedAround(d, i) && AboveChildren(d, i)
    ensures Ordered(BubbleUp(d, i))
    decreases i
  {
    if i > 0 && d[i].count < d[Parent(i)].count {
      StepUp(d, i);
      BubbleUpOrders(Swap(d, Parent(i), i), Parent(i));
    }
  }

  lemma {:induction false} StepUp(d: seq<Item>, i: nat)
    requires 0 < i < |d| && OrderedAround(d, i) && AboveChildren(d, i) && d[i].count < d[Parent(i)].count
    ensures var e, p := Swap(d, Parent(i), i), Parent(i); OrderedAround(e, p) && AboveChildren(e, p)
  {
    var p := Parent(i);
    var e := Swap(d, p, i);
    forall j | 0 < j < |e| && j != p && Parent(j) != p ensures e[Parent(j)].count <= e[j].count {
      if Parent(j) == i {
        assert d[p].count <= d[j].count;
      }
    }
  }

  lemma {:induction false} BubbleDownOrders(d: seq<Item>, i: nat)
    requires i < |d| && OrderedAround(d, i) && BelowParent(d, i)
    ensures Ordered(BubbleDown(d, i))
    decreases |d| - i
  {
    var t := Target(d, i);
    if t != i {
      StepDown(d, i);
      BubbleDownOrders(Swap(d, i, t), t);
    }
  }

  lemma {:induction false} StepDown(d: seq<Item>, i: nat)
    requires i < |d| && OrderedAround(d, i) && BelowParent(d, i) && Target(d, i) != i
    ensures var t := Target(d, i); var e := Swap(d, i, t); OrderedAround(e, t) && BelowParent(e, t)
  {
    var t := Target(d, i);
    var e := Swap(d, i, t);
    forall j | 0 < j < |e| && j != t && Parent(j) != t ensures e[Parent(j)].count <= e[j].count {
      if j == i {
        assert d[Parent(i)].count <= d[t].count;
      }
    }
    forall j | 0 < j < |e| && Parent(j) == t ensures e[Parent(t)].count <= e[j].count {
      assert d[Parent(j)].count <= d[j].count;
    }
  }

  /** Sifting repairs a heap after any one count has changed. */
  lemma {:induction false} SiftOrders(d: seq<Item>, i: nat, count: int)
    requires i < |d| && Ordered(d)
    ensures Ordered(Sift(d[i := Item(d[i].key, count)], i))
  {
    var e := d[i := Item(d[i].key, count)];
    ChangeOne(d, i, Item(d[i].key, count));
    var t := Target(e, i);
    if t == i {
      BubbleUpOrders(e, i);
    } else {
      assert i > 0 ==> e[Parent(i)].count <= e[t].count;
      BubbleDownOrders(e, i);
    }
  }

  lemma {:induction false} ChangeOne(d: seq<Item>, i: nat, item: Item)
    requires i < |d| && Ordered(d)
    ensures OrderedAround(d[i := item], i)
  {
    var e := d[i := item];
    if i > 0 {
      forall j | 0 < j < |e| && Parent(j) == i ensures e[Parent(i)].count <= e[j].count {
        assert d[Parent(i)].count <= d[i].count <= d[j].count;
      }
    }
  }

  lemma {:induction false} ReplaceRootOrders(d: seq<Item>, item: Item)
    requires d != [] && Ordered(d)
    ensures Ordered(BubbleDown(d[0 := item], 0))
  {
    ChangeOne(d, 0, item);
    BubbleDownOrders(d[0 := item], 0);
  }

  lemma {:induction false} AppendOrders(d: seq<Item>, item: Item)
    requires Ordered(d)
    ensures Ordered(BubbleUp(d + [item], |d|))
  {
    BubbleUpOrders(d + [item], |d|);
  }

  /** The root has the least count. */
  lemma {:induction false} RootIsLeast(d: seq<Item>, i: nat)
    requires i < |d| && Ordered(d)
    ensures d[0].count <= d[i].count
    decreases i
  {
    if i > 0 {
      RootIsLeast(d, Parent(i));
    }
  }

  // ---------------------------------------------------------------- contents

  ghost predicate Unique(d: seq<Item>) {
    forall i, j :: 0 <= i < j < |d| ==> d[i].key != d[j].key
  }

  /** `e` holds the same items as `d`, and its keys are unique if those of `d` are. */
  ghost predicate Rearranged(d: seq<Item>, e: seq<Item>) {
    multiset(e) == multiset(d) && (Unique(d) ==> Unique(e))
  }

  lemma SwapRearranges(d: seq<Item>, i: nat, j: nat)
    requires i < |d| && j < |d|
    ensures Rearranged(d, Swap(d, i, j))
  {
  }

  lemma {:induction false} BubbleUpRearranges(d: seq<Item>, i: nat)
    requires i < |d|
    ensures Rearranged(d, BubbleUp(d, i))
    decreases i
  {
    if i > 0 && d[i].count < d[Parent(i)].count {
      SwapRearranges(d, Parent(i), i);
      BubbleUpRearranges(Swap(d, Parent(i), i), Parent(i));
    }
  }

  lemma {:induction false} BubbleDownRearranges(d: seq<Item>, i: nat)
    requires i < |d|
    ensures Rearranged(d, BubbleDown(d, i))
    decreases |d| - i
  {
    var t := Target(d, i);
    if t != i {
      SwapRearranges(d, i, t);
      BubbleDownRearranges(Swap(d, i, t), t);
    }
  }

  lemma {:induction false} SiftRearranges(d: seq<Item>, i: nat)
    requires i < |d|
    ensures Rearranged(d, Sift(d, i))
  {
    BubbleUpRearranges(d, i);
    BubbleDownRearranges(d, i);
  }

  // ---------------------------------------------------------------- updates

  /** The first position of `key`, by linear scan. */
  function Position(d: seq<Item>, key: Key): (r: Option<nat>)
    ensures r.Some? ==> r.value < |d| && d[r.value].key == key
    ensures r.None? <==> forall i :: 0 <= i < |d| ==> d[i].key != key
  {
    if d == [] then None
    else if d[|d| - 1].key == key && Position(d[..|d| - 1], key).None? then Some(|d| - 1)
    else Position(d[..|d| - 1], key)
  }

  /** One offer: the heap after it, and the answer, which is false if a new key found the heap full. */
  function ScanUpdate(d: seq<Item>, k: nat, key: Key, count: int): (seq<Item>, bool) {
    match Position(d, key)
    case Some(i) => (Sift(d[i := Item(key, count)], i), true)
    case None =>
      if |d| < k then (BubbleUp(d + [Item(key, count)], |d|), true)
      else if k == 0 || d == [] || count <= d[0].count then (d, false)
      else (BubbleDown(d[0 := Item(key, count)], 0), false)
  }

  // ---------------------------------------------------------------- what an update does

  lemma {:induction false} SameMembers(d: seq<Item>, e: seq<Item>)
    requires Rearranged(d, e)
    ensures |d| == |e| && forall x :: x in d <==> x in e
  {
    assert |multiset(d)| == |multiset(e)|;
    forall x ensures x in d <==> x in e {
      assert x in d <==> x in multiset(d);
    }
  }

  /** The list an update sifts, before it is sifted. */
  ghost function Unsifted(d: seq<Item>, k: nat, key: Key, count: int): seq<Item> {
    match Position(d, key)
    case Some(i) => d[i := Item(key, count)]
    case None =>
      if |d| < k then d + [Item(key, count)]
      else if k == 0 || d == [] || count <= d[0].count then d
      else d[0 := Item(key, count)]
  }

  lemma {:induction false} UpdateRearranges(d: seq<Item>, k: nat, key: Key, count: int)
    ensures Rearranged(Unsifted(d, k, key, count), ScanUpdate(d, k, key, count).0)
  {
    hide Rearranged;
    var e := Unsifted(d, k, key, count);
    match Position(d, key)
    case Some(i) => SiftRearranges(e, i);
    case None =>
      if |d| < k {
        BubbleUpRearranges(e, |d|);
      } else if k == 0 || d == [] || count <= d[0].count {
        Unchanged(d);
      } else {
        BubbleDownRearranges(e, 0);
      }
  }

  lemma Unchanged(d: seq<Item>)
    ensures Rearranged(d, d)
  {
  }

  /** Every update keeps heap order, unique keys and the capacity. */
  lemma {:induction false} UpdateKeepsHeap(d: seq<Item>, k: nat, key: Key, count: int)
    requires Ordered(d) && Unique(d) && |d| <= k
    ensures var e := ScanUpdate(d, k, key, count).0; Ordered(e) && Unique(e) && |e| <= k
  {
    UpdateRearranges(d, k, key, count);
    UnsiftedUnique(d, k, key, count);
    SameMembers(Unsifted(d, k, key, count), ScanUpdate(d, k, key, count).0);
    hide Ordered, Unique, Sift, BubbleUp, BubbleDown;
    match Position(d, key)
    case Some(i) => SiftOrders(d, i, count);
    case None =>
      if |d| < k {
        AppendOrders(d, Item(key, count));
      } else if k > 0 && d != [] && count > d[0].count {
        ReplaceRootOrders(d, Item(key, count));
      }
  }

  lemma UnsiftedUnique(d: seq<Item>, k: nat, key: Key, count: int)
    requires Unique(d)
    ensures Unique(Unsifted(d, k, key, count))
  {
  }

  ghost predicate HasKey(d: seq<Item>, key: Key) {
    exists i :: 0 <= i < |d| && d[i].key == key
  }

  /** A full heap turns away a new key that does not beat the root. */
  predicate Refuses(d: seq<Item>, k: nat, count: int) {
    |d| >= k && (k == 0 || d == [] || count <= d[0].count)
  }

  /** What one update does to the set of items. */
  ghost predicate Updated(d: seq<Item>, k: nat, key: Key, count: int, e: seq<Item>) {
    if HasKey(d, key) then
      |e| == |d| && forall x :: x in e <==> x == Item(key, count) || (x in d && x.key != key)
    else if |d| < k then
      |e| == |d| + 1 && forall x :: x in e <==> x == Item(key, count) || x in d
    else if Refuses(d, k, count) then e == d
    else |e| == |d| && forall x :: x in e <==> x == Item(key, count) || (x in d && x != d[0])
  }

  lemma {:induction false} UpdateUpdates(d: seq<Item>, k: nat, key: Key, count: int)
    requires Unique(d)
    ensures Updated(d, k, key, count, ScanUpdate(d, k, key, count).0)
  {
    UpdateRearranges(d, k, key, count);
    SameMembers(Unsifted(d, k, key, count), ScanUpdate(d, k, key, count).0);
    UnsiftedMembers(d, k, key, count);
    hide Unsifted, Rearranged, Unique, BubbleUp, BubbleDown, Sift;
  }

  lemma {:induction false} UnsiftedMembers(d: seq<Item>, k: nat, key: Key, count: int)
    requires Unique(d)
    ensures Updated(d, k, key, count, Unsifted(d, k, key, count))
  {
    var e := Unsifted(d, k, key, count);
    match Position(d, key)
    case Some(i) => ReplacedMembers(d, i, Item(key, count));
    case None =>
      if |d| >= k && !Refuses(d, k, count) {
        ReplacedMembers(d, 0, Item(key, count));
      }
  }

  lemma {:induction false} ReplacedMembers(d: seq<Item>, i: nat, item: Item)
    requires Unique(d) && i < |d|
    ensures forall x :: x in d[i := item] <==> x == item || (x in d && x.key != d[i].key)
    ensures forall x :: x in d && x.key == d[i].key ==> x == d[i]
  {
    var e := d[i := item];
    forall x ensures x in e <==> x == item || (x in d && x.key != d[i].key) {
      if x == item {
        assert e[i] == item;
      } else if x in d && x.key != d[i].key {
        var j :| 0 <= j < |d| && d[j] == x;
        assert e[j] == x;
      }
    }
  }

  /** A new key is turned away exactly if the heap is full and no resident counts less than it; otherwise,
      in a full heap, one that counts least makes room. */
  lemma {:induction false} TurnedAwayIff(d: seq<Item>, k: nat, key: Key, count: int)
    requires Ordered(d) && Unique(d) && |d| <= k && !HasKey(d, key)
    ensures var e := ScanUpdate(d, k, key, count).0;
            && (HasKey(e, key) <==> |d| < k || exists x :: x in d && x.count < count)
            && (!HasKey(e, key) ==> e == d)
            && (HasKey(e, key) && |d| == k ==>
                  exists out :: out in d && (forall x :: x in d ==> out.count <= x.count)
                                && forall x :: x in e <==> x == Item(key, count) || (x in d && x != out))
  {
    var e := ScanUpdate(d, k, key, count).0;
    UpdateUpdates(d, k, key, count);
    hide ScanUpdate, Ordered, Unique;
    forall x | x in d ensures d[0].count <= x.count {
      RootBelow(d, x);
    }
    assert Item(key, count) in e ==> HasKey(e, key);
    if |d| == k && d != [] && count > d[0].count {
      assert d[0] in d;
    }
  }

  lemma {:induction false} RootBelow(d: seq<Item>, x: Item)
    requires Ordered(d) && x in d
    ensures d[0].count <= x.count
  {
    var i :| 0 <= i < |d| && d[i] == x;
    RootIsLeast(d, i);
  }
}
