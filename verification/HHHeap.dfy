/** The indexed heap: a digest of each key leads to the heap positions it may be at. Every swap of a
    sift is passed on to the index; different keys may share a digest. */
module HHHeap {
  import opened ScanHeap
  import opened Wrappers

  type Digest = int

  type Index = map<Digest, seq<int>>

  // ---------------------------------------------------------------- index buckets

  ghost predicate NoDuplicates(bucket: seq<int>) {
    forall a, b :: 0 <= a < b < |bucket| ==> bucket[a] != bucket[b]
  }

  /** `bucket` lists exactly the positions with digest `g`, each once, leaving out `hole`. */
  ghost predicate Lists(slots: seq<Digest>, g: Digest, bucket: seq<int>, hole: int) {
    NoDuplicates(bucket) && forall p :: p in bucket <==> 0 <= p < |slots| && slots[p] == g && p != hole
  }

  /** The bucket of a digest; absent buckets count as empty. */
  function BucketOf(positions: Index, g: Digest): seq<int> {
    if g in positions then positions[g] else []
  }

  /** The buckets partition the positions other than `hole`, and none is empty. */
  ghost predicate Indexes(slots: seq<Digest>, positions: Index, hole: int) {
    && (forall g :: Lists(slots, g, BucketOf(positions, g), hole))
    && (forall g :: g in positions ==> positions[g] != [])
  }

  /** Where `idx` first occurs in a bucket. */
  method PositionIn(bucket: seq<int>, idx: nat) returns (at: Option<nat>)
    ensures at.Some? ==> at.value < |bucket| && bucket[at.value] == idx
    ensures at.None? ==> idx !in bucket
  {
    var i := 0;
    while i < |bucket|
      invariant i <= |bucket| && idx !in bucket[..i]
    {
      if bucket[i] == idx {
        return Some(i);
      }
      i := i + 1;
    }
    return None;
  }

  lemma {:induction false} RetargetLists(slots: seq<Digest>, g: Digest, bucket: seq<int>, a: nat, from: nat, to: nat)
    requires Lists(slots, g, bucket, -1) && a < |bucket| && bucket[a] == from
    requires from < |slots| && to < |slots| && slots[to] != g
    ensures Lists(Swap(slots, from, to), g, bucket[a := to], -1)
  {
    var t, b := Swap(slots, from, to), bucket[a := to];
    forall p ensures p in b <==> 0 <= p < |t| && t[p] == g {
      if p == to {
        assert b[a] == to;
      } else if p in bucket && p != from {
        var i :| 0 <= i < |bucket| && bucket[i] == p;
        assert b[i] == p;
      }
    }
  }

  /** A swap of two positions leaves the buckets of other digests alone. */
  lemma SwapListsOthers(slots: seq<Digest>, g: Digest, bucket: seq<int>, i: nat, j: nat)
    requires Lists(slots, g, bucket, -1) && i < |slots| && j < |slots| && slots[i] != g && slots[j] != g
    ensures Lists(Swap(slots, i, j), g, bucket, -1)
  {
  }

  /** Retargeting one entry in each of two buckets follows a swap of two positions. */
  lemma {:induction false} SwapIndexes(slots: seq<Digest>, positions: Index, i: nat, j: nat, a: nat, b: nat)
    requires i < |slots| && j < |slots| && slots[i] != slots[j] && Indexes(slots, positions, -1)
    requires a < |BucketOf(positions, slots[i])| && BucketOf(positions, slots[i])[a] == i
    requires b < |BucketOf(positions, slots[j])| && BucketOf(positions, slots[j])[b] == j
    ensures Indexes(Swap(slots, i, j), positions[slots[i] := positions[slots[i]][a := j]]
                                                [slots[j] := positions[slots[j]][b := i]], -1)
  {
    var left, right := slots[i], slots[j];
    var q := positions[left := positions[left][a := j]][right := positions[right][b := i]];
    assert Swap(slots, j, i) == Swap(slots, i, j);
    forall g ensures Lists(Swap(slots, i, j), g, BucketOf(q, g), -1) {
      assert Lists(slots, g, BucketOf(positions, g), -1);
      hide Lists, NoDuplicates;
      if g == left {
        RetargetLists(slots, g, positions[g], a, i, j);
      } else if g == right {
        RetargetLists(slots, g, positions[g], b, j, i);
      } else {
        SwapListsOthers(slots, g, BucketOf(positions, g), i, j);
      }
    }
  }

  /** Overwrites one entry with the last and drops the last. */
  function SwapRemove(bucket: seq<int>, at: nat): seq<int>
    requires at < |bucket|
  {
    bucket[at := bucket[|bucket| - 1]][..|bucket| - 1]
  }

  lemma {:induction false} SwapRemoveLists(slots: seq<Digest>, g: Digest, bucket: seq<int>, at: nat)
    requires Lists(slots, g, bucket, -1) && at < |bucket|
    ensures Lists(slots, g, SwapRemove(bucket, at), bucket[at])
  {
    var b, last := SwapRemove(bucket, at), |bucket| - 1;
    forall p ensures p in b <==> p in bucket && p != bucket[at] {
      if p in bucket && p != bucket[at] {
        var i :| 0 <= i < |bucket| && bucket[i] == p;
        assert b[if i == last then at else i] == p;
      }
    }
  }

  /** The index without one position; an emptied bucket is removed. */
  function Removed(positions: Index, g: Digest, at: nat): Index
    requires g in positions && at < |positions[g]|
  {
    var bucket := SwapRemove(positions[g], at);
    if bucket == [] then positions - {g} else positions[g := bucket]
  }

  lemma {:induction false} RemovedIndexes(slots: seq<Digest>, positions: Index, g: Digest, at: nat)
    requires Indexes(slots, positions, -1) && g in positions && at < |positions[g]|
    ensures Indexes(slots, Removed(positions, g, at), positions[g][at])
  {
    var idx, q := positions[g][at], Removed(positions, g, at);
    forall h ensures Lists(slots, h, BucketOf(q, h), idx) {
      assert Lists(slots, h, BucketOf(positions, h), -1) && Lists(slots, g, BucketOf(positions, g), -1);
      if h == g {
        SwapRemoveLists(slots, g, positions[g], at);
      }
    }
  }

  /** Where the index lists a position. */
  lemma {:induction false} Listed(slots: seq<Digest>, positions: Index, i: nat)
    requires i < |slots| && Indexes(slots, positions, -1)
    ensures slots[i] in positions && i in positions[slots[i]]
  {
    assert Lists(slots, slots[i], BucketOf(positions, slots[i]), -1);
  }

  /** Adding the missing position to its bucket completes the index. */
  lemma {:induction false} AddCompletes(slots: seq<Digest>, positions: Index, hole: nat)
    requires hole < |slots| && Indexes(slots, positions, hole)
    ensures Indexes(slots, positions[slots[hole] := BucketOf(positions, slots[hole]) + [hole]], -1)
  {
    var s := slots[hole];
    var q := positions[s := BucketOf(positions, s) + [hole]];
    forall g ensures Lists(slots, g, BucketOf(q, g), -1) {
      assert Lists(slots, g, BucketOf(positions, g), hole);
    }
  }

  // ---------------------------------------------------------------- the heap

  class HHHeap {
    const k: nat
    const digest: Key -> Digest
    var heap: seq<Item>
    var slots: seq<Digest>
    var positions: Index

    /** The digests and the index follow the heap. */
    ghost predicate Aligned()
      reads this
    {
      && |slots| == |heap| && (forall i :: 0 <= i < |heap| ==> slots[i] == digest(heap[i].key))
      && Indexes(slots, positions, -1)
    }

    ghost predicate Valid()
      reads this
    {
      Aligned() && Ordered(heap) && Unique(heap) && |heap| <= k
    }

    constructor (k: nat, digest: Key -> Digest)
      ensures Valid() && heap == [] && this.k == k && this.digest == digest
    {
      this.k := k;
      this.digest := digest;
      heap, slots, positions := [], [], map[];
    }

    method Clear()
      modifies this
      ensures Valid() && heap == []
    {
      heap, slots, positions := [], [], map[];
    }

    // -------------------------------------------------------------- index maintenance

    /** Moves position `from` of a digest's bucket to `to`; returns where in the bucket it was. */
    method Retarget(g: Digest, from: nat, to: nat) returns (at: Option<nat>)
      modifies this`positions
      ensures g in old(positions) && from in old(positions)[g] ==> at.Some?
      ensures at.None? ==> positions == old(positions)
      ensures at.Some? ==>
                g in old(positions) && at.value < |old(positions)[g]| && old(positions)[g][at.value] == from &&
                positions == old(positions)[g := old(positions)[g][at.value := to]]
    {
      at := None;
      if g in positions {
        at := PositionIn(positions[g], from);
        if at.Some? {
          positions := positions[g := positions[g][at.value := to]];
        }
      }
    }

    /** Makes the index agree with the heap again after two entries changed places. */
    method SwapEntry(i: nat, j: nat)
      requires i < |slots| && j < |slots| && Indexes(slots, positions, -1)
      modifies this`slots, this`positions
      ensures slots == Swap(old(slots), i, j) && Indexes(slots, positions, -1)
    {
      var left, right := slots[i], slots[j];
      if left == right {
        return;
      }
      ghost var before := positions;
      Listed(slots, positions, i);
      Listed(slots, positions, j);
      var a := Retarget(left, i, j);
      var b := Retarget(right, j, i);
      SwapIndexes(slots, before, i, j, a.value, b.value);
      slots := Swap(slots, i, j);
    }

    /** Takes position `idx` out of a digest's bucket, and the bucket out of the index once it is
        empty. */
    method DropEntry(g: Digest, idx: nat)
      requires idx < |slots| && slots[idx] == g && Indexes(slots, positions, -1)
      modifies this`positions
      ensures Indexes(slots, positions, idx)
    {
      hide Indexes, Removed;
      Listed(slots, positions, idx);
      if g in positions {
        var at := PositionIn(positions[g], idx);
        if at.Some? {
          RemovedIndexes(slots, positions, g, at.value);
          positions := Removed(positions, g, at.value);
        }
      }
    }

    /** Appends position `idx` to a digest's bucket. */
    method AddEntry(g: Digest, idx: nat)
      requires idx < |slots| && slots[idx] == g && Indexes(slots, positions, idx)
      modifies this`positions
      ensures Indexes(slots, positions, -1)
    {
      AddCompletes(slots, positions, idx);
      positions := positions[g := BucketOf(positions, g) + [idx]];
    }

    /** Rebuilds the digests and the index from the heap array. */
    method RebuildIndex()
      modifies this`slots, this`positions
      ensures Aligned()
    {
      slots, positions := [], map[];
      var idx := 0;
      while idx < |heap|
        invariant idx == |slots| <= |heap| && Indexes(slots, positions, -1)
        invariant forall i :: 0 <= i < idx ==> slots[i] == digest(heap[i].key)
      {
        var slot := digest(heap[idx].key);
        AppendHole(slots, positions, slot);
        slots := slots + [slot];
        AddEntry(slot, idx);
        idx := idx + 1;
      }
    }

    /** The resident with the given key, through the index. */
    method Lookup(slot: Digest, key: Key) returns (r: Option<nat>)
      requires Aligned() && Unique(heap) && slot == digest(key)
      ensures r == Position(heap, key)
    {
      if slot !in positions {
        NotListed(slots, positions, slot);
        return None;
      }
      var bucket, at := positions[slot], 0;
      assert Lists(slots, slot, BucketOf(positions, slot), -1);
      while at < |bucket|
        invariant at <= |bucket|
        invariant forall a :: 0 <= a < at ==> 0 <= bucket[a] < |heap| && heap[bucket[a]].key != key
      {
        assert bucket[at] in bucket;
        if heap[bucket[at]].key == key {
          OnlyPosition(heap, key, bucket[at]);
          return Some(bucket[at]);
        }
        at := at + 1;
      }
      forall i | 0 <= i < |heap| ensures heap[i].key != key {
        if slots[i] == slot {
          assert i in bucket;
        }
      }
      return None;
    }

    /** Finds a key: the index agrees with a linear scan. */
    method Find(key: Key) returns (r: Option<nat>)
      requires Valid()
      ensures r == Position(heap, key)
    {
      r := Lookup(digest(key), key);
    }

    // -------------------------------------------------------------- sifting

    /** One swap of the sift, reported to the index. */
    method SwapReported(i: nat, j: nat)
      requires i < |heap| && j < |heap| && Aligned()
      modifies this`heap, this`slots, this`positions
      ensures heap == Swap(old(heap), i, j) && Aligned()
    {
      hide Indexes;
      heap := Swap(heap, i, j);
      SwapEntry(i, j);
    }

    method BubbleUpWith(start: nat)
      requires start < |heap| && Aligned()
      modifies this`heap, this`slots, this`positions
      ensures heap == BubbleUp(old(heap), start) && Aligned()
    {
      hide Aligned;
      var idx := start;
      while idx > 0
        invariant 0 <= idx < |heap| && Aligned() && BubbleUp(heap, idx) == BubbleUp(old(heap), start)
      {
        var parent := Parent(idx);
        if heap[idx].count < heap[parent].count {
          SwapReported(parent, idx);
          idx := parent;
        } else {
          break;
        }
      }
    }

    /** Returns whether the entry moved. */
    method BubbleDownWith(start: nat) returns (moved: bool)
      requires start < |heap| && Aligned()
      modifies this`heap, this`slots, this`positions
      ensures heap == BubbleDown(old(heap), start) && Aligned()
      ensures moved <==> Target(old(heap), start) != start
    {
      hide Aligned;
      var idx := start;
      while idx < |heap|
        invariant start <= idx < |heap| && Aligned() && BubbleDown(heap, idx) == BubbleDown(old(heap), start)
        invariant idx == start ==> heap == old(heap)
        invariant idx != start ==> Target(old(heap), start) != start
        decreases |heap| - idx
      {
        var left, right, target := 2 * idx + 1, 2 * idx + 2, idx;
        if left < |heap| && heap[left].count < heap[target].count {
          target := left;
        }
        if right < |heap| && heap[right].count < heap[target].count {
          target := right;
        }
        if target == idx {
          break;
        }
        SwapReported(idx, target);
        idx := target;
      }
      moved := idx != start;
    }

    method UpdateAtWith(index: nat) returns (inRange: bool)
      requires Aligned()
      modifies this`heap, this`slots, this`positions
      ensures Aligned() && (inRange <==> index < |old(heap)|)
      ensures heap == if inRange then Sift(old(heap), index) else old(heap)
    {
      hide Aligned;
      if index >= |heap| {
        return false;
      }
      var moved := BubbleDownWith(index);
      if !moved {
        BubbleUpWith(index);
      }
      inRange := true;
    }

    // -------------------------------------------------------------- updates

    /** Replaces the count of a resident and restores the order. */
    method Rescore(idx: nat, count: int)
      requires idx < |heap| && Aligned()
      modifies this`heap, this`slots, this`positions
      ensures heap == Sift(old(heap)[idx := Item(old(heap)[idx].key, count)], idx) && Aligned()
    {
      hide Indexes;
      heap := heap[idx := heap[idx].(count := count)];
      var inRange := UpdateAtWith(idx);
    }

    /** Places an accepted key, in place of the root if the heap is full. */
    method Seat(key: Key, slot: Digest, count: int)
      requires Aligned() && slot == digest(key) && (|heap| < k || heap != [])
      modifies this`heap, this`slots, this`positions
      ensures Aligned()
      ensures heap == if |old(heap)| < k then BubbleUp(old(heap) + [Item(key, count)], |old(heap)|)
                      else BubbleDown(old(heap)[0 := Item(key, count)], 0)
    {
      hide Indexes;
      var item := Item(key, count);
      if |heap| < k {
        var idx := |heap|;
        AppendHole(slots, positions, slot);
        slots := slots + [slot];
        AddEntry(slot, idx);
        heap := heap + [item];
        BubbleUpWith(idx);
      } else {
        DropEntry(slots[0], 0);
        HoleIsFree(slots, positions, slot);
        slots := slots[0 := slot];
        AddEntry(slot, 0);
        heap := heap[0 := item];
        var moved := BubbleDownWith(0);
      }
    }

    method ShouldAcceptNew(count: int) returns (accept: bool)
      ensures accept <==> !Refuses(heap, k, count)
      ensures accept ==> |heap| < k || heap != []
    {
      if k == 0 {
        return false;
      }
      if |heap| < k {
        return true;
      }
      accept := heap != [] && count > heap[0].count;
    }

    /** Offers a key with a count: a resident is rescored, a new key admitted if there is room or it
        beats the root. The answer is false exactly if a new key found the heap full. */
    method Update(key: Key, count: int) returns (retainedEveryKey: bool)
      requires Valid()
      modifies this`heap, this`slots, this`positions
      ensures Valid() && (heap, retainedEveryKey) == ScanUpdate(old(heap), k, key, count)
    {
      hide Aligned, Ordered, Unique, Sift, BubbleUp, BubbleDown;
      UpdateKeepsHeap(heap, k, key, count);
      var slot := digest(key);
      var found := Lookup(slot, key);
      if found.Some? {
        Rescore(found.value, count);
        return true;
      }
      retainedEveryKey := |heap| < k;
      var accept := ShouldAcceptNew(count);
      if accept {
        Seat(key, slot, count);
      }
    }
  }

  /** With unique keys a position of a key is its only one. */
  lemma OnlyPosition(d: seq<Item>, key: Key, i: nat)
    requires Unique(d) && i < |d| && d[i].key == key
    ensures Position(d, key) == Some(i)
  {
  }

  lemma {:induction false} NotListed(slots: seq<Digest>, positions: Index, g: Digest)
    requires Indexes(slots, positions, -1) && g !in positions
    ensures forall i :: 0 <= i < |slots| ==> slots[i] != g
  {
    assert Lists(slots, g, BucketOf(positions, g), -1);
  }

  /** A digest appended to the list is missing from the index. */
  lemma {:induction false} AppendHole(slots: seq<Digest>, positions: Index, slot: Digest)
    requires Indexes(slots, positions, -1)
    ensures Indexes(slots + [slot], positions, |slots|)
  {
    var n := |slots|;
    forall g ensures Lists(slots + [slot], g, BucketOf(positions, g), n) {
      assert Lists(slots, g, BucketOf(positions, g), -1);
    }
  }

  /** What stands at a position missing from the index does not matter. */
  lemma {:induction false} HoleIsFree(slots: seq<Digest>, positions: Index, slot: Digest)
    requires slots != [] && Indexes(slots, positions, 0)
    ensures Indexes(slots[0 := slot], positions, 0)
  {
    forall g ensures Lists(slots[0 := slot], g, BucketOf(positions, g), 0) {
      assert Lists(slots, g, BucketOf(positions, g), 0);
    }
  }
}
