/** What CocoSketch and its OctoSketch worker have in common: a table whose buckets hold a key and a
    counter, in which a key may stand in one of `d` buckets. Keys are abstracted to integers. The random
    draws of an insert are given, and arbitrary. */
module CocoTable {
  import opened Wrappers

  type Key = int

  /** The bucket a key maps to in an array of the table. */
  type Placement = (nat, Key) -> nat

  function Home(place: Placement, i: nat, key: Key): nat {
    place(i, key)
  }

  /** With the given draw, `v` out of `val` wins a bucket. */
  predicate Wins(v: nat, val: nat, draw: real) {
    v as real > draw * val as real
  }

  /** A bucket of `val` is won with `v` by the draws from [0, 1] below `v / val`: never for nothing. */
  lemma {:induction false} WinningDraws(v: nat, val: nat, draw: real)
    requires v <= val && val > 0
    ensures Wins(v, val, draw) <==> draw < v as real / val as real
    ensures draw >= 0.0 && v == 0 ==> !Wins(v, val, draw)
  {
    var share, x := v as real / val as real, val as real;
    assert v as real == share * x;
    if draw < share {
      Times(draw, share, x);
    } else {
      TimesAtMost(share, draw, x);
    }
  }

  lemma Times(a: real, b: real, x: real)
    requires a < b && x > 0.0
    ensures a * x < b * x
  {
  }

  lemma TimesAtMost(a: real, b: real, x: real)
    requires a <= b && x > 0.0
    ensures a * x <= b * x
  {
  }

  /** What is drawn at random during one insert: for bucket `i` of the key, which of the `n` smallest so
      far to keep, 0 standing for that bucket; and for the election. */
  datatype Draws = Draws(tie: (nat, nat) -> nat, election: real) {
    ghost predicate Valid() {
      0.0 <= election <= 1.0 && forall i: nat, n: nat :: n > 0 ==> tie(i, n) < n
    }
  }

  ghost predicate HomesInRange(place: Placement, d: nat, n: nat) {
    forall i, key :: 0 <= i < d ==> Home(place, i, key) < n
  }

  /** The arrays of a table share no bucket. */
  ghost predicate HomesApart(place: Placement, d: nat) {
    forall i, j, key :: 0 <= i < j < d ==> Home(place, i, key) != Home(place, j, key)
  }

  ghost predicate IsHome(place: Placement, d: nat, key: Key, c: nat) {
    exists i: nat :: i < d && Home(place, i, key) == c
  }

  /** No key stands in two buckets, and each stands in one of its own. */
  ghost predicate SingleHome(place: Placement, d: nat, keys: seq<Option<Key>>) {
    && (forall c: nat :: c < |keys| && keys[c].Some? ==> IsHome(place, d, keys[c].value, c))
    && (forall a: nat, b: nat :: a < b < |keys| && keys[a].Some? ==> keys[a] != keys[b])
  }

  /** Only keyed buckets count anything. */
  ghost predicate Keyed(keys: seq<Option<Key>>, vals: seq<nat>) {
    |vals| == |keys| && forall c: nat :: c < |keys| && keys[c].None? ==> vals[c] == 0
  }

  /** Sum of the counters from `c` on. */
  ghost function MassFrom(vals: seq<nat>, c: nat): nat
    decreases |vals| - c
  {
    if c >= |vals| then 0 else vals[c] + MassFrom(vals, c + 1)
  }

  ghost function Mass(vals: seq<nat>): nat {
    MassFrom(vals, 0)
  }

  lemma {:induction false} MassUpdate(vals: seq<nat>, c: nat, x: nat, from: nat)
    requires c < |vals|
    ensures MassFrom(vals[c := x], from) == MassFrom(vals, from) + if from <= c then x - vals[c] else 0
    decreases |vals| - from
  {
    if from < |vals| {
      MassUpdate(vals, c, x, from + 1);
    }
  }

  lemma {:induction false} ZeroMass(vals: seq<nat>, c: nat)
    requires forall a :: 0 <= a < |vals| ==> vals[a] == 0
    ensures MassFrom(vals, c) == 0
    decreases |vals| - c
  {
    if c < |vals| {
      ZeroMass(vals, c + 1);
    }
  }

  /** The sum of the counters whose key satisfies a predicate. */
  ghost function MassWhere(keys: seq<Option<Key>>, vals: seq<nat>, p: Key -> bool, c: nat): nat
    requires |vals| == |keys|
    decreases |keys| - c
  {
    if c >= |keys| then 0
    else (if keys[c].Some? && p(keys[c].value) then vals[c] else 0) + MassWhere(keys, vals, p, c + 1)
  }

  /** How many of the first `i` buckets of a key count `x`. */
  ghost function Rank(place: Placement, vals: seq<nat>, key: Key, x: nat, i: nat): nat {
    if i == 0 then 0
    else
      var c := Home(place, i - 1, key);
      Rank(place, vals, key, x, i - 1) + if c < |vals| && vals[c] == x then 1 else 0
  }

  /** Whether bucket `j` of a key is kept when it is the n-th that counts as little as `x`. */
  ghost predicate Kept(place: Placement, vals: seq<nat>, key: Key, draws: Draws, x: nat, j: nat) {
    var n := Rank(place, vals, key, x, j + 1);
    n == 1 || draws.tie(j, n) == 0
  }

  /** Bucket `at` of a key is a smallest one of its first `i`, and the last of these that was kept. */
  ghost predicate PickedAt(place: Placement, vals: seq<nat>, key: Key, i: nat, draws: Draws, at: nat) {
    && at < i && Home(place, at, key) < |vals|
    && var x := vals[Home(place, at, key)];
       && (forall j: nat :: j < i && Home(place, j, key) < |vals| ==> x <= vals[Home(place, j, key)])
       && Kept(place, vals, key, draws, x, at)
       && forall j: nat :: at < j < i && Home(place, j, key) < |vals| && vals[Home(place, j, key)] == x ==>
            !Kept(place, vals, key, draws, x, j)
  }

  ghost predicate Picked(place: Placement, vals: seq<nat>, key: Key, i: nat, draws: Draws, victim: nat) {
    exists at: nat :: PickedAt(place, vals, key, i, draws, at) && Home(place, at, key) == victim
  }

  /** What recording `v` more occurrences of a key does. A resident key takes them; otherwise the
      smallest one of the key's buckets that the draws pick does, and changes hands if it is empty or the
      election is won. */
  ghost predicate InsertedAt(place: Placement, d: nat, keys: seq<Option<Key>>, vals: seq<nat>, key: Key, v: nat,
                             draws: Draws, keys1: seq<Option<Key>>, vals1: seq<nat>, c: nat)
  {
    && |keys| == |vals| == |keys1| == |vals1| && c < |keys| && IsHome(place, d, key, c)
    && vals1 == vals[c := vals[c] + v]
    && if Some(key) in keys then keys1 == keys && keys[c] == Some(key)
       else
         && Picked(place, vals, key, d, draws, c)
         && keys1 == if keys[c].None? || Wins(v, vals[c] + v, draws.election) then keys[c := Some(key)] else keys
  }

  /** Recording keeps every key single and at home, every counter keyed, and adds exactly `v`. */
  lemma {:induction false} InsertedKeeps(place: Placement, d: nat, keys: seq<Option<Key>>, vals: seq<nat>,
                                         key: Key, v: nat, draws: Draws,
                                         keys1: seq<Option<Key>>, vals1: seq<nat>, c: nat)
    requires SingleHome(place, d, keys) && Keyed(keys, vals)
    requires InsertedAt(place, d, keys, vals, key, v, draws, keys1, vals1, c)
    ensures SingleHome(place, d, keys1) && Keyed(keys1, vals1) && Mass(vals1) == Mass(vals) + v
    ensures forall x :: Some(x) in keys1 ==> x == key || Some(x) in keys
  {
    MassUpdate(vals, c, vals[c] + v, 0);
    hide MassFrom, IsHome, Picked, Wins;
    if keys1 != keys {
      forall a: nat | a < |keys| ensures keys[a] != Some(key) {
        assert keys[a] in keys;
      }
    }
  }

  /** None of the first `i` buckets of a key holds it. */
  ghost predicate Absent(place: Placement, keys: seq<Option<Key>>, key: Key, i: nat) {
    forall j: nat :: j < i && Home(place, j, key) < |keys| ==> keys[Home(place, j, key)] != Some(key)
  }

  /** A key that is in none of its buckets is nowhere in the table. */
  lemma {:induction false} NotResident(place: Placement, d: nat, keys: seq<Option<Key>>, key: Key)
    requires SingleHome(place, d, keys) && Absent(place, keys, key, d)
    ensures Some(key) !in keys
  {
    forall c: nat | c < |keys| ensures keys[c] != Some(key) {
      if keys[c].Some? {
        var i: nat :| i < d && Home(place, i, keys[c].value) == c;
      }
    }
  }

  // ---------------------------------------------------------------- the scan

  lemma {:induction false} RankNone(place: Placement, vals: seq<nat>, key: Key, x: nat, i: nat)
    requires forall j: nat :: j < i && Home(place, j, key) < |vals| ==> vals[Home(place, j, key)] > x
    ensures Rank(place, vals, key, x, i) == 0
  {
    if i > 0 {
      RankNone(place, vals, key, x, i - 1);
    }
  }

  /** One more bucket. It becomes the victim if it is smaller than the one so far, or as small and drawn. */
  lemma {:induction false} PickedNext(place: Placement, vals: seq<nat>, key: Key, i: nat, draws: Draws,
                                      victim: nat, next: nat)
    requires Home(place, i, key) < |vals| && (i == 0 || (victim < |vals| && Picked(place, vals, key, i, draws, victim)))
    requires var c := Home(place, i, key);
             next == if i == 0 || vals[c] < vals[victim] then c
                     else if vals[c] == vals[victim]
                          && draws.tie(i, Rank(place, vals, key, vals[victim], i) + 1) == 0 then c
                     else victim
    ensures Picked(place, vals, key, i + 1, draws, next)
  {
    var c := Home(place, i, key);
    if i == 0 || vals[c] < vals[victim] {
      RankNone(place, vals, key, vals[c], i);
      assert PickedAt(place, vals, key, i + 1, draws, i);
    } else {
      var at: nat :| PickedAt(place, vals, key, i, draws, at) && Home(place, at, key) == victim;
      if next == c && vals[c] == vals[victim]
         && draws.tie(i, Rank(place, vals, key, vals[victim], i) + 1) == 0 {
        assert PickedAt(place, vals, key, i + 1, draws, i);
      } else {
        KeptNot(place, vals, key, draws, i, at);
        assert PickedAt(place, vals, key, i + 1, draws, at);
      }
    }
  }

  /** A bucket as small as an earlier one is not the first of its kind. */
  lemma {:induction false} KeptNot(place: Placement, vals: seq<nat>, key: Key, draws: Draws, i: nat, at: nat)
    requires at < i && Home(place, i, key) < |vals| && Home(place, at, key) < |vals|
    requires vals[Home(place, at, key)] == vals[Home(place, i, key)]
             ==> draws.tie(i, Rank(place, vals, key, vals[Home(place, at, key)], i) + 1) != 0
    ensures vals[Home(place, at, key)] == vals[Home(place, i, key)]
            ==> !Kept(place, vals, key, draws, vals[Home(place, at, key)], i)
  {
    RankGrows(place, vals, key, vals[Home(place, at, key)], at + 1, i);
  }

  lemma {:induction false} RankGrows(place: Placement, vals: seq<nat>, key: Key, x: nat, i: nat, j: nat)
    requires i <= j
    ensures Rank(place, vals, key, x, i) <= Rank(place, vals, key, x, j)
    decreases j
  {
    if i < j {
      RankGrows(place, vals, key, x, i, j - 1);
    }
  }

  lemma PickedIsHome(place: Placement, vals: seq<nat>, key: Key, d: nat, draws: Draws, victim: nat)
    requires Picked(place, vals, key, d, draws, victim)
    ensures IsHome(place, d, key, victim) && victim < |vals|
    ensures forall j: nat :: j < d && Home(place, j, key) < |vals| ==> vals[victim] <= vals[Home(place, j, key)]
  {
  }

  /** A bucket smaller than all before it is the first of its kind. */
  lemma {:induction false} RankFirst(place: Placement, vals: seq<nat>, key: Key, i: nat, draws: Draws, victim: nat)
    requires Home(place, i, key) < |vals|
    requires i > 0 ==> Picked(place, vals, key, i, draws, victim)
    ensures i == 0 || (victim < |vals| && vals[Home(place, i, key)] < vals[victim]) ==>
              Rank(place, vals, key, vals[Home(place, i, key)], i + 1) == 1
  {
    if i > 0 {
      PickedIsHome(place, vals, key, i, draws, victim);
    }
    if i == 0 || vals[Home(place, i, key)] < vals[victim] {
      RankNone(place, vals, key, vals[Home(place, i, key)], i);
    }
  }

  /** A resident found in one of its buckets stands nowhere else. */
  lemma {:induction false} ResidentAt(place: Placement, d: nat, keys: seq<Option<Key>>, vals: seq<nat>, key: Key,
                                      v: nat, draws: Draws, c: nat)
    requires c < |keys| == |vals| && keys[c] == Some(key) && IsHome(place, d, key, c)
    ensures InsertedAt(place, d, keys, vals, key, v, draws, keys, vals[c := vals[c] + v], c)
  {
    assert keys[c] in keys;
  }

  /** A key that is not resident goes to the bucket picked. */
  lemma {:induction false} VictimAt(place: Placement, d: nat, keys: seq<Option<Key>>, vals: seq<nat>, key: Key,
                                    v: nat, draws: Draws, victim: nat, elected: bool)
    requires |vals| == |keys| && Picked(place, vals, key, d, draws, victim) && victim < |keys| && Some(key) !in keys
    requires elected <==> keys[victim].None? || Wins(v, vals[victim] + v, draws.election)
    ensures InsertedAt(place, d, keys, vals, key, v, draws, if elected then keys[victim := Some(key)] else keys,
                       vals[victim := vals[victim] + v], victim)
  {
    PickedIsHome(place, vals, key, d, draws, victim);
    hide Picked, Wins;
  }

  // ---------------------------------------------------------------- sums over keys

  lemma {:induction false} MassWhereNone(keys: seq<Option<Key>>, vals: seq<nat>, p: Key -> bool, c: nat)
    requires |vals| == |keys| && forall a: nat :: c <= a < |keys| && keys[a].Some? ==> !p(keys[a].value)
    ensures MassWhere(keys, vals, p, c) == 0
    decreases |keys| - c
  {
    if c < |keys| {
      MassWhereNone(keys, vals, p, c + 1);
    }
  }

  /** Only bucket `at` holds a key that satisfies the predicate. */
  lemma {:induction false} MassWhereOne(keys: seq<Option<Key>>, vals: seq<nat>, p: Key -> bool, c: nat, at: nat)
    requires |vals| == |keys| && c <= at < |keys| && keys[at].Some? && p(keys[at].value)
    requires forall a: nat :: a < |keys| && a != at && keys[a].Some? ==> !p(keys[a].value)
    ensures MassWhere(keys, vals, p, c) == vals[at]
    decreases |keys| - c
  {
    if c < at {
      MassWhereOne(keys, vals, p, c + 1, at);
    } else {
      MassWhereNone(keys, vals, p, c + 1);
    }
  }

  function Is(key: Key): Key -> bool {
    x => x == key
  }

  // ---------------------------------------------------------------- merging

  datatype Table = Table(keys: seq<Option<Key>>, vals: seq<nat>)

  /** What a table counts for a key. */
  ghost function Counted(t: Table, key: Key): nat
    requires |t.vals| == |t.keys|
  {
    MassWhere(t.keys, t.vals, Is(key), 0)
  }

  /** What merging bucket `c` of another table does: its key, if it has one, is recorded with its count. */
  ghost predicate MergeStep(place: Placement, d: nat, was: Table, now: Table, other: Table, c: nat, draws: Draws)
    requires c < |other.keys| == |other.vals|
  {
    if other.keys[c].None? then now == was
    else exists at: nat :: InsertedAt(place, d, was.keys, was.vals, other.keys[c].value, other.vals[c], draws,
                                      now.keys, now.vals, at)
  }

  /** `steps` are the tables on the way from one table to the result of merging `other` into it. */
  ghost predicate MergeSteps(place: Placement, d: nat, steps: seq<Table>, other: Table, draws: nat -> Draws) {
    && |other.keys| == |other.vals| && |steps| == |other.keys| + 1
    && forall c: nat :: c < |other.keys| ==> MergeStep(place, d, steps[c], steps[c + 1], other, c, draws(c))
  }

  ghost predicate Sound(place: Placement, d: nat, t: Table) {
    SingleHome(place, d, t.keys) && Keyed(t.keys, t.vals)
  }

  /** The key is in one of the tables. */
  ghost predicate Occurs(was: Table, other: Table, key: Key) {
    Some(key) in was.keys || Some(key) in other.keys
  }

  /** No two keys of the two tables share a bucket. */
  ghost predicate NoCompetition(place: Placement, d: nat, was: Table, other: Table) {
    forall x, y, c: nat ::
      Occurs(was, other, x) && Occurs(was, other, y) && IsHome(place, d, x, c) && IsHome(place, d, y, c) ==> x == y
  }

  lemma {:induction false} MassWhereBump(keys: seq<Option<Key>>, vals: seq<nat>, p: Key -> bool, from: nat,
                                         c: nat, v: nat)
    requires |vals| == |keys| && c < |keys| && keys[c].Some?
    ensures MassWhere(keys, vals[c := vals[c] + v], p, from)
         == MassWhere(keys, vals, p, from) + if from <= c && p(keys[c].value) then v else 0
    decreases |keys| - from
  {
    if from < |keys| {
      MassWhereBump(keys, vals, p, from + 1, c, v);
    }
  }

  lemma {:induction false} MassWhereSeat(keys: seq<Option<Key>>, vals: seq<nat>, p: Key -> bool, from: nat,
                                         c: nat, key: Key, v: nat)
    requires |vals| == |keys| && c < |keys| && keys[c].None? && vals[c] == 0
    ensures MassWhere(keys[c := Some(key)], vals[c := v], p, from)
         == MassWhere(keys, vals, p, from) + if from <= c && p(key) then v else 0
    decreases |keys| - from
  {
    if from < |keys| {
      MassWhereSeat(keys, vals, p, from + 1, c, key, v);
    }
  }

  /** Where keys do not compete, a merged bucket is added to its key and to no other. */
  lemma {:induction false} MergeStepAdds(place: Placement, d: nat, start: Table, was: Table, now: Table,
                                         other: Table, c: nat, draws: Draws)
    requires Sound(place, d, was) && NoCompetition(place, d, start, other) && c < |other.keys| == |other.vals|
    requires forall x :: Some(x) in was.keys ==> Occurs(start, other, x)
    requires MergeStep(place, d, was, now, other, c, draws)
    ensures Sound(place, d, now) && forall x :: Some(x) in now.keys ==> Occurs(start, other, x)
    ensures forall x :: Counted(now, x)
                     == Counted(was, x) + if other.keys[c] == Some(x) then other.vals[c] else 0
  {
    hide MassWhere, IsHome, Picked, Wins;
    if other.keys[c].Some? {
      var key, v := other.keys[c].value, other.vals[c];
      assert other.keys[c] in other.keys && Occurs(start, other, key);
      var at: nat :| InsertedAt(place, d, was.keys, was.vals, key, v, draws, now.keys, now.vals, at);
      InsertedKeeps(place, d, was.keys, was.vals, key, v, draws, now.keys, now.vals, at);
      if was.keys[at].Some? {
        assert was.keys[at] == Some(was.keys[at].value) && was.keys[at] in was.keys;
        assert was.keys[at].value == key;
        forall x ensures Counted(now, x) == Counted(was, x) + if key == x then v else 0 {
          MassWhereBump(was.keys, was.vals, Is(x), 0, at, v);
        }
      } else {
        forall x ensures Counted(now, x) == Counted(was, x) + if key == x then v else 0 {
          MassWhereSeat(was.keys, was.vals, Is(x), 0, at, key, v);
        }
      }
    }
  }

  /** Main result: merging tables whose keys do not compete for buckets adds up what they count, key by
      key, whatever is drawn. */
  lemma {:induction false} MergeAdds(place: Placement, d: nat, steps: seq<Table>, other: Table,
                                     draws: nat -> Draws, n: nat, key: Key)
    requires MergeSteps(place, d, steps, other, draws) && n <= |other.keys|
    requires Sound(place, d, steps[0]) && NoCompetition(place, d, steps[0], other)
    ensures Sound(place, d, steps[n]) && forall x :: Some(x) in steps[n].keys ==> Occurs(steps[0], other, x)
    ensures Counted(steps[n], key) + MassWhere(other.keys, other.vals, Is(key), n)
         == Counted(steps[0], key) + Counted(other, key)
  {
    hide MergeStep, Sound, NoCompetition, Occurs;
    if n == 0 {
      StartOccurs(steps[0], other);
    } else {
      MergeAdds(place, d, steps, other, draws, n - 1, key);
      MergeStepAdds(place, d, steps[0], steps[n - 1], steps[n], other, n - 1, draws(n - 1));
      SoundShape(place, d, steps[n]);
      SoundShape(place, d, steps[n - 1]);
      MassWhereNext(other.keys, other.vals, key, n - 1);
      hide MassWhere;
    }
  }

  lemma StartOccurs(was: Table, other: Table)
    ensures forall x :: Some(x) in was.keys ==> Occurs(was, other, x)
  {
  }

  lemma SoundShape(place: Placement, d: nat, t: Table)
    requires Sound(place, d, t)
    ensures |t.vals| == |t.keys|
  {
  }

  lemma MassWhereNext(keys: seq<Option<Key>>, vals: seq<nat>, key: Key, c: nat)
    requires c < |keys| == |vals|
    ensures MassWhere(keys, vals, Is(key), c)
         == MassWhere(keys, vals, Is(key), c + 1) + if keys[c] == Some(key) then vals[c] else 0
  {
  }
}
