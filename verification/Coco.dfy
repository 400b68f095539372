/** CocoSketch: a table of keyed counters that conserves mass while keys compete for buckets. */
module Coco {
  import opened Choice
  import opened CocoTable
  import opened Wrappers

  datatype CocoBucket = CocoBucket(fullKey: Option<Key>, val: nat)

  function Keys(t: seq<CocoBucket>): (k: seq<Option<Key>>)
    ensures |k| == |t| && forall c :: 0 <= c < |t| ==> k[c] == t[c].fullKey
  {
    seq(|t|, c requires 0 <= c < |t| => t[c].fullKey)
  }

  function Vals(t: seq<CocoBucket>): (v: seq<nat>)
    ensures |v| == |t| && forall c :: 0 <= c < |t| ==> v[c] == t[c].val
  {
    seq(|t|, c requires 0 <= c < |t| => t[c].val)
  }

  class Coco {
    const w: nat
    const d: nat
    const place: Placement
    const table: array<CocoBucket>

    ghost predicate Valid()
      reads table
    {
      && (d > 0 && w > 0 ==> HomesInRange(place, d, table.Length)) && HomesApart(place, d)
      && SingleHome(place, d, Keys(table[..])) && Keyed(Keys(table[..]), Vals(table[..]))
      && (d == 0 || w == 0 ==> table.Length == 0)
    }

    constructor (w: nat, d: nat, place: Placement)
      requires d > 0 && w > 0 ==> HomesInRange(place, d, w * d)
      requires HomesApart(place, d)
      ensures Valid() && fresh(table) && table.Length == w * d
      ensures this.w == w && this.d == d && this.place == place
      ensures Mass(Vals(table[..])) == 0
    {
      this.w, this.d, this.place := w, d, place;
      table := new CocoBucket[w * d](_ => CocoBucket(None, 0));
      new;
      ZeroMass(Vals(table[..]), 0);
    }

    /** Looks for a key in its buckets: the bucket that holds it, or the smallest one the draws pick. */
    method Scan(key: Key, draws: Draws) returns (resident: bool, cell: nat)
      requires d > 0 && HomesInRange(place, d, table.Length)
      ensures cell < table.Length
      ensures resident ==> table[cell].fullKey == Some(key) && IsHome(place, d, key, cell)
      ensures !resident ==>
                Picked(place, Vals(table[..]), key, d, draws, cell) && Absent(place, Keys(table[..]), key, d)
    {
      hide Picked;
      ghost var vals := Vals(table[..]);
      var victim, victimVal, tied := 0, 0, 0;
      var i := 0;
      while i < d
        invariant 0 <= i <= d && Absent(place, Keys(table[..]), key, i)
        invariant i > 0 ==>
                    && victim < |vals| && victimVal == vals[victim]
                    && Picked(place, vals, key, i, draws, victim) && tied == Rank(place, vals, key, victimVal, i)
      {
        var idx := Home(place, i, key);
        ghost var was := victim;
        if table[idx].fullKey == Some(key) {
          return true, idx;
        }
        if i == 0 || table[idx].val < victimVal {
          RankFirst(place, vals, key, i, draws, was);
          victimVal, victim, tied := table[idx].val, idx, 1;
        } else if table[idx].val == victimVal {
          tied := tied + 1;
          if draws.tie(i, tied) == 0 {
            victim := idx;
          }
        }
        PickedNext(place, vals, key, i, draws, was, victim);
        i := i + 1;
      }
      return false, victim;
    }

    /** Adds `v` to a key, or to a smallest one of its buckets, which may then change hands. */
    method Insert(key: Key, v: nat, draws: Draws)
      requires Valid() && draws.Valid()
      modifies table
      ensures Valid()
      ensures d == 0 || w == 0 ==> table[..] == old(table[..])
      ensures d > 0 && w > 0 ==>
                exists c :: InsertedAt(place, d, old(Keys(table[..])), old(Vals(table[..])), key, v, draws,
                                       Keys(table[..]), Vals(table[..]), c)
      ensures Mass(Vals(table[..])) == old(Mass(Vals(table[..]))) + if d > 0 && w > 0 then v else 0
      ensures forall x :: Some(x) in Keys(table[..]) ==> x == key || Some(x) in old(Keys(table[..]))
    {
      hide SingleHome, Keyed, Picked, HomesApart, InsertedAt, IsHome, Absent, Wins;
      if d == 0 || w == 0 {
        return;
      }
      ghost var keys, vals := Keys(table[..]), Vals(table[..]);
      var resident, cell := Scan(key, draws);
      var elected := !resident;
      table[cell] := table[cell].(val := table[cell].val + v);
      if resident {
        ResidentAt(place, d, keys, vals, key, v, draws, cell);
      } else {
        NotResident(place, d, keys, key);
        if table[cell].fullKey.Some? {
          elected := Wins(v, table[cell].val, draws.election);
        }
        VictimAt(place, d, keys, vals, key, v, draws, cell, elected);
      }
      ghost var keys1, vals1 := if elected then keys[cell := Some(key)] else keys, vals[cell := vals[cell] + v];
      InsertedKeeps(place, d, keys, vals, key, v, draws, keys1, vals1, cell);
      if elected {
        table[cell] := table[cell].(fullKey := Some(key));
      }
      assert Keys(table[..]) == keys1 && Vals(table[..]) == vals1;
    }

    /** Estimate of a key: the sum of its buckets that hold it. */
    method EstimateKey(key: Key) returns (total: nat)
      requires Valid()
      ensures total == MassWhere(Keys(table[..]), Vals(table[..]), Is(key), 0)
    {
      hide Keyed, MassWhere;
      ghost var keys, vals := Keys(table[..]), Vals(table[..]);
      if d == 0 || w == 0 {
        EstimateIs(place, d, keys, vals, key, 0);
        return 0;
      }
      total := 0;
      var i := 0;
      while i < d
        invariant 0 <= i <= d && total == RowSum(place, keys, vals, key, i)
      {
        var idx := Home(place, i, key);
        if table[idx].fullKey == Some(key) {
          total := total + table[idx].val;
        }
        i := i + 1;
      }
      EstimateIs(place, d, keys, vals, key, total);
    }

    /** Every recorded flow with its estimated size. */
    method RecordedFlows() returns (flows: seq<(Key, nat)>)
      requires Valid()
      ensures flows == Flows(Keys(table[..]), Vals(table[..]), table.Length)
      ensures ListedOnce(flows)
    {
      hide Keyed, HomesApart;
      flows := [];
      var c := 0;
      while c < table.Length
        invariant 0 <= c <= table.Length && flows == Flows(Keys(table[..]), Vals(table[..]), c)
      {
        if table[c].fullKey.Some? {
          flows := flows + [(table[c].fullKey.value, table[c].val)];
        }
        c := c + 1;
      }
      FlowsDistinct(place, d, Keys(table[..]), Vals(table[..]), c);
    }

    /** Sums the flows that have the same projection. */
    method GroupBy(project: Key -> Key) returns (groups: map<Key, nat>)
      requires Valid()
      ensures forall g :: Size(groups, g) == MassWhere(Keys(table[..]), Vals(table[..]), InGroup(project, g), 0)
      ensures forall g :: g in groups <==> exists x :: Some(x) in Keys(table[..]) && project(x) == g
    {
      hide Keyed, HomesApart, SingleHome, MassWhere, Flows, FlowSum, InGroup;
      var flows := RecordedFlows();
      ghost var keys, vals := Keys(table[..]), Vals(table[..]);
      groups := map[];
      NoGroups(groups, flows, project);
      var n := 0;
      while n < |flows|
        invariant 0 <= n <= |flows|
        invariant Grouped(groups, flows, n, project)
        invariant forall g :: g in groups <==> exists a :: 0 <= a < n && project(flows[a].0) == g
      {
        var (full, val) := flows[n];
        var g := project(full);
        GroupNext(groups, flows, n, project);
        groups := groups[g := Size(groups, g) + val];
        n := n + 1;
      }
      assert flows[..n] == flows;
      forall g ensures Size(groups, g) == MassWhere(keys, vals, InGroup(project, g), 0) {
        FlowsSum(keys, vals, project, g, |keys|);
        MassSplit(keys, vals, InGroup(project, g), |keys|);
      }
      forall g ensures g in groups <==> exists x :: Some(x) in keys && project(x) == g {
        FlowsKeys(keys, vals, project, g, |keys|);
        KeyAmong(keys, project, g);
      }
    }

    ghost function Contents(): (t: Table)
      reads table
      ensures |t.keys| == |t.vals| == table.Length
    {
      Table(Keys(table[..]), Vals(table[..]))
    }

    /** Records the flows of another table, one after the other, each with its own key and count. */
    method Merge(other: Coco, draws: nat -> Draws)
      requires Valid() && other.Valid() && other != this && other.table != table
      requires d == other.d && w == other.w && table.Length == other.table.Length
      requires forall c: nat :: draws(c).Valid()
      modifies table
      ensures Valid()
      ensures exists steps :: MergeSteps(place, d, steps, other.Contents(), draws)
                              && steps[0] == old(Contents()) && steps[other.table.Length] == Contents()
      ensures NoCompetition(place, d, old(Contents()), other.Contents()) ==>
                forall x :: Counted(Contents(), x) == Counted(old(Contents()), x) + Counted(other.Contents(), x)
      ensures Mass(Vals(table[..])) == old(Mass(Vals(table[..]))) + Mass(Vals(other.table[..]))
      ensures forall x :: Some(x) in Keys(table[..]) ==>
                  Some(x) in old(Keys(table[..])) || Some(x) in Keys(other.table[..])
    {
      hide HomesApart, SingleHome, InsertedAt, MergeStep, NoCompetition;
      ghost var from := other.Contents();
      ghost var keys, vals := from.keys, from.vals;
      ghost var steps := [Contents()];
      var c := 0;
      while c < other.table.Length
        invariant 0 <= c <= other.table.Length && Valid() && other.table[..] == old(other.table[..])
        invariant Mass(Vals(table[..])) + MassFrom(vals, c) == old(Mass(Vals(table[..]))) + Mass(vals)
        invariant forall x :: Some(x) in Keys(table[..]) ==> Some(x) in old(Keys(table[..])) || Some(x) in keys
        invariant |steps| == c + 1 && steps[0] == old(Contents()) && steps[c] == Contents()
        invariant forall i: nat :: i < c ==> MergeStep(place, d, steps[i], steps[i + 1], from, i, draws(i))
      {
        assert keys[c] in keys;
        ghost var was := Contents();
        if other.table[c].fullKey.Some? {
          Insert(other.table[c].fullKey.value, other.table[c].val, draws(c));
        }
        steps := steps + [Contents()];
        MergeStepIs(place, d, was, Contents(), from, c, draws(c));
        c := c + 1;
      }
      assert MergeSteps(place, d, steps, from, draws);
      if NoCompetition(place, d, old(Contents()), from) {
        forall x ensures Counted(Contents(), x) == Counted(old(Contents()), x) + Counted(from, x) {
          MergeAdds(place, d, steps, from, draws, c, x);
        }
      }
    }
  }

  lemma MergeStepIs(place: Placement, d: nat, was: Table, now: Table, other: Table, c: nat, draws: Draws)
    requires c < |other.keys| == |other.vals|
    requires other.keys[c].None? ==> now == was
    requires other.keys[c].Some? ==>
               exists at: nat :: InsertedAt(place, d, was.keys, was.vals, other.keys[c].value, other.vals[c], draws,
                                            now.keys, now.vals, at)
    ensures MergeStep(place, d, was, now, other, c, draws)
  {
  }

  // ---------------------------------------------------------------- what the queries sum

  /** The first `i` buckets of a key, as far as they hold it. */
  ghost function RowSum(place: Placement, keys: seq<Option<Key>>, vals: seq<nat>, key: Key, i: nat): nat
    requires |vals| == |keys|
  {
    if i == 0 then 0
    else
      var c := Home(place, i - 1, key);
      RowSum(place, keys, vals, key, i - 1) + if c < |keys| && keys[c] == Some(key) then vals[c] else 0
  }

  lemma {:induction false} RowSumZero(place: Placement, keys: seq<Option<Key>>, vals: seq<nat>, key: Key, i: nat)
    requires |vals| == |keys| && forall j: nat :: j < i && Home(place, j, key) < |keys| ==>
             keys[Home(place, j, key)] != Some(key)
    ensures RowSum(place, keys, vals, key, i) == 0
  {
    if i > 0 {
      RowSumZero(place, keys, vals, key, i - 1);
    }
  }

  lemma {:induction false} RowSumOne(place: Placement, keys: seq<Option<Key>>, vals: seq<nat>, key: Key, i: nat,
                                     at: nat)
    requires |vals| == |keys| && at < i && Home(place, at, key) < |keys| && keys[Home(place, at, key)] == Some(key)
    requires forall j: nat :: j < i && j != at && Home(place, j, key) < |keys| ==>
             keys[Home(place, j, key)] != Some(key)
    ensures RowSum(place, keys, vals, key, i) == vals[Home(place, at, key)]
  {
    if at < i - 1 {
      RowSumOne(place, keys, vals, key, i - 1, at);
    } else {
      RowSumZero(place, keys, vals, key, i - 1);
    }
  }

  /** The sum over a key's own buckets is the sum over the whole table. */
  lemma {:induction false} EstimateIs(place: Placement, d: nat, keys: seq<Option<Key>>, vals: seq<nat>, key: Key,
                                      total: nat)
    requires |vals| == |keys| && SingleHome(place, d, keys) && HomesApart(place, d)
    requires total == RowSum(place, keys, vals, key, d) || (|keys| == 0 && total == 0)
    ensures total == MassWhere(keys, vals, Is(key), 0)
  {
    var p := Is(key);
    if at: nat :| at < |keys| && keys[at] == Some(key) {
      var i: nat :| i < d && Home(place, i, key) == at;
      RowSumOne(place, keys, vals, key, d, i);
      MassWhereOne(keys, vals, p, 0, at);
    } else {
      RowSumZero(place, keys, vals, key, d);
      MassWhereNone(keys, vals, p, 0);
    }
  }

  /** The keyed buckets among the first `n`, in table order. */
  ghost function Flows(keys: seq<Option<Key>>, vals: seq<nat>, n: nat): seq<(Key, nat)>
    requires |vals| == |keys| && n <= |keys|
  {
    if n == 0 then []
    else Flows(keys, vals, n - 1) + if keys[n - 1].Some? then [(keys[n - 1].value, vals[n - 1])] else []
  }

  lemma {:induction false} FlowsFrom(keys: seq<Option<Key>>, vals: seq<nat>, n: nat, x: (Key, nat))
    requires |vals| == |keys| && n <= |keys| && x in Flows(keys, vals, n)
    ensures exists c: nat :: c < n && keys[c] == Some(x.0)
  {
    if n > 0 && x in Flows(keys, vals, n - 1) {
      FlowsFrom(keys, vals, n - 1, x);
    }
  }

  /** No key is listed twice. */
  ghost predicate ListedOnce(flows: seq<(Key, nat)>) {
    forall a, b :: 0 <= a < b < |flows| ==> flows[a].0 != flows[b].0
  }

  lemma {:induction false} FlowsDistinct(place: Placement, d: nat, keys: seq<Option<Key>>, vals: seq<nat>, n: nat)
    requires |vals| == |keys| && n <= |keys| && SingleHome(place, d, keys)
    ensures ListedOnce(Flows(keys, vals, n))
  {
    if n > 0 {
      FlowsDistinct(place, d, keys, vals, n - 1);
      var f := Flows(keys, vals, n - 1);
      forall a | 0 <= a < |f| ensures keys[n - 1].Some? ==> keys[n - 1].value != f[a].0 {
        FlowsFrom(keys, vals, n - 1, f[a]);
        var c: nat :| c < n - 1 && keys[c] == Some(f[a].0);
        assert keys[c] != keys[n - 1];
      }
      var f1 := Flows(keys, vals, n);
      forall a, b | 0 <= a < b < |f1| ensures f1[a].0 != f1[b].0 {
        assert f1[a] == f[a];
        if b < |f| {
          assert f1[b] == f[b];
        } else {
          assert keys[n - 1].Some? && f1[b].0 == keys[n - 1].value;
          assert keys[n - 1].value != f[a].0;
        }
      }
    }
  }

  /** The keys whose partial key is `g`. */
  function InGroup(project: Key -> Key, g: Key): Key -> bool {
    x => project(x) == g
  }

  function Size(groups: map<Key, nat>, g: Key): nat {
    if g in groups then groups[g] else 0
  }

  /** The total size of the flows of one group. */
  ghost function FlowSum(flows: seq<(Key, nat)>, project: Key -> Key, g: Key): nat {
    if flows == [] then 0
    else
      var n := |flows| - 1;
      FlowSum(flows[..n], project, g) + if project(flows[n].0) == g then flows[n].1 else 0
  }

  lemma {:induction false} FlowSumNext(flows: seq<(Key, nat)>, n: nat, project: Key -> Key)
    requires n < |flows|
    ensures forall g :: FlowSum(flows[..n + 1], project, g)
                     == FlowSum(flows[..n], project, g) + if project(flows[n].0) == g then flows[n].1 else 0
  {
    assert flows[..n + 1][..n] == flows[..n];
  }

  /** The mass of the first `n` buckets whose key satisfies a predicate. */
  ghost function MassBelow(keys: seq<Option<Key>>, vals: seq<nat>, p: Key -> bool, n: nat): nat
    requires |vals| == |keys| && n <= |keys|
  {
    if n == 0 then 0
    else MassBelow(keys, vals, p, n - 1) + if keys[n - 1].Some? && p(keys[n - 1].value) then vals[n - 1] else 0
  }

  lemma {:induction false} MassSplit(keys: seq<Option<Key>>, vals: seq<nat>, p: Key -> bool, n: nat)
    requires |vals| == |keys| && n <= |keys|
    ensures MassWhere(keys, vals, p, 0) == MassBelow(keys, vals, p, n) + MassWhere(keys, vals, p, n)
    ensures MassWhere(keys, vals, p, |keys|) == 0
  {
    if n > 0 {
      MassSplit(keys, vals, p, n - 1);
    }
  }

  lemma {:induction false} FlowsSum(keys: seq<Option<Key>>, vals: seq<nat>, project: Key -> Key, g: Key, n: nat)
    requires |vals| == |keys| && n <= |keys|
    ensures FlowSum(Flows(keys, vals, n), project, g) == MassBelow(keys, vals, InGroup(project, g), n)
  {
    if n > 0 {
      FlowsSum(keys, vals, project, g, n - 1);
      var f := Flows(keys, vals, n - 1);
      if keys[n - 1].Some? {
        FlowSumSnoc(f, (keys[n - 1].value, vals[n - 1]), project, g);
      } else {
        assert f + [] == f;
      }
    }
  }

  lemma {:induction false} FlowsKeys(keys: seq<Option<Key>>, vals: seq<nat>, project: Key -> Key, g: Key, n: nat)
    requires |vals| == |keys| && n <= |keys|
    ensures var f := Flows(keys, vals, n);
            (exists a :: 0 <= a < |f| && project(f[a].0) == g) <==>
            exists c: nat :: c < n && keys[c].Some? && project(keys[c].value) == g
  {
    if n > 0 {
      FlowsKeys(keys, vals, project, g, n - 1);
      var before, f := Flows(keys, vals, n - 1), Flows(keys, vals, n);
      assert forall a :: 0 <= a < |before| ==> f[a] == before[a];
      if keys[n - 1].Some? {
        assert f[|before|].0 == keys[n - 1].value;
        if exists a :: 0 <= a < |f| && project(f[a].0) == g {
          var a :| 0 <= a < |f| && project(f[a].0) == g;
          assert a < |before| ==> project(before[a].0) == g;
        }
        if c: nat :| c < n && keys[c].Some? && project(keys[c].value) == g {
          if c < n - 1 {
            var a :| 0 <= a < |before| && project(before[a].0) == g;
            assert project(f[a].0) == g;
          }
        }
      }
    }
  }

  lemma {:induction false} KeyAmong(keys: seq<Option<Key>>, project: Key -> Key, g: Key)
    ensures (exists c: nat :: c < |keys| && keys[c].Some? && project(keys[c].value) == g) <==>
            exists x :: Some(x) in keys && project(x) == g
  {
    if c: nat :| c < |keys| && keys[c].Some? && project(keys[c].value) == g {
      var x := keys[c].value;
      assert keys[c] == Some(x);
      assert Some(x) in keys && project(x) == g;
    }
    if x :| Some(x) in keys && project(x) == g {
      var c: nat :| c < |keys| && keys[c] == Some(x);
    }
  }

  /** The groups hold the sums of the first `n` flows. */
  ghost predicate Grouped(groups: map<Key, nat>, flows: seq<(Key, nat)>, n: nat, project: Key -> Key) {
    n <= |flows| && forall g :: Size(groups, g) == FlowSum(flows[..n], project, g)
  }

  lemma NoGroups(groups: map<Key, nat>, flows: seq<(Key, nat)>, project: Key -> Key)
    requires groups == map[]
    ensures Grouped(groups, flows, 0, project)
  {
  }

  /** Adding one flow to its group. */
  lemma {:induction false} GroupNext(groups: map<Key, nat>, flows: seq<(Key, nat)>, n: nat, project: Key -> Key)
    requires n < |flows| && Grouped(groups, flows, n, project)
    ensures var (full, val) := flows[n];
            Grouped(groups[project(full) := Size(groups, project(full)) + val], flows, n + 1, project)
  {
    var (full, val) := flows[n];
    var next := groups[project(full) := Size(groups, project(full)) + val];
    var rest := flows[..n + 1];
    FlowSumNext(flows, n, project);
    hide FlowSum;
    forall h ensures Size(next, h) == FlowSum(rest, project, h) {
      assert Size(groups, h) == FlowSum(flows[..n], project, h);
    }
  }

  lemma {:induction false} FlowSumSnoc(flows: seq<(Key, nat)>, x: (Key, nat), project: Key -> Key, g: Key)
    ensures FlowSum(flows + [x], project, g) == FlowSum(flows, project, g) + if project(x.0) == g then x.1 else 0
  {
    assert (flows + [x])[..|flows|] == flows;
  }

  // ---------------------------------------------------------------- grouping conserves mass

  function Projected(project: Key -> Key, s: set<Key>): Key -> bool {
    x => project(x) in s
  }

  /** The sizes of the groups in `s` together. */
  ghost function TotalSize(groups: map<Key, nat>, s: set<Key>): nat {
    if s == {} then 0
    else
      var g := Any(s);
      Size(groups, g) + TotalSize(groups, s - {g})
  }

  lemma {:induction false} SplitGroup(keys: seq<Option<Key>>, vals: seq<nat>, project: Key -> Key, s: set<Key>,
                                      g: Key, c: nat)
    requires |vals| == |keys| && g in s
    ensures MassWhere(keys, vals, Projected(project, s), c)
         == MassWhere(keys, vals, InGroup(project, g), c) + MassWhere(keys, vals, Projected(project, s - {g}), c)
    decreases |keys| - c
  {
    if c < |keys| {
      SplitGroup(keys, vals, project, s, g, c + 1);
    }
  }

  lemma {:induction false} TotalIsProjected(keys: seq<Option<Key>>, vals: seq<nat>, project: Key -> Key,
                                            groups: map<Key, nat>, s: set<Key>)
    requires |vals| == |keys|
    requires forall g :: Size(groups, g) == MassWhere(keys, vals, InGroup(project, g), 0)
    ensures TotalSize(groups, s) == MassWhere(keys, vals, Projected(project, s), 0)
    decreases |s|
  {
    hide InGroup, Size;
    if s == {} {
      MassWhereNone(keys, vals, Projected(project, s), 0);
    } else {
      hide MassWhere, Projected;
      var g := Any(s);
      assert Size(groups, g) == MassWhere(keys, vals, InGroup(project, g), 0);
      TotalIsProjected(keys, vals, project, groups, s - {g});
      SplitGroup(keys, vals, project, s, g, 0);
    }
  }

  lemma {:induction false} ProjectedAll(keys: seq<Option<Key>>, vals: seq<nat>, project: Key -> Key, s: set<Key>,
                                        c: nat)
    requires Keyed(keys, vals) && forall a: nat :: a < |keys| && keys[a].Some? ==> project(keys[a].value) in s
    ensures MassWhere(keys, vals, Projected(project, s), c) == MassFrom(vals, c)
    decreases |keys| - c
  {
    if c < |keys| {
      ProjectedAll(keys, vals, project, s, c + 1);
    }
  }

  /** Main result: however keys are projected, the groups together hold the whole mass. */
  lemma {:induction false} GroupsConserveMass(keys: seq<Option<Key>>, vals: seq<nat>, project: Key -> Key,
                                              groups: map<Key, nat>)
    requires Keyed(keys, vals)
    requires forall g :: Size(groups, g) == MassWhere(keys, vals, InGroup(project, g), 0)
    requires forall g :: g in groups <==> exists x :: Some(x) in keys && project(x) == g
    ensures TotalSize(groups, groups.Keys) == Mass(vals)
  {
    hide InGroup, Size, Projected, TotalSize;
    forall a: nat | a < |keys| && keys[a].Some? ensures project(keys[a].value) in groups.Keys {
      var x := keys[a].value;
      var g := project(x);
      assert keys[a] == Some(x) && Some(x) in keys && project(x) == g;
      assert g in groups;
    }
    TotalIsProjected(keys, vals, project, groups, groups.Keys);
    ProjectedAll(keys, vals, project, groups.Keys, 0);
  }
}
