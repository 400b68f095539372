/** What the OctoSketch counters say about keys. The row-major Count-Min array of the workers and their
    parent is the Count-Min sketch of `HydraCells` over the same hashing, so that its guarantee carries
    over to the estimates of the parent. */
module OctoEstimates {
  import opened OctoWorker
  import opened OctoProtocol
  import opened OctoTheorems
  import HydraCells

  /** The row hashes of every key. */
  type Hasher = int -> seq<Hash>

  function RowHashes(hasher: Hasher, key: int): seq<Hash> {
    hasher(key)
  }

  ghost predicate Hashes(g: Geometry, hasher: Hasher) {
    forall key :: |RowHashes(hasher, key)| == g.rows
  }

  /** The inputs are the row hashes of `keys`. */
  ghost predicate HashesOf(g: Geometry, hasher: Hasher, keys: seq<int>, inputs: seq<seq<Hash>>) {
    Hashes(g, hasher) && |inputs| == |keys| && forall i :: 0 <= i < |keys| ==> inputs[i] == RowHashes(hasher, keys[i])
  }

  function Hashing(g: Geometry, hasher: Hasher): HydraCells.CountMin {
    HydraCells.CountMin(g.rows, (r: nat, key: int) =>
      if r < |RowHashes(hasher, key)| then Column(g.cols, RowHashes(hasher, key)[r]) else 0)
  }

  /** One insert of each key. */
  function Once(keys: seq<int>): (cell: HydraCells.Cell)
    ensures |cell| == |keys| && forall i :: 0 <= i < |keys| ==> cell[i] == HydraCells.Entry(keys[i], 1)
  {
    seq(|keys|, i requires 0 <= i < |keys| => HydraCells.Entry(keys[i], 1))
  }

  ghost function Occurrences(keys: seq<int>, key: int): nat {
    multiset(keys)[key]
  }

  lemma {:induction false} OccurrencesTotal(keys: seq<int>, key: int)
    ensures HydraCells.Total(Once(keys), key) == Occurrences(keys, key)
    decreases |keys|
  {
    if keys != [] {
      var n := |keys| - 1;
      OccurrencesTotal(keys[..n], key);
      assert Once(keys)[..n] == Once(keys[..n]);
      assert keys == keys[..n] + [keys[n]];
    }
  }

  lemma {:induction false} ContributionAt(g: Geometry, hashes: seq<Hash>, row: nat, r: nat, c: nat)
    requires g.kind.CountMin? && |hashes| == g.rows && row <= g.rows && r < g.rows && c < g.cols
    ensures ContributionFrom(g, hashes, row, Slot(g.cols, r, c))
         == if row <= r && Column(g.cols, hashes[r]) == c then 1 else 0
    decreases g.rows - row
  {
    hide Column;
    if row < g.rows {
      ContributionAt(g, hashes, row + 1, r, c);
      if Slot(g.cols, row, Column(g.cols, hashes[row])) == Slot(g.cols, r, c) {
        SlotsDiffer(g.cols, row, Column(g.cols, hashes[row]), r, c);
      }
      hide Slot;
    }
  }

  /** The counters of both models agree. */
  lemma {:induction false} CellIsCounter(g: Geometry, hasher: Hasher, keys: seq<int>, inputs: seq<seq<Hash>>, r: nat,
                                         c: nat)
    requires g.kind.CountMin? && HashesOf(g, hasher, keys, inputs) && r < g.rows && c < g.cols
    ensures SinglePassCell(g, inputs, Slot(g.cols, r, c)) == HydraCells.Counter(Hashing(g, hasher), Once(keys), r, c)
    decreases |keys|
  {
    hide Slot, Column, ContributionFrom;
    if keys != [] {
      var n := |keys| - 1;
      CellIsCounter(g, hasher, keys[..n], inputs[..n], r, c);
      assert inputs[n] == RowHashes(hasher, keys[n]) && |RowHashes(hasher, keys[n])| == g.rows;
      ContributionAt(g, inputs[n], 0, r, c);
      assert Once(keys)[..n] == Once(keys[..n]);
    }
  }

  /** And so do their estimates. */
  lemma {:induction false} MinIsEstimate(g: Geometry, hasher: Hasher, keys: seq<int>, inputs: seq<seq<Hash>>,
                                         key: int, row: nat)
    requires g.kind.CountMin? && HashesOf(g, hasher, keys, inputs) && FullRows(g, inputs) && row < g.rows
    ensures MinOver(g, SinglePass(g, inputs), RowHashes(hasher, key), row)
         == HydraCells.EstimateFrom(Hashing(g, hasher), Once(keys), key, row)
    decreases g.rows - row
  {
    hide Slot, Column, SinglePass, SinglePassCell, HydraCells.Counter, FullRows;
    var c := Column(g.cols, RowHashes(hasher, key)[row]);
    SlotInRange(g.rows, g.cols, row, c);
    SinglePassIsSum(g, inputs, Slot(g.cols, row, c));
    CellIsCounter(g, hasher, keys, inputs, row, c);
    if row + 1 < g.rows {
      MinIsEstimate(g, hasher, keys, inputs, key, row + 1);
    }
  }

  lemma {:induction false} SinglePassCovers(g: Geometry, hasher: Hasher, keys: seq<int>, inputs: seq<seq<Hash>>,
                                            key: int)
    requires g.kind.CountMin? && HashesOf(g, hasher, keys, inputs) && FullRows(g, inputs)
    ensures MinOver(g, SinglePass(g, inputs), RowHashes(hasher, key), 0) >= Occurrences(keys, key)
  {
    hide SinglePass, HydraCells.EstimateFrom, FullRows;
    MinIsEstimate(g, hasher, keys, inputs, key, 0);
    HydraCells.EstimateCovers(Hashing(g, hasher), Once(keys), key);
    OccurrencesTotal(keys, key);
  }

  /** Main result: the parent that `finish` returns never undercounts a key the client inserted. */
  lemma {:induction false} FinishedNeverUndercounts(c: Config, s: State, hasher: Hasher, keys: seq<int>, key: int)
    requires Reachable(c, s) && s.client.Finished? && c.g.kind.CountMin?
    requires HashesOf(c.g, hasher, keys, Inserts(c.program))
    ensures |s.agg.parent| == c.g.Cells()
    ensures MinOver(c.g, s.agg.parent, RowHashes(hasher, key), 0) >= Occurrences(keys, key)
  {
    hide Reachable, SinglePass, MinOver, FullRows;
    FinishIsSinglePass(c, s);
    SinglePassCovers(c.g, hasher, keys, Inserts(c.program), key);
  }

  /** And at any moment in between it undercounts what the workers have processed by no more than
      `tauMax - 1` per worker, promotions on their way included. */
  lemma {:induction false} ProcessedUndercountBounded(c: Config, s: State, hasher: Hasher, keys: seq<int>, key: int)
    requires Reachable(c, s) && c.g.kind.CountMin? && HashesOf(c.g, hasher, keys, s.hist.processed)
    ensures Shape(c, s)
    ensures MinOver(c.g, Received(c, s), RowHashes(hasher, key), 0) + c.workers * (c.tauMax - 1)
         >= Occurrences(keys, key)
  {
    hide Reachable, SinglePass, MinOver, Received;
    EstimateLag(c, s, RowHashes(hasher, key));
    SinglePassCovers(c.g, hasher, keys, s.hist.processed, key);
  }
}
