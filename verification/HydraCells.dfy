/** The cells of a Hydra grid. A cell is modelled as the list of inserts it received, the freest
    counter there is; Count-Min cells are also modelled in place, and refine that list. */
module HydraCells {
  import opened Wrappers

  datatype Entry = Entry(value: int, count: int)

  type Cell = seq<Entry>

  function Counted(e: Entry, value: int): int {
    if e.value == value then e.count else 0
  }

  /** Total count of one value in a cell. */
  ghost function Total(cell: Cell, value: int): int {
    if cell == [] then 0 else Total(cell[..|cell| - 1], value) + Counted(cell[|cell| - 1], value)
  }

  lemma {:induction false} TotalAppend(a: Cell, b: Cell, value: int)
    ensures Total(a + b, value) == Total(a, value) + Total(b, value)
    decreases |b|
  {
    if b == [] {
      assert a + b == a;
    } else {
      TotalAppend(a, b[..|b| - 1], value);
      assert (a + b)[..|a + b| - 1] == a + b[..|b| - 1];
    }
  }

  lemma {:induction false} TotalOne(e: Entry, cell: Cell, value: int)
    requires cell == [e]
    ensures Total(cell, value) == Counted(e, value)
  {
    assert cell[..0] == [];
  }

  lemma TotalNone(value: int)
    ensures Total([], value) == 0
  {
  }

  ghost predicate NonNegativeCell(cell: Cell) {
    forall i :: 0 <= i < |cell| ==> cell[i].count >= 0
  }

  // ---------------------------------------------------------------- Count-Min

  /** The rows of a Count-Min sketch and the column each row hashes a value to. */
  datatype CountMin = CountMin(rows: pos, column: (nat, int) -> nat)

  function Column(cm: CountMin, r: nat, value: int): nat {
    cm.column(r, value)
  }

  /** The counter of row `r` and column `c`: the counts of all values that collide there. */
  function Counter(cm: CountMin, cell: Cell, r: nat, c: nat): int {
    if cell == [] then 0
    else
      var e := cell[|cell| - 1];
      Counter(cm, cell[..|cell| - 1], r, c) + if Column(cm, r, e.value) == c then e.count else 0
  }

  /** The least counter of a value among rows `r..`. */
  function EstimateFrom(cm: CountMin, cell: Cell, value: int, r: nat): int
    requires r < cm.rows
    decreases cm.rows - r
  {
    var v := Counter(cm, cell, r, Column(cm, r, value));
    if r + 1 == cm.rows then v
    else
      var rest := EstimateFrom(cm, cell, value, r + 1);
      if rest < v then rest else v
  }

  function Estimate(cm: CountMin, cell: Cell, value: int): int {
    EstimateFrom(cm, cell, value, 0)
  }

  lemma {:induction false} CounterAppend(cm: CountMin, a: Cell, b: Cell, r: nat, c: nat)
    ensures Counter(cm, a + b, r, c) == Counter(cm, a, r, c) + Counter(cm, b, r, c)
    decreases |b|
  {
    if b == [] {
      assert a + b == a;
    } else {
      CounterAppend(cm, a, b[..|b| - 1], r, c);
      assert (a + b)[..|a + b| - 1] == a + b[..|b| - 1];
    }
  }

  /** What the other values of the cell add to the counter that row `r` has for a value. */
  ghost function Others(cm: CountMin, cell: Cell, r: nat, value: int): int {
    if cell == [] then 0
    else
      var e := cell[|cell| - 1];
      Others(cm, cell[..|cell| - 1], r, value)
      + if e.value != value && Column(cm, r, e.value) == Column(cm, r, value) then e.count else 0
  }

  lemma {:induction false} CounterSplit(cm: CountMin, cell: Cell, r: nat, value: int)
    ensures Counter(cm, cell, r, Column(cm, r, value)) == Total(cell, value) + Others(cm, cell, r, value)
    decreases |cell|
  {
    hide Column;
    if cell != [] {
      CounterSplit(cm, cell[..|cell| - 1], r, value);
    }
  }

  /** The estimate is the least counter: a lower bound that one of the rows attains. */
  lemma {:induction false} EstimateFromLeast(cm: CountMin, cell: Cell, value: int, from: nat)
    requires from < cm.rows
    ensures forall r: nat :: from <= r < cm.rows ==>
              EstimateFrom(cm, cell, value, from) <= Counter(cm, cell, r, Column(cm, r, value))
    ensures exists r: nat :: from <= r < cm.rows &&
              EstimateFrom(cm, cell, value, from) == Counter(cm, cell, r, Column(cm, r, value))
    decreases cm.rows - from
  {
    hide Counter, Column;
    var own := Counter(cm, cell, from, Column(cm, from, value));
    var least := from;
    if from + 1 < cm.rows {
      EstimateFromLeast(cm, cell, value, from + 1);
      var next: nat :| from + 1 <= next < cm.rows &&
        EstimateFrom(cm, cell, value, from + 1) == Counter(cm, cell, next, Column(cm, next, value));
      least := if EstimateFrom(cm, cell, value, from + 1) < own then next else from;
    }
    assert EstimateFrom(cm, cell, value, from) == Counter(cm, cell, least, Column(cm, least, value));
  }

  lemma {:induction false} EstimateLeast(cm: CountMin, cell: Cell, value: int)
    ensures forall r: nat :: r < cm.rows ==>
            Estimate(cm, cell, value) <= Total(cell, value) + Others(cm, cell, r, value)
    ensures exists r: nat ::
              r < cm.rows && Estimate(cm, cell, value) == Total(cell, value) + Others(cm, cell, r, value)
  {
    hide Counter, Total, Others, Column, EstimateFrom;
    EstimateFromLeast(cm, cell, value, 0);
    forall r: nat | r < cm.rows
      ensures Counter(cm, cell, r, Column(cm, r, value)) == Total(cell, value) + Others(cm, cell, r, value)
    {
      CounterSplit(cm, cell, r, value);
    }
  }

  /** A Count-Min cell covers the count of a value exactly if in no row the values that share its
      counter sum to less than nothing. */
  lemma {:induction false} EstimateCoversIff(cm: CountMin, cell: Cell, value: int)
    ensures Estimate(cm, cell, value) >= Total(cell, value) <==>
            forall r: nat :: r < cm.rows ==> Others(cm, cell, r, value) >= 0
  {
    hide Total, Others, Estimate;
    EstimateLeast(cm, cell, value);
  }

  /** It is exact if, moreover, in some row they cancel out. */
  lemma {:induction false} EstimateExactIff(cm: CountMin, cell: Cell, value: int)
    ensures Estimate(cm, cell, value) == Total(cell, value) <==>
            && (forall r: nat :: r < cm.rows ==> Others(cm, cell, r, value) >= 0)
            && (exists r: nat :: r < cm.rows && Others(cm, cell, r, value) == 0)
  {
    hide Total, Others, Estimate;
    EstimateLeast(cm, cell, value);
  }

  lemma {:induction false} OthersNonNegative(cm: CountMin, cell: Cell, r: nat, value: int)
    requires NonNegativeCell(cell)
    ensures Others(cm, cell, r, value) >= 0
    decreases |cell|
  {
    hide Column;
    if cell != [] {
      OthersNonNegative(cm, cell[..|cell| - 1], r, value);
    }
  }

  /** In particular, a cell without negative counts never undercounts. */
  lemma {:induction false} EstimateCovers(cm: CountMin, cell: Cell, value: int)
    requires NonNegativeCell(cell)
    ensures Estimate(cm, cell, value) >= Total(cell, value)
  {
    forall r: nat | r < cm.rows ensures Others(cm, cell, r, value) >= 0 {
      OthersNonNegative(cm, cell, r, value);
    }
    hide Total, Others, Estimate;
    EstimateCoversIff(cm, cell, value);
  }

  /** In row `r` no other value of the cell shares the value's counter. */
  ghost predicate AloneIn(cm: CountMin, cell: Cell, r: nat, value: int) {
    forall i :: 0 <= i < |cell| && Column(cm, r, cell[i].value) == Column(cm, r, value) ==> cell[i].value == value
  }

  lemma {:induction false} OthersAlone(cm: CountMin, cell: Cell, r: nat, value: int)
    requires AloneIn(cm, cell, r, value)
    ensures Others(cm, cell, r, value) == 0
    decreases |cell|
  {
    hide Column;
    if cell != [] {
      OthersAlone(cm, cell[..|cell| - 1], r, value);
    }
  }

  /** And it is exact as soon as one row is free of collisions. */
  lemma {:induction false} EstimateExact(cm: CountMin, cell: Cell, value: int, r: nat)
    requires NonNegativeCell(cell) && r < cm.rows && AloneIn(cm, cell, r, value)
    ensures Estimate(cm, cell, value) == Total(cell, value)
  {
    forall i: nat | i < cm.rows ensures Others(cm, cell, i, value) >= 0 {
      OthersNonNegative(cm, cell, i, value);
    }
    OthersAlone(cm, cell, r, value);
    hide Total, Others, Estimate;
    EstimateExactIff(cm, cell, value);
  }

  /** One negative insert of another value is enough to undercount, wherever the two collide. */
  lemma {:induction false} NegativeCountUndercounts(cm: CountMin, cell: Cell, e: Entry, r: nat, value: int)
    requires r < cm.rows && AloneIn(cm, cell, r, value)
    requires e.count < 0 && e.value != value && Column(cm, r, e.value) == Column(cm, r, value)
    ensures Estimate(cm, cell + [e], value) < Total(cell + [e], value)
  {
    OthersAlone(cm, cell, r, value);
    assert (cell + [e])[..|cell|] == cell;
    assert Others(cm, cell + [e], r, value) == e.count;
    hide Total, Others, Estimate, Column;
    EstimateCoversIff(cm, cell + [e], value);
  }

  /** The Count-Min counters, updated in place. */
  class CountMinSketch {
    const cm: CountMin
    const cols: nat
    const counts: array2<int>
    /** The inserts so far. */
    ghost var cell: Cell

    ghost predicate Valid()
      reads this, counts
    {
      && counts.Length0 == cm.rows && counts.Length1 == cols && (forall r, value :: Column(cm, r, value) < cols)
      && forall r, c :: 0 <= r < cm.rows && 0 <= c < cols ==> counts[r, c] == Counter(cm, cell, r, c)
    }

    constructor (cm: CountMin, cols: nat)
      requires forall r, value :: Column(cm, r, value) < cols
      ensures Valid() && fresh(counts) && cell == [] && this.cm == cm && this.cols == cols
    {
      this.cm, this.cols := cm, cols;
      counts := new int[cm.rows, cols]((r, c) => 0);
      cell := [];
    }

    /** Adds `many` to one counter of each row. */
    method InsertMany(value: int, many: int)
      requires Valid()
      modifies this`cell, counts
      ensures Valid() && cell == old(cell) + [Entry(value, many)]
    {
      hide Counter, Column;
      var r := 0;
      while r < cm.rows
        invariant 0 <= r <= cm.rows && cell == old(cell)
        invariant forall i, c :: 0 <= i < cm.rows && 0 <= c < cols ==>
                    counts[i, c] == Counter(cm, cell, i, c) + if i < r && Column(cm, i, value) == c then many else 0
      {
        var col := Column(cm, r, value);
        counts[r, col] := counts[r, col] + many;
        r := r + 1;
      }
      CounterSnoc(cm, cell, Entry(value, many));
      cell := cell + [Entry(value, many)];
    }

    /** The least counter of a value. */
    method EstimateValue(value: int) returns (min: int)
      requires Valid()
      ensures min == Estimate(cm, cell, value)
    {
      hide Counter, Column;
      min := counts[0, Column(cm, 0, value)];
      var r := 1;
      while r < cm.rows
        invariant 1 <= r <= cm.rows
        invariant Estimate(cm, cell, value) ==
                    if r == cm.rows then min
                    else if EstimateFrom(cm, cell, value, r) < min then EstimateFrom(cm, cell, value, r) else min
      {
        var v := counts[r, Column(cm, r, value)];
        if v < min {
          min := v;
        }
        r := r + 1;
      }
    }

    /** Adds the counters of another sketch with the same hashing. */
    method Merge(other: CountMinSketch)
      requires Valid() && other.Valid() && other != this && other.counts != counts
      requires cm == other.cm && cols == other.cols
      modifies this`cell, counts
      ensures Valid() && cell == old(cell) + other.cell
    {
      hide Counter, Column;
      forall r, c | 0 <= r < cm.rows && 0 <= c < cols {
        counts[r, c] := counts[r, c] + other.counts[r, c];
      }
      forall r: nat, c: nat 
        ensures Counter(cm, cell + other.cell, r, c) == Counter(cm, cell, r, c) + Counter(cm, other.cell, r, c)
      {
        CounterAppend(cm, cell, other.cell, r, c);
      }
      cell := cell + other.cell;
    }
  }

  lemma {:induction false} CounterSnoc(cm: CountMin, cell: Cell, e: Entry)
    ensures forall r: nat, c: nat :: Counter(cm, cell + [e], r, c)
                     == Counter(cm, cell, r, c) + if Column(cm, r, e.value) == c then e.count else 0
  {
    hide Column;
    assert (cell + [e])[..|cell|] == cell;
  }
}
