/** The Hydra grid: every record is written under each of its subpopulations, every query takes the
    median of one cell per row. Where a row puts a subkey is a parameter; so is how a cell estimates,
    except for Count-Min cells. */
module HydraGrid {
  import opened HydraCells
  import opened HydraKeys
  import opened Median
  import opened Wrappers

  datatype Record = Record(key: seq<string>, entry: Entry)

  /** Where a row puts a subkey. */
  type Placement = (nat, string) -> nat

  function Slot(place: Placement, r: nat, sub: string): nat {
    place(r, sub)
  }

  // ---------------------------------------------------------------- what a cell receives

  /** What the masks below `bound` write to one cell for one record. */
  ghost function Writes(labels: seq<string>, place: Placement, rec: Record, bound: nat, r: nat, c: nat): Cell
    requires |rec.key| == |labels|
  {
    if bound <= 1 then []
    else
      Writes(labels, place, rec, bound - 1, r, c)
      + if Slot(place, r, Subkey(labels, rec.key, bound - 1)) == c then [rec.entry] else []
  }

  ghost predicate WellFormed(labels: seq<string>, stream: seq<Record>) {
    forall i :: 0 <= i < |stream| ==> |stream[i].key| == |labels|
  }

  /** What a whole stream writes to one cell. */
  ghost function Fed(labels: seq<string>, place: Placement, stream: seq<Record>, r: nat, c: nat): Cell
    requires WellFormed(labels, stream)
  {
    if stream == [] then []
    else
      var n := |stream| - 1;
      Fed(labels, place, stream[..n], r, c) + Writes(labels, place, stream[n], Pow2(|labels|), r, c)
  }

  /** A cell fed two streams holds what each of them wrote. */
  lemma {:induction false} FedAppend(labels: seq<string>, place: Placement, s: seq<Record>, t: seq<Record>,
                                     r: nat, c: nat)
    requires WellFormed(labels, s) && WellFormed(labels, t)
    ensures WellFormed(labels, s + t)
    ensures Fed(labels, place, s + t, r, c) == Fed(labels, place, s, r, c) + Fed(labels, place, t, r, c)
    decreases |t|
  {
    hide Writes, Pow2;
    if t == [] {
      assert s + t == s;
    } else {
      var n := |t| - 1;
      FedAppend(labels, place, s, t[..n], r, c);
      assert (s + t)[..|s + t| - 1] == s + t[..n] && (s + t)[|s + t| - 1] == t[n];
      var last := Writes(labels, place, t[n], Pow2(|labels|), r, c);
      assert Fed(labels, place, s + t, r, c) == Fed(labels, place, s + t[..n], r, c) + last;
      assert Fed(labels, place, t, r, c) == Fed(labels, place, t[..n], r, c) + last;
    }
  }

  // ---------------------------------------------------------------- what a cell knows

  /** Whether a record belongs to the subpopulation of a query. */
  ghost predicate Matches(query: seq<Option<string>>, key: seq<string>) {
    |key| == |query| && forall c :: 0 <= c < |query| && query[c].Some? ==> key[c] == query[c].value
  }

  /** How often a value really occurs in the subpopulation of a query. */
  ghost function Truth(stream: seq<Record>, query: seq<Option<string>>, value: int): int {
    if stream == [] then 0
    else
      var n := |stream| - 1;
      Truth(stream[..n], query, value) + if Matches(query, stream[n].key) then Counted(stream[n].entry, value) else 0
  }

  ghost predicate NonNegative(stream: seq<Record>) {
    forall i :: 0 <= i < |stream| ==> stream[i].entry.count >= 0
  }

  /** A resolved query describes its subpopulation. */
  lemma {:induction false} ResolvedMatches(query: seq<Option<string>>, mask: nat, values: seq<string>, key: seq<string>)
    requires Resolves(query, |query|, mask, values) && |key| == |query|
    ensures Matches(query, key) <==> AgreeOn(key, values, mask)
  {
    hide Bit, Pow2;
    if AgreeOn(key, values, mask) {
      forall c | 0 <= c < |query| && query[c].Some? ensures key[c] == query[c].value {
        assert Bit(mask, c);
      }
    }
  }

  /** The number of times a record writes under the query's subkey: once if it matches. */
  ghost predicate Wanted(labels: seq<string>, rec: Record, mask: nat, values: seq<string>, m: nat)
    requires |rec.key| == |values| == |labels|
  {
    Subkey(labels, rec.key, m) == Subkey(labels, values, mask)
  }

  lemma {:induction false} WantedIff(labels: seq<string>, rec: Record, query: seq<Option<string>>, mask: nat,
                                     values: seq<string>, m: nat)
    requires Distinct(labels) && |rec.key| == |query| == |labels| && Resolves(query, |query|, mask, values)
    requires m < Pow2(|labels|)
    ensures Wanted(labels, rec, mask, values, m) <==> m == mask && Matches(query, rec.key)
  {
    SubkeysEqualIff(labels, rec.key, m, values, mask);
    ResolvedMatches(query, mask, values, rec.key);
  }

  /** What the masks below `bound` owe to the cell of a query. */
  ghost function Share(rec: Record, bound: nat, query: seq<Option<string>>, mask: nat, value: int): int {
    if mask < bound && Matches(query, rec.key) then Counted(rec.entry, value) else 0
  }

  lemma WritesNone(labels: seq<string>, place: Placement, rec: Record, bound: nat, r: nat, c: nat,
                   query: seq<Option<string>>, mask: nat, value: int)
    requires |rec.key| == |labels| && bound <= 1 <= mask
    ensures Total(Writes(labels, place, rec, bound, r, c), value) == 0 == Share(rec, bound, query, mask, value)
  {
  }

  /** What one more mask adds to the total of a cell. */
  lemma {:induction false} WritesNext(labels: seq<string>, place: Placement, rec: Record, m: nat, r: nat, c: nat,
                                      value: int)
    requires |rec.key| == |labels| && m >= 1
    ensures Total(Writes(labels, place, rec, m + 1, r, c), value)
         == Total(Writes(labels, place, rec, m, r, c), value)
            + if Slot(place, r, Subkey(labels, rec.key, m)) == c then Counted(rec.entry, value) else 0
  {
    var before, one := Writes(labels, place, rec, m, r, c), [rec.entry];
    hide Total, Subkey;
    TotalOne(rec.entry, one, value);
    TotalAppend(before, one, value);
    assert before + [] == before;
  }

  /** Nothing that another subkey writes is placed in the cell of `sub`. */
  ghost predicate Alone(labels: seq<string>, place: Placement, rec: Record, r: nat, sub: string)
    requires |rec.key| == |labels|
  {
    forall m: nat :: 1 <= m < Pow2(|labels|) && Slot(place, r, Subkey(labels, rec.key, m)) == Slot(place, r, sub) ==>
                       Subkey(labels, rec.key, m) == sub
  }

  /** Where one mask of a record writes, as seen from the cell of a query. */
  lemma {:induction false} PlacedIf(labels: seq<string>, place: Placement, rec: Record, r: nat,
                 query: seq<Option<string>>, mask: nat, values: seq<string>, m: nat)
    requires Distinct(labels) && |rec.key| == |query| == |labels| && Resolves(query, |query|, mask, values)
    requires 1 <= m < Pow2(|labels|)
    ensures m == mask && Matches(query, rec.key) ==>
              Slot(place, r, Subkey(labels, rec.key, m)) == Slot(place, r, Subkey(labels, values, mask))
    ensures Alone(labels, place, rec, r, Subkey(labels, values, mask)) ==>
              (Slot(place, r, Subkey(labels, rec.key, m)) == Slot(place, r, Subkey(labels, values, mask)) <==>
               m == mask && Matches(query, rec.key))
  {
    WantedIff(labels, rec, query, mask, values, m);
    hide Resolves, Matches, Subkey, Pow2, Distinct;
  }

  lemma {:induction false} ShareNext(labels: seq<string>, place: Placement, rec: Record, m: nat, r: nat,
                  query: seq<Option<string>>, mask: nat, values: seq<string>, value: int)
    requires Distinct(labels) && |rec.key| == |query| == |labels| && Resolves(query, |query|, mask, values)
    requires 1 <= m < Pow2(|labels|)
    ensures var c := Slot(place, r, Subkey(labels, values, mask));
            var wrote := if Slot(place, r, Subkey(labels, rec.key, m)) == c then Counted(rec.entry, value) else 0;
            && (Counted(rec.entry, value) >= 0 ==>
                  wrote >= Share(rec, m + 1, query, mask, value) - Share(rec, m, query, mask, value))
            && (Alone(labels, place, rec, r, Subkey(labels, values, mask)) ==>
                  wrote == Share(rec, m + 1, query, mask, value) - Share(rec, m, query, mask, value))
  {
    PlacedIf(labels, place, rec, r, query, mask, values, m);
    hide Resolves, Matches, Subkey, Pow2, Distinct, Alone, Counted;
  }

  /** A record leaves at least its share in every cell of its subpopulations. */
  lemma {:induction false} WritesCover(labels: seq<string>, place: Placement, rec: Record, bound: nat, r: nat,
                                       query: seq<Option<string>>, mask: nat, values: seq<string>, value: int)
    requires Distinct(labels) && |rec.key| == |query| == |values| == |labels| && Resolves(query, |query|, mask, values)
    requires Counted(rec.entry, value) >= 0 && bound <= Pow2(|labels|) && mask >= 1
    ensures Total(Writes(labels, place, rec, bound, r, Slot(place, r, Subkey(labels, values, mask))), value)
         >= Share(rec, bound, query, mask, value)
    decreases bound
  {
    hide *;
    if bound <= 1 {
      WritesNone(labels, place, rec, bound, r, Slot(place, r, Subkey(labels, values, mask)), query, mask, value);
    } else {
      WritesCover(labels, place, rec, bound - 1, r, query, mask, values, value);
      ShareNext(labels, place, rec, bound - 1, r, query, mask, values, value);
      WritesNext(labels, place, rec, bound - 1, r, Slot(place, r, Subkey(labels, values, mask)), value);
    }
  }

  /** Without collisions a record leaves exactly its share, once. */
  lemma {:induction false} WritesExact(labels: seq<string>, place: Placement, rec: Record, bound: nat, r: nat,
                                       query: seq<Option<string>>, mask: nat, values: seq<string>, value: int)
    requires Distinct(labels) && |rec.key| == |query| == |values| == |labels| && Resolves(query, |query|, mask, values)
    requires bound <= Pow2(|labels|) && mask >= 1 && Alone(labels, place, rec, r, Subkey(labels, values, mask))
    ensures Total(Writes(labels, place, rec, bound, r, Slot(place, r, Subkey(labels, values, mask))), value)
         == Share(rec, bound, query, mask, value)
    decreases bound
  {
    hide *;
    if bound <= 1 {
      WritesNone(labels, place, rec, bound, r, Slot(place, r, Subkey(labels, values, mask)), query, mask, value);
    } else {
      WritesExact(labels, place, rec, bound - 1, r, query, mask, values, value);
      ShareNext(labels, place, rec, bound - 1, r, query, mask, values, value);
      WritesNext(labels, place, rec, bound - 1, r, Slot(place, r, Subkey(labels, values, mask)), value);
    }
  }

  // ---------------------------------------------------------------- what the grid knows

  lemma {:induction false} FedNext(labels: seq<string>, place: Placement, stream: seq<Record>, n: nat, r: nat,
                                   c: nat, value: int)
    requires WellFormed(labels, stream) && |stream| == n + 1
    ensures WellFormed(labels, stream[..n])
    ensures Total(Fed(labels, place, stream, r, c), value)
         == Total(Fed(labels, place, stream[..n], r, c), value)
            + Total(Writes(labels, place, stream[n], Pow2(|labels|), r, c), value)
  {
    hide Total, Writes, Pow2;
    TotalAppend(Fed(labels, place, stream[..n], r, c), Writes(labels, place, stream[n], Pow2(|labels|), r, c), value);
  }

  /** Main result: without negative counts, the cell of a query holds at least the true count, in
      every row. */
  lemma {:induction false} CellsCover(labels: seq<string>, place: Placement, stream: seq<Record>, r: nat,
                                      query: seq<Option<string>>, mask: nat, values: seq<string>, value: int)
    requires Distinct(labels) && WellFormed(labels, stream) && NonNegative(stream) && |query| == |labels|
    requires Resolves(query, |query|, mask, values) && mask >= 1
    ensures Total(Fed(labels, place, stream, r, Slot(place, r, Subkey(labels, values, mask))), value)
         >= Truth(stream, query, value)
    decreases |stream|
  {
    var c := Slot(place, r, Subkey(labels, values, mask));
    hide Total, Resolves, Subkey, Matches, Distinct, Writes, Pow2;
    if stream == [] {
      TotalNone(value);
    } else {
      var n := |stream| - 1;
      assert mask < Pow2(|labels|) by {
        MaskInRange(query, mask, values);
      }
      CellsCover(labels, place, stream[..n], r, query, mask, values, value);
      FedNext(labels, place, stream, n, r, c, value);
      hide Fed;
      assert Counted(stream[n].entry, value) >= 0;
      WritesCover(labels, place, stream[n], Pow2(|labels|), r, query, mask, values, value);
    }
  }

  lemma MaskInRange(query: seq<Option<string>>, mask: nat, values: seq<string>)
    requires Resolves(query, |query|, mask, values)
    ensures mask < Pow2(|query|)
  {
  }

  /** Main result: if no other subkey of the stream is placed there, the cell of a query holds
      exactly the true count: no subpopulation is ever mistaken for another. */
  lemma {:induction false} CellsExact(labels: seq<string>, place: Placement, stream: seq<Record>, r: nat,
                                      query: seq<Option<string>>, mask: nat, values: seq<string>, value: int)
    requires Distinct(labels) && WellFormed(labels, stream) && |query| == |labels|
    requires Resolves(query, |query|, mask, values) && mask >= 1
    requires forall i :: 0 <= i < |stream| ==> Alone(labels, place, stream[i], r, Subkey(labels, values, mask))
    ensures Total(Fed(labels, place, stream, r, Slot(place, r, Subkey(labels, values, mask))), value)
         == Truth(stream, query, value)
    decreases |stream|
  {
    var c := Slot(place, r, Subkey(labels, values, mask));
    hide Total, Resolves, Subkey, Matches, Distinct, Writes, Pow2, Alone;
    if stream == [] {
      TotalNone(value);
    } else {
      var n := |stream| - 1;
      assert mask < Pow2(|labels|) by {
        MaskInRange(query, mask, values);
      }
      CellsExact(labels, place, stream[..n], r, query, mask, values, value);
      FedNext(labels, place, stream, n, r, c, value);
      hide Fed;
      WritesExact(labels, place, stream[n], Pow2(|labels|), r, query, mask, values, value);
    }
  }

  // ---------------------------------------------------------------- the grid

  ghost predicate InRange(place: Placement, cols: nat) {
    forall r, s :: Slot(place, r, s) < cols
  }

  datatype CounterKind = CM | HLL | CS | KLL | UNIVERSAL

  datatype Query =
    | Frequency(value: int)
    | Quantile(q: real)
    | Cdf(threshold: real)
    | Cardinality
    | L1Norm
    | L2Norm
    | Entropy

  /** Which queries a kind of counter answers. */
  predicate Supports(kind: CounterKind, query: Query) {
    match kind
    case CM => query.Frequency?
    case HLL => query.Cardinality?
    case CS => query.Frequency?
    case KLL => query.Quantile? || query.Cdf?
    case UNIVERSAL => query.Cardinality? || query.L1Norm? || query.L2Norm? || query.Entropy?
  }

  /** Each query is answered by the counters made for it, and by no others. */
  lemma WhoAnswers(kind: CounterKind, query: Query)
    ensures query.Frequency? ==> (Supports(kind, query) <==> kind in {CM, CS})
    ensures query.Cardinality? ==> (Supports(kind, query) <==> kind in {HLL, UNIVERSAL})
    ensures query.Quantile? || query.Cdf? ==> (Supports(kind, query) <==> kind == KLL)
    ensures query.L1Norm? || query.L2Norm? || query.Entropy? ==> (Supports(kind, query) <==> kind == UNIVERSAL)
  {
  }

  /** How a cell answers a query its kind supports. */
  type Estimator = (Cell, Query) -> real

  /** An estimator that never undercounts what its cell received, if no count was negative. */
  ghost predicate Overestimates(estimate: Estimator) {
    forall cell, value :: NonNegativeCell(cell) ==> estimate(cell, Frequency(value)) >= Total(cell, value) as real
  }

  /** The estimator of Count-Min cells. */
  function CountMinEstimator(cm: CountMin): Estimator {
    (cell, query: Query) => if query.Frequency? then Estimate(cm, cell, query.value) as real else 0.0
  }

  lemma {:induction false} CountMinOverestimates(cm: CountMin)
    ensures Overestimates(CountMinEstimator(cm))
  {
    hide Estimate, Total, NonNegativeCell;
    forall cell, value | NonNegativeCell(cell)
      ensures CountMinEstimator(cm)(cell, Frequency(value)) >= Total(cell, value) as real
    {
      EstimateCovers(cm, cell, value);
    }
  }

  function CellColumn(place: Placement, cols: nat, r: nat, s: string): (c: nat)
    requires InRange(place, cols)
    ensures c < cols && c == Slot(place, r, s)
  {
    Slot(place, r, s)
  }

  class Hydra {
    const rows: nat
    const cols: nat
    const kind: CounterKind
    const schema: KeySchema
    const place: Placement
    const cells: array2<Cell>
    /** The records accepted so far. */
    ghost var stream: seq<Record>

    ghost predicate Shape()
      reads this, cells
    {
      && schema.Valid() && InRange(place, cols) && cells.Length0 == rows && cells.Length1 == cols
      && WellFormed(schema.labels, stream)
    }

    /** Every cell holds what the accepted records wrote to it. */
    ghost predicate Valid()
      reads this, cells
    {
      Shape() && forall r, c :: 0 <= r < rows && 0 <= c < cols ==>
                   cells[r, c] == Fed(schema.labels, place, stream, r, c)
    }

    constructor (rows: nat, cols: nat, kind: CounterKind, schema: KeySchema, place: Placement)
      requires schema.Valid() && InRange(place, cols)
      ensures Valid() && fresh(cells) && stream == []
      ensures this.rows == rows && this.cols == cols && this.kind == kind && this.schema == schema
      ensures this.place == place
    {
      this.rows, this.cols, this.kind, this.schema, this.place := rows, cols, kind, schema, place;
      cells := new Cell[rows, cols]((r, c) => []);
      stream := [];
    }

    /** Inserts one entry under one subkey, in every row. */
    method FastInsert(sub: string, e: Entry)
      requires Shape()
      modifies cells
      ensures forall r, c :: 0 <= r < rows && 0 <= c < cols ==>
                cells[r, c] == old(cells[r, c]) + if Slot(place, r, sub) == c then [e] else []
    {
      hide WellFormed;
      var row := 0;
      while row < rows
        invariant 0 <= row <= rows
        invariant forall r, c :: 0 <= r < rows && 0 <= c < cols ==>
                    cells[r, c] == old(cells[r, c]) + if r < row && Slot(place, r, sub) == c then [e] else []
      {
        var col := CellColumn(place, cols, row, sub);
        cells[row, col] := cells[row, col] + [e];
        row := row + 1;
      }
    }

    /** Adds a record to all its subpopulations. */
    method Update(key: seq<string>, value: int, count: Option<int>) returns (r: Result<()>)
      requires Valid()
      modifies this`stream, cells
      ensures Valid() && (r.Ok? <==> |key| == |schema.labels|)
      ensures stream == if r.Ok? then
                          old(stream) + [Record(key, Entry(value, if count.None? then 1 else count.value))]
                        else old(stream)
    {
      hide Pow2, Fed, WellFormed, Subkey, InRange, Writes;
      if |key| != |schema.labels| {
        return Err("Hydra key arity mismatch");
      }
      var e := Entry(value, if count.None? then 1 else count.value);
      var rec := Record(key, e);
      ghost var labels := schema.labels;
      WritesFirst(labels, place, rec);
      var mask := 1;
      while mask < Pow2(|key|)
        invariant 1 <= mask <= Pow2(|key|) && Shape() && stream == old(stream)
        invariant forall r, c :: 0 <= r < rows && 0 <= c < cols ==>
                    cells[r, c] == Fed(labels, place, stream, r, c) + Writes(labels, place, rec, mask, r, c)
      {
        var sub := EncodeSubkeyInto(schema, key, mask);
        FastInsert(sub, e);
        WritesSnoc(labels, place, stream, rec, mask);
        mask := mask + 1;
      }
      stream := stream + [rec];
      FedSnoc(labels, place, old(stream), rec);
      return Ok(());
    }

    /** Adds the cells of another grid of the same shape, schema and hash. */
    method Merge(other: Hydra) returns (r: Result<()>)
      requires Valid() && other.Valid() && other != this && other.cells != cells
      requires rows == other.rows && cols == other.cols ==> place == other.place
      modifies this`stream, cells
      ensures Valid()
      ensures r.Ok? <==> rows == other.rows && cols == other.cols && kind == other.kind
                         && schema.labels == other.schema.labels
      ensures stream == if r.Ok? then old(stream) + other.stream else old(stream)
    {
      if rows != other.rows || cols != other.cols {
        return Err("Hydra dimension mismatch while merging");
      }
      if kind != other.kind {
        return Err("Hydra counter type mismatch while merging");
      }
      if schema.labels != other.schema.labels {
        return Err("Hydra schema mismatch while merging");
      }
      hide Fed, WellFormed, InRange;
      ghost var labels := schema.labels;
      forall r, c | 0 <= r < rows && 0 <= c < cols {
        cells[r, c] := cells[r, c] + other.cells[r, c];
      }
      stream := stream + other.stream;
      FedMerged(labels, place, old(stream), other.stream);
      return Ok(());
    }

    /** The median of the row estimates for the subpopulation of a query. */
    method QueryKey(key: seq<Option<string>>, query: Query, estimate: Estimator) returns (r: Result<real>)
      requires Valid()
      ensures r.Ok? <==>
                |key| == |schema.labels| && (exists c :: 0 <= c < |key| && key[c].Some?) && Supports(kind, query)
      ensures r.Ok? ==> exists mask, values ::
                Answers(schema.labels, place, stream, rows, key, mask, values, estimate, query, r.value)
      ensures r.Ok? && query.Frequency? && rows >= 1 && NonNegative(stream) && Overestimates(estimate) ==>
                r.value >= Truth(stream, key, query.value) as real
    {
      hide Fed, WellFormed, InRange, Resolves, Pow2, Subkey, IsMedian, NonNegative, Overestimates, Truth, Distinct;
      var resolved := ResolveQuery(schema, key);
      if resolved.Err? {
        return Err(resolved.message);
      }
      var (mask, values) := resolved.value;
      if !Supports(kind, query) {
        return Err("counter does not support query");
      }
      var sub := EncodeSubkeyInto(schema, values, mask);
      var estimates := [];
      var row := 0;
      while row < rows
        invariant row == |estimates| <= rows
        invariant forall i :: 0 <= i < row ==>
                    estimates[i] == estimate(Fed(schema.labels, place, stream, i, Slot(place, i, sub)), query)
      {
        var col := CellColumn(place, cols, row, sub);
        estimates := estimates + [estimate(cells[row, col], query)];
        row := row + 1;
      }
      assert estimates == RowEstimates(schema.labels, place, stream, rows, sub, estimate, query);
      var m := ComputeMedian(estimates);
      assert Answers(schema.labels, place, stream, rows, key, mask, values, estimate, query, m);
      if query.Frequency? && rows >= 1 && NonNegative(stream) && Overestimates(estimate) {
        SchemaDistinct(schema);
        MedianCovers(schema.labels, place, stream, rows, key, mask, values, estimate, query.value, m);
      }
      return Ok(m);
    }

    /** Main result: over Count-Min cells, and as long as no count is negative, a frequency query never
        undercounts its subpopulation. */
    method QueryFrequency(key: seq<Option<string>>, value: int, cm: CountMin) returns (r: Result<real>)
      requires Valid() && kind.CM?
      ensures r.Ok? <==> |key| == |schema.labels| && exists c :: 0 <= c < |key| && key[c].Some?
      ensures r.Ok? && rows >= 1 && NonNegative(stream) ==> r.value >= Truth(stream, key, value) as real
    {
      hide Truth, NonNegative, Fed, Answers;
      CountMinOverestimates(cm);
      r := QueryKey(key, Frequency(value), CountMinEstimator(cm));
    }
  }

  /** `m` is the median of the row estimates for the subpopulation that `key` describes. */
  ghost predicate Answers(labels: seq<string>, place: Placement, stream: seq<Record>, rows: nat,
                          key: seq<Option<string>>, mask: nat, values: seq<string>,
                          estimate: Estimator, query: Query, m: real)
    requires WellFormed(labels, stream)
  {
    && |key| == |labels| == |values| && Resolves(key, |key|, mask, values) && mask >= 1
    && IsMedian(RowEstimates(labels, place, stream, rows, Subkey(labels, values, mask), estimate, query), m)
  }

  lemma SchemaDistinct(schema: KeySchema)
    requires schema.Valid()
    ensures Distinct(schema.labels)
  {
  }

  /** The estimates of all rows for one subkey. */
  ghost function RowEstimates(labels: seq<string>, place: Placement, stream: seq<Record>, rows: nat, sub: string,
                              estimate: Estimator, query: Query): (v: seq<real>)
    requires WellFormed(labels, stream)
    ensures |v| == rows
  {
    seq(rows, r requires 0 <= r < rows => estimate(Fed(labels, place, stream, r, Slot(place, r, sub)), query))
  }

  lemma WritesFirst(labels: seq<string>, place: Placement, rec: Record)
    requires |rec.key| == |labels|
    ensures forall r: nat, c: nat :: Writes(labels, place, rec, 1, r, c) == []
  {
  }

  /** What one more mask adds to every cell. */
  lemma {:induction false} WritesSnoc(labels: seq<string>, place: Placement, stream: seq<Record>, rec: Record, m: nat)
    requires WellFormed(labels, stream) && |rec.key| == |labels| && m >= 1
    ensures forall r: nat, c: nat :: Fed(labels, place, stream, r, c) + Writes(labels, place, rec, m + 1, r, c)
                     == Fed(labels, place, stream, r, c) + Writes(labels, place, rec, m, r, c)
                        + if Slot(place, r, Subkey(labels, rec.key, m)) == c then [rec.entry] else []
  {
    hide Fed, Subkey;
  }

  lemma {:induction false} FedSnoc(labels: seq<string>, place: Placement, stream: seq<Record>, rec: Record)
    requires WellFormed(labels, stream) && |rec.key| == |labels|
    ensures WellFormed(labels, stream + [rec])
    ensures forall r: nat, c: nat :: Fed(labels, place, stream + [rec], r, c)
                     == Fed(labels, place, stream, r, c) + Writes(labels, place, rec, Pow2(|labels|), r, c)
  {
    hide Writes, Pow2;
    assert (stream + [rec])[..|stream|] == stream;
  }

  lemma {:induction false} FedMerged(labels: seq<string>, place: Placement, s: seq<Record>, t: seq<Record>)
    requires WellFormed(labels, s) && WellFormed(labels, t)
    ensures WellFormed(labels, s + t)
    ensures forall r: nat, c: nat ::
              Fed(labels, place, s + t, r, c) == Fed(labels, place, s, r, c) + Fed(labels, place, t, r, c)
  {
    forall r: nat, c: nat
      ensures Fed(labels, place, s + t, r, c) == Fed(labels, place, s, r, c) + Fed(labels, place, t, r, c)
    {
      FedAppend(labels, place, s, t, r, c);
    }
  }

  lemma {:induction false} WritesNonNegative(labels: seq<string>, place: Placement, rec: Record, bound: nat, r: nat,
                                             c: nat)
    requires |rec.key| == |labels| && rec.entry.count >= 0
    ensures NonNegativeCell(Writes(labels, place, rec, bound, r, c))
    decreases bound
  {
    hide Slot, Subkey;
    if bound > 1 {
      WritesNonNegative(labels, place, rec, bound - 1, r, c);
    }
  }

  lemma {:induction false} FedNonNegative(labels: seq<string>, place: Placement, stream: seq<Record>, r: nat, c: nat)
    requires WellFormed(labels, stream) && NonNegative(stream)
    ensures NonNegativeCell(Fed(labels, place, stream, r, c))
    decreases |stream|
  {
    hide Writes, Pow2;
    if stream != [] {
      var n := |stream| - 1;
      FedNonNegative(labels, place, stream[..n], r, c);
      WritesNonNegative(labels, place, stream[n], Pow2(|labels|), r, c);
    }
  }

  /** Over cells that never undercount, and without negative counts, the median of the rows never
      undercounts the subpopulation of a query. */
  lemma {:induction false} MedianCovers(labels: seq<string>, place: Placement, stream: seq<Record>, rows: nat,
                                        key: seq<Option<string>>, mask: nat, values: seq<string>,
                                        estimate: Estimator, value: int, m: real)
    requires Distinct(labels) && WellFormed(labels, stream) && NonNegative(stream) && rows >= 1
             && Overestimates(estimate)
    requires Answers(labels, place, stream, rows, key, mask, values, estimate, Frequency(value), m)
    ensures m >= Truth(stream, key, value) as real
  {
    hide Subkey, IsMedian, Truth, Resolves, Distinct, Fed, Pow2, NonNegative, NonNegativeCell, Total;
    var sub := Subkey(labels, values, mask);
    var v := RowEstimates(labels, place, stream, rows, sub, estimate, Frequency(value));
    forall r | 0 <= r < |v| ensures v[r] >= Truth(stream, key, value) as real {
      CellsCover(labels, place, stream, r, key, mask, values, value);
      FedNonNegative(labels, place, stream, r, Slot(place, r, sub));
    }
    MedianAtLeast(v, m, Truth(stream, key, value) as real);
  }
}
