/** The compact worker sketches of OctoSketch: one-byte counters that are promoted to the
    aggregator and cleared as soon as they reach the threshold.

    `Insert` and `FlushFrom` are the value-level meaning of the two operations, shared by the
    Count-Min worker (unsigned bytes) and the Count worker (signed bytes); the two classes
    update their arrays in place and are proved against them. */
module OctoWorker {
  import opened Wrappers

  newtype u8 = x: int | 0 <= x < 0x100
  newtype i8 = x: int | -0x80 <= x < 0x80

  type Hash = h: int | 0 <= h < 0x1_0000_0000_0000_0000

  const MAX_PROMASK: int := 127
  const LOWER_32: int := 0x1_0000_0000
  const SIGN_BIT: int := 0x8000_0000_0000_0000

  datatype Kind = CountMin | CountSketch

  /** Which counters a sketch has, and whether an arrival adds 1 or plus/minus 1. */
  datatype Geometry = Geometry(kind: Kind, rows: pos, cols: pos) {
    function Cells(): nat {
      RowStart(cols, rows)
    }
  }

  /** One promoted counter. */
  datatype Delta = Delta(row: nat, col: nat, value: int)

  function Clamp(threshold: nat): (tau: int)
    ensures 1 <= tau <= MAX_PROMASK
    ensures 1 <= threshold <= 127 ==> tau == threshold
    ensures threshold == 0 ==> tau == 1
    ensures threshold > 127 ==> tau == 127
  {
    if threshold < 1 then 1 else if threshold > MAX_PROMASK then MAX_PROMASK else threshold
  }

  function Abs(v: int): nat {
    if v < 0 then -v else v
  }

  function Column(cols: pos, hash: Hash): (c: nat)
    ensures c < cols
  {
    (hash % LOWER_32) % cols
  }

  function Weight(kind: Kind, hash: Hash): int {
    if kind.CountMin? || (hash / SIGN_BIT) % 2 == 1 then 1 else -1
  }

  /** Where row `row` starts in the row-major array: `row * cols`, by `RowStartIsProduct`. */
  function RowStart(cols: nat, row: nat): nat {
    if row == 0 then 0 else RowStart(cols, row - 1) + cols
  }

  lemma {:induction false} RowStartIsProduct(cols: nat, row: nat)
    ensures RowStart(cols, row) == row * cols
  {
    if row > 0 {
      RowStartIsProduct(cols, row - 1);
    }
  }

  /** Row-major position of a counter. */
  function Slot(cols: nat, row: nat, col: nat): nat {
    RowStart(cols, row) + col
  }

  lemma {:induction false} SlotInRange(rows: nat, cols: nat, row: nat, col: nat)
    requires row < rows && col < cols
    ensures Slot(cols, row, col) < RowStart(cols, rows)
  {
    if row < rows - 1 {
      SlotInRange(rows - 1, cols, row, col);
    }
  }

  lemma NextRow(cols: nat, row: nat)
    ensures Slot(cols, row, cols) == Slot(cols, row + 1, 0)
  {
  }

  ghost predicate InGrid(g: Geometry, d: Delta) {
    d.row < g.rows && d.col < g.cols
  }

  // ---------------------------------------------------------------- insertion

  /** Row `row` of one arrival: the counter it maps to takes the row's weight, and is promoted
      and cleared if its magnitude reaches `tau`. */
  ghost function Bump(g: Geometry, cells: seq<int>, hash: Hash, tau: int, row: nat): (r: (seq<int>, seq<Delta>))
    requires |cells| == g.Cells() && row < g.rows
    ensures |r.0| == |cells|
  {
    var col := Column(g.cols, hash);
    SlotInRange(g.rows, g.cols, row, col);
    var i := Slot(g.cols, row, col);
    var v := cells[i] + Weight(g.kind, hash);
    if Abs(v) >= tau then (cells[i := 0], [Delta(row, col, v)]) else (cells[i := v], [])
  }

  /** The counters and the promotions that rows `row..` of one arrival leave behind. */
  ghost function InsertFrom(g: Geometry, cells: seq<int>, hashes: seq<Hash>, tau: int, row: nat)
    : (r: (seq<int>, seq<Delta>))
    requires |cells| == g.Cells() && |hashes| == g.rows && row <= g.rows
    ensures |r.0| == |cells|
    decreases g.rows - row
  {
    if row == g.rows then (cells, [])
    else
      var here := Bump(g, cells, hashes[row], tau, row);
      var rest := InsertFrom(g, here.0, hashes, tau, row + 1);
      (rest.0, here.1 + rest.1)
  }

  ghost function Insert(g: Geometry, cells: seq<int>, hashes: seq<Hash>, tau: int): (seq<int>, seq<Delta>)
    requires |cells| == g.Cells() && |hashes| == g.rows
  {
    InsertFrom(g, cells, hashes, tau, 0)
  }

  // ---------------------------------------------------------------- what an insert does, counter by counter

  /** Position of row `r`'s counter for an arrival: the low 32 bits of the hash pick the column. */
  ghost function Address(g: Geometry, hashes: seq<Hash>, r: nat): nat
    requires r < |hashes|
  {
    r * g.cols + hashes[r] % 0x1_0000_0000 % g.cols
  }

  /** That counter once the arrival is added: plus one, or for Count minus one if the top bit is clear. */
  ghost function Reached(g: Geometry, cells: seq<int>, hashes: seq<Hash>, r: nat): int
    requires r < |hashes|
  {
    var i := Address(g, hashes, r);
    (if i < |cells| then cells[i] else 0) + if g.kind.CountMin? || hashes[r] >= 0x8000_0000_0000_0000 then 1 else -1
  }

  /** Whether row `r`'s counter gets to the threshold, from either side. */
  ghost predicate Fires(g: Geometry, cells: seq<int>, hashes: seq<Hash>, tau: int, r: nat)
    requires r < |hashes|
  {
    var v := Reached(g, cells, hashes, r);
    v >= tau || -v >= tau
  }

  ghost predicate Untouched(g: Geometry, hashes: seq<Hash>, from: nat, i: int) {
    forall r: nat :: from <= r < |hashes| ==> Address(g, hashes, r) != i
  }

  /** The counters that rows `from..` of one arrival leave behind: cleared where they got to the threshold,
      and no other counter changes. */
  ghost predicate Leaves(g: Geometry, cells: seq<int>, hashes: seq<Hash>, tau: int, from: nat, now: seq<int>) {
    && |now| == |cells|
    && (forall r: nat :: from <= r < |hashes| ==>
          && Address(g, hashes, r) < |cells|
          && now[Address(g, hashes, r)] == if Fires(g, cells, hashes, tau, r) then 0 else Reached(g, cells, hashes, r))
    && forall i :: 0 <= i < |cells| && Untouched(g, hashes, from, i) ==> now[i] == cells[i]
  }

  /** The promotion of row `r`: its whole counter. */
  ghost function Promotion(g: Geometry, cells: seq<int>, hashes: seq<Hash>, r: nat): Delta
    requires r < |hashes|
  {
    Delta(r, hashes[r] % 0x1_0000_0000 % g.cols, Reached(g, cells, hashes, r))
  }

  /** What they send: one promotion for each row whose counter got to the threshold, in order, and nothing
      else. */
  ghost predicate Sends(g: Geometry, cells: seq<int>, hashes: seq<Hash>, tau: int, from: nat, sent: seq<Delta>) {
    && (forall r: nat :: from <= r < |hashes| && Fires(g, cells, hashes, tau, r) ==>
          Promotion(g, cells, hashes, r) in sent)
    && (forall a :: 0 <= a < |sent| ==>
          && from <= sent[a].row < |hashes| && Fires(g, cells, hashes, tau, sent[a].row)
          && sent[a] == Promotion(g, cells, hashes, sent[a].row))
    && forall a, b :: 0 <= a < b < |sent| ==> sent[a].row < sent[b].row
  }

  ghost predicate Arrived(g: Geometry, cells: seq<int>, hashes: seq<Hash>, tau: int, from: nat,
                          now: seq<int>, sent: seq<Delta>)
  {
    Leaves(g, cells, hashes, tau, from, now) && Sends(g, cells, hashes, tau, from, sent)
  }

  lemma {:induction false} AddressIsSlot(g: Geometry, hashes: seq<Hash>, r: nat)
    requires r < |hashes| && r < g.rows
    ensures Address(g, hashes, r) == Slot(g.cols, r, Column(g.cols, hashes[r])) < g.Cells()
  {
    RowStartIsProduct(g.cols, r);
    SlotInRange(g.rows, g.cols, r, Column(g.cols, hashes[r]));
  }

  lemma {:induction false} SlotsDiffer(cols: nat, r: nat, c: nat, row: nat, col: nat)
    requires c < cols && col < cols && Slot(cols, r, c) == Slot(cols, row, col)
    ensures r == row && c == col
  {
    if r < row {
      SlotInRange(row, cols, r, c);
    } else if row < r {
      SlotInRange(r, cols, row, col);
    }
  }

  lemma {:induction false} AddressesDiffer(g: Geometry, hashes: seq<Hash>, r: nat, q: nat)
    requires r < q < |hashes| && q < g.rows
    ensures Address(g, hashes, r) != Address(g, hashes, q)
  {
    AddressIsSlot(g, hashes, r);
    AddressIsSlot(g, hashes, q);
    if Address(g, hashes, r) == Address(g, hashes, q) {
      SlotsDiffer(g.cols, r, Column(g.cols, hashes[r]), q, Column(g.cols, hashes[q]));
    }
  }

  lemma {:induction false} BumpIs(g: Geometry, cells: seq<int>, hashes: seq<Hash>, tau: int, r: nat)
    requires |cells| == g.Cells() && r < |hashes| && r < g.rows && tau >= 1
    ensures Address(g, hashes, r) < |cells|
    ensures Bump(g, cells, hashes[r], tau, r) ==
            if Fires(g, cells, hashes, tau, r) then
              (cells[Address(g, hashes, r) := 0], [Promotion(g, cells, hashes, r)])
            else
              (cells[Address(g, hashes, r) := Reached(g, cells, hashes, r)], [])
  {
    AddressIsSlot(g, hashes, r);
    hide Slot, RowStart, Address;
  }

  /** The rows after `from` find their counters as they were. */
  ghost predicate Spared(g: Geometry, cells: seq<int>, mid: seq<int>, hashes: seq<Hash>, from: nat) {
    forall q: nat :: from < q < |hashes| ==>
      from < |hashes| && Address(g, hashes, from) != Address(g, hashes, q)
      && Reached(g, mid, hashes, q) == Reached(g, cells, hashes, q)
  }

  /** Main result: the recursion over the rows does exactly that. */
  lemma {:induction false} InsertArrives(g: Geometry, cells: seq<int>, hashes: seq<Hash>, tau: int, from: nat)
    requires |cells| == g.Cells() && |hashes| == g.rows && from <= g.rows && tau >= 1
    ensures var r := InsertFrom(g, cells, hashes, tau, from); Arrived(g, cells, hashes, tau, from, r.0, r.1)
    decreases g.rows - from
  {
    hide Bump, Address;
    if from < g.rows {
      var here := Bump(g, cells, hashes[from], tau, from);
      BumpIs(g, cells, hashes, tau, from);
      forall q: nat | from < q < g.rows
        ensures Address(g, hashes, from) != Address(g, hashes, q)
        ensures Reached(g, here.0, hashes, q) == Reached(g, cells, hashes, q)
      {
        AddressesDiffer(g, hashes, from, q);
      }
      assert Spared(g, cells, here.0, hashes, from);
      InsertArrives(g, here.0, hashes, tau, from + 1);
      var rest := InsertFrom(g, here.0, hashes, tau, from + 1);
      hide Reached, Fires, Spared, Promotion, Leaves, Sends;
      LeavesNext(g, cells, hashes, tau, from, here.0, rest.0);
      SendsNext(g, cells, hashes, tau, from, here.0, here.1, rest.1);
    }
  }

  lemma {:induction false} LeavesNext(g: Geometry, cells: seq<int>, hashes: seq<Hash>, tau: int, from: nat,
                                      mid: seq<int>, now: seq<int>)
    requires |cells| == |mid| && from < |hashes| && Address(g, hashes, from) < |cells|
    requires mid == cells[Address(g, hashes, from) :=
                            if Fires(g, cells, hashes, tau, from) then 0 else Reached(g, cells, hashes, from)]
    requires Spared(g, cells, mid, hashes, from) && Leaves(g, mid, hashes, tau, from + 1, now)
    ensures Leaves(g, cells, hashes, tau, from, now)
  {
    hide Address, Reached;
    assert Untouched(g, hashes, from + 1, Address(g, hashes, from));
    forall i | 0 <= i < |cells| && Untouched(g, hashes, from, i) ensures now[i] == cells[i] {
      assert Untouched(g, hashes, from + 1, i);
    }
  }

  lemma {:induction false} SendsNext(g: Geometry, cells: seq<int>, hashes: seq<Hash>, tau: int, from: nat,
                                     mid: seq<int>, first: seq<Delta>, rest: seq<Delta>)
    requires from < |hashes| && Spared(g, cells, mid, hashes, from)
    requires first == if Fires(g, cells, hashes, tau, from) then [Promotion(g, cells, hashes, from)] else []
    requires Sends(g, mid, hashes, tau, from + 1, rest)
    ensures Sends(g, cells, hashes, tau, from, first + rest)
  {
    hide Address, Reached;
    var sent := first + rest;
    assert forall q: nat :: from < q < |hashes| ==>
             (Fires(g, mid, hashes, tau, q) <==> Fires(g, cells, hashes, tau, q))
             && Promotion(g, mid, hashes, q) == Promotion(g, cells, hashes, q);
    hide Fires, Promotion;
    assert first != [] ==> sent[0] == first[0];
    assert forall a :: 0 <= a < |rest| ==> sent[|first| + a] == rest[a];
    forall a | 0 <= a < |sent| ensures sent[a] == if a < |first| then first[a] else rest[a - |first|] {
    }
  }

  // ---------------------------------------------------------------- flushing

  ghost function Take(g: Geometry, cells: seq<int>, row: nat, col: nat): (ds: seq<Delta>)
    requires |cells| == g.Cells() && row < g.rows && col < g.cols
  {
    SlotInRange(g.rows, g.cols, row, col);
    var v := cells[Slot(g.cols, row, col)];
    if v != 0 then [Delta(row, col, v)] else []
  }

  /** The promotions a flush sends from counter (`row`, `col`) on, in row-major order. */
  ghost function FlushFrom(g: Geometry, cells: seq<int>, row: nat, col: nat): seq<Delta>
    requires |cells| == g.Cells() && row <= g.rows && col <= g.cols
    decreases g.rows - row, g.cols - col
  {
    if row == g.rows then []
    else if col == g.cols then FlushFrom(g, cells, row + 1, 0)
    else Take(g, cells, row, col) + FlushFrom(g, cells, row, col + 1)
  }

  ghost function FlushAll(g: Geometry, cells: seq<int>): seq<Delta>
    requires |cells| == g.Cells()
  {
    FlushFrom(g, cells, 0, 0)
  }

  ghost function Zeros(n: nat): seq<int> {
    seq(n, i => 0)
  }

  lemma TakeFrame(g: Geometry, a: seq<int>, b: seq<int>, row: nat, col: nat)
    requires |a| == |b| == g.Cells() && row < g.rows && col < g.cols
    requires Slot(g.cols, row, col) < |a| && a[Slot(g.cols, row, col)] == b[Slot(g.cols, row, col)]
    ensures Take(g, a, row, col) == Take(g, b, row, col)
  {
  }

  /** `now` is `was` with counters `from..to` cleared. */
  ghost predicate Cleared(was: seq<int>, now: seq<int>, from: nat, to: nat) {
    |now| == |was| && forall i :: 0 <= i < |was| ==> now[i] == if from <= i < to then 0 else was[i]
  }

  ghost predicate AgreeFrom(a: seq<int>, b: seq<int>, k: nat) {
    |a| == |b| && forall i :: k <= i < |a| ==> a[i] == b[i]
  }

  lemma ClearedAgree(was: seq<int>, now: seq<int>, from: nat, to: nat, k: nat)
    requires Cleared(was, now, from, to) && to <= k
    ensures AgreeFrom(was, now, k)
  {
  }

  lemma ClearedCompose(was: seq<int>, mid: seq<int>, now: seq<int>, from: nat, k: nat, to: nat)
    requires from <= k <= to && Cleared(was, mid, from, k) && Cleared(mid, now, k, to)
    ensures Cleared(was, now, from, to)
  {
  }

  lemma ClearedNone(cells: seq<int>, k: nat)
    ensures Cleared(cells, cells, k, k)
  {
  }

  lemma ClearedAllIsZeros(was: seq<int>, now: seq<int>)
    requires Cleared(was, now, 0, |was|)
    ensures now == Zeros(|was|)
  {
  }

  /** A flush from (`row`, `col`) on reads no earlier counter. */
  lemma {:induction false} FlushFromFrame(g: Geometry, a: seq<int>, b: seq<int>, row: nat, col: nat)
    requires |a| == |b| == g.Cells() && row <= g.rows && col <= g.cols
    requires AgreeFrom(a, b, Slot(g.cols, row, col))
    ensures FlushFrom(g, a, row, col) == FlushFrom(g, b, row, col)
    decreases g.rows - row, g.cols - col
  {
    hide Take, RowStart;
    if row == g.rows {
    } else if col == g.cols {
      NextRow(g.cols, row);
      FlushFromFrame(g, a, b, row + 1, 0);
    } else {
      SlotInRange(g.rows, g.cols, row, col);
      TakeFrame(g, a, b, row, col);
      FlushFromFrame(g, a, b, row, col + 1);
    }
  }

  lemma ConcatAssociates<T>(a: seq<T>, b: seq<T>, c: seq<T>)
    ensures (a + b) + c == a + (b + c)
  {
  }

  lemma {:induction false} FlushNext(g: Geometry, sent: seq<Delta>, cells: seq<int>, row: nat, col: nat)
    requires |cells| == g.Cells() && row < g.rows && col < g.cols
    ensures sent + FlushFrom(g, cells, row, col)
         == (sent + Take(g, cells, row, col)) + FlushFrom(g, cells, row, col + 1)
  {
    ConcatAssociates(sent, Take(g, cells, row, col), FlushFrom(g, cells, row, col + 1));
  }

  /** One more row flushed: what is sent and what is cleared grow together. */
  lemma {:induction false} FlushRowNext(g: Geometry, was: seq<int>, now: seq<int>, next: seq<int>,
                                        sent: seq<Delta>, promoted: seq<Delta>, row: nat)
    requires |was| == |now| == |next| == g.Cells() && row < g.rows
    requires FlushAll(g, was) == sent + FlushFrom(g, was, row, 0) && Cleared(was, now, 0, Slot(g.cols, row, 0))
    requires promoted + FlushFrom(g, now, row + 1, 0) == FlushFrom(g, now, row, 0)
    requires Cleared(now, next, Slot(g.cols, row, 0), Slot(g.cols, row + 1, 0))
    ensures FlushAll(g, was) == (sent + promoted) + FlushFrom(g, was, row + 1, 0)
    ensures Cleared(was, next, 0, Slot(g.cols, row + 1, 0))
  {
    hide Cleared, AgreeFrom, FlushFrom, FlushAll;
    var k, m := Slot(g.cols, row, 0), Slot(g.cols, row + 1, 0);
    ClearedCompose(was, now, next, 0, k, m);
    ClearedAgree(was, now, 0, k, k);
    ClearedAgree(was, now, 0, k, m);
    FlushFromFrame(g, was, now, row, 0);
    FlushFromFrame(g, was, now, row + 1, 0);
    ConcatAssociates(sent, promoted, FlushFrom(g, was, row + 1, 0));
  }

  /** Row-major position of a counter, as a product. */
  ghost function Offset(g: Geometry, row: nat, col: nat): nat {
    row * g.cols + col
  }

  /** `sent` lists every counter from position `from` on that is not zero, once, with its value and in
      row-major order. */
  ghost predicate ListsFrom(g: Geometry, cells: seq<int>, from: nat, sent: seq<Delta>) {
    && (forall row: nat, col: nat :: row < g.rows && col < g.cols ==>
          && Offset(g, row, col) < |cells|
          && (Offset(g, row, col) >= from && cells[Offset(g, row, col)] != 0 ==>
                Delta(row, col, cells[Offset(g, row, col)]) in sent))
    && (forall a :: 0 <= a < |sent| ==>
          && InGrid(g, sent[a]) && from <= Offset(g, sent[a].row, sent[a].col) < |cells|
          && sent[a].value == cells[Offset(g, sent[a].row, sent[a].col)] != 0)
    && forall a, b :: 0 <= a < b < |sent| ==> Offset(g, sent[a].row, sent[a].col) < Offset(g, sent[b].row, sent[b].col)
  }

  lemma {:induction false} AtIsSlot(g: Geometry, row: nat, col: nat)
    ensures Offset(g, row, col) == Slot(g.cols, row, col)
    ensures row < g.rows && col < g.cols ==> Offset(g, row, col) < g.Cells()
  {
    RowStartIsProduct(g.cols, row);
    if row < g.rows && col < g.cols {
      SlotInRange(g.rows, g.cols, row, col);
    }
  }

  lemma {:induction false} TakeLists(g: Geometry, cells: seq<int>, row: nat, col: nat, rest: seq<Delta>)
    requires |cells| == g.Cells() && row < g.rows && col < g.cols
    requires ListsFrom(g, cells, Offset(g, row, col) + 1, rest)
    ensures ListsFrom(g, cells, Offset(g, row, col), Take(g, cells, row, col) + rest)
  {
    AtIsSlot(g, row, col);
    var sent := Take(g, cells, row, col) + rest;
    forall r: nat, c: nat | r < g.rows && c < g.cols && Offset(g, r, c) == Offset(g, row, col)
      ensures r == row && c == col
    {
      AtIsSlot(g, r, c);
      SlotsDiffer(g.cols, r, c, row, col);
    }
    hide Offset, Slot, RowStart;
    assert cells[Offset(g, row, col)] != 0 ==> sent[0] == Delta(row, col, cells[Offset(g, row, col)]);
    assert forall d :: d in rest ==> d in sent;
  }

  lemma {:induction false} FlushLists(g: Geometry, cells: seq<int>, row: nat, col: nat)
    requires |cells| == g.Cells() && row <= g.rows && col <= g.cols
    ensures ListsFrom(g, cells, Offset(g, row, col), FlushFrom(g, cells, row, col))
    decreases g.rows - row, g.cols - col
  {
    hide Take, RowStart;
    forall r: nat, c: nat | r < g.rows && c < g.cols ensures Offset(g, r, c) < g.Cells() {
      AtIsSlot(g, r, c);
    }
    AtIsSlot(g, row, col);
    if row == g.rows {
    } else if col == g.cols {
      AtIsSlot(g, row + 1, 0);
      NextRow(g.cols, row);
      FlushLists(g, cells, row + 1, 0);
    } else {
      assert Offset(g, row, col + 1) == Offset(g, row, col) + 1;
      FlushLists(g, cells, row, col + 1);
      TakeLists(g, cells, row, col, FlushFrom(g, cells, row, col + 1));
    }
  }

  /** Main result: a flush sends every counter that is not zero, once, in order. */
  lemma {:induction false} FlushAllLists(g: Geometry, cells: seq<int>)
    requires |cells| == g.Cells()
    ensures ListsFrom(g, cells, 0, FlushAll(g, cells))
  {
    FlushLists(g, cells, 0, 0);
    AtIsSlot(g, 0, 0);
  }

  // ---------------------------------------------------------------- conservation

  /** What the promotions in `ds` carry for counter `i`. */
  ghost function Mass(g: Geometry, ds: seq<Delta>, i: int): int {
    if ds == [] then 0
    else (if Slot(g.cols, ds[0].row, ds[0].col) == i then ds[0].value else 0) + Mass(g, ds[1..], i)
  }

  lemma {:induction false} MassConcat(g: Geometry, a: seq<Delta>, b: seq<Delta>, i: int)
    ensures Mass(g, a + b, i) == Mass(g, a, i) + Mass(g, b, i)
  {
    if a == [] {
      assert a + b == b;
    } else {
      MassConcat(g, a[1..], b, i);
      assert (a + b)[1..] == a[1..] + b;
    }
  }

  /** What rows `row..` of one arrival add to counter `i` of a single-threaded sketch. */
  ghost function ContributionFrom(g: Geometry, hashes: seq<Hash>, row: nat, i: int): int
    requires row <= |hashes|
    decreases |hashes| - row
  {
    if row == |hashes| then 0
    else (if Slot(g.cols, row, Column(g.cols, hashes[row])) == i then Weight(g.kind, hashes[row]) else 0)
         + ContributionFrom(g, hashes, row + 1, i)
  }

  ghost function Contribution(g: Geometry, hashes: seq<Hash>, i: int): int {
    ContributionFrom(g, hashes, 0, i)
  }

  lemma {:induction false} BumpConserves(g: Geometry, cells: seq<int>, hash: Hash, tau: int, row: nat, i: int)
    requires |cells| == g.Cells() && row < g.rows && 0 <= i < g.Cells()
    ensures var r := Bump(g, cells, hash, tau, row);
            r.0[i] + Mass(g, r.1, i) ==
            cells[i] + (if Slot(g.cols, row, Column(g.cols, hash)) == i then Weight(g.kind, hash) else 0)
  {
    SlotInRange(g.rows, g.cols, row, Column(g.cols, hash));
  }

  /** No arrival is lost or counted twice: what stays in the worker plus what it promotes is
      what it held plus what the arrival adds, whatever the threshold. */
  lemma {:induction false} InsertConserves(g: Geometry, cells: seq<int>, hashes: seq<Hash>, tau: int, row: nat, i: int)
    requires |cells| == g.Cells() && |hashes| == g.rows && row <= g.rows
    requires 0 <= i < g.Cells()
    ensures var r := InsertFrom(g, cells, hashes, tau, row);
            r.0[i] + Mass(g, r.1, i) == cells[i] + ContributionFrom(g, hashes, row, i)
    decreases g.rows - row
  {
    if row < g.rows {
      var here := Bump(g, cells, hashes[row], tau, row);
      BumpConserves(g, cells, hashes[row], tau, row, i);
      InsertConserves(g, here.0, hashes, tau, row + 1, i);
      MassConcat(g, here.1, InsertFrom(g, here.0, hashes, tau, row + 1).1, i);
    }
  }

  lemma {:induction false} TakeMass(g: Geometry, cells: seq<int>, row: nat, col: nat, i: int)
    requires |cells| == g.Cells() && row < g.rows && col < g.cols
    requires 0 <= i < g.Cells()
    ensures Mass(g, Take(g, cells, row, col), i) == if i == Slot(g.cols, row, col) then cells[i] else 0
  {
    SlotInRange(g.rows, g.cols, row, col);
  }

  lemma {:induction false} FlushFromMass(g: Geometry, cells: seq<int>, row: nat, col: nat, i: int)
    requires |cells| == g.Cells() && row <= g.rows && col <= g.cols
    requires 0 <= i < g.Cells()
    ensures Mass(g, FlushFrom(g, cells, row, col), i) == if i >= Slot(g.cols, row, col) then cells[i] else 0
    decreases g.rows - row, g.cols - col
  {
    if row == g.rows {
    } else if col == g.cols {
      FlushFromMass(g, cells, row + 1, 0, i);
      assert Slot(g.cols, row, g.cols) == Slot(g.cols, row + 1, 0);
    } else {
      SlotInRange(g.rows, g.cols, row, col);
      TakeMass(g, cells, row, col, i);
      FlushFromMass(g, cells, row, col + 1, i);
      MassConcat(g, Take(g, cells, row, col), FlushFrom(g, cells, row, col + 1), i);
    }
  }

  /** A flush hands over exactly what every counter still held. */
  lemma {:induction false} FlushConserves(g: Geometry, cells: seq<int>, i: int)
    requires |cells| == g.Cells() && 0 <= i < g.Cells()
    ensures Mass(g, FlushAll(g, cells), i) == cells[i]
  {
    FlushFromMass(g, cells, 0, 0, i);
  }

  // ---------------------------------------------------------------- bounds

  /** Every counter stays below `bound`; a Count-Min counter is also never negative. */
  ghost predicate Bounded(kind: Kind, cells: seq<int>, bound: int) {
    forall i :: 0 <= i < |cells| ==> Abs(cells[i]) < bound && (kind.CountMin? ==> cells[i] >= 0)
  }

  ghost predicate Promotable(g: Geometry, ds: seq<Delta>, bound: int) {
    forall d :: d in ds ==> InGrid(g, d) && 1 <= Abs(d.value) <= bound && (g.kind.CountMin? ==> d.value >= 1)
  }

  /** With every threshold used so far at most `bound`, no counter ever reaches `bound`, and no
      promotion exceeds it: with `bound` = 127 both fit one byte, signed or not. */
  lemma {:induction false} InsertBounded(g: Geometry, cells: seq<int>, hashes: seq<Hash>, tau: int, row: nat,
                                         bound: int)
    requires |cells| == g.Cells() && |hashes| == g.rows && row <= g.rows
    requires 1 <= tau <= bound && Bounded(g.kind, cells, bound)
    ensures var r := InsertFrom(g, cells, hashes, tau, row);
            Bounded(g.kind, r.0, bound) && Promotable(g, r.1, bound)
    decreases g.rows - row
  {
    if row < g.rows {
      SlotInRange(g.rows, g.cols, row, Column(g.cols, hashes[row]));
      InsertBounded(g, Bump(g, cells, hashes[row], tau, row).0, hashes, tau, row + 1, bound);
    }
  }

  lemma {:induction false} TakePromotable(g: Geometry, cells: seq<int>, row: nat, col: nat, bound: int)
    requires |cells| == g.Cells() && row < g.rows && col < g.cols
    requires Bounded(g.kind, cells, bound)
    ensures Promotable(g, Take(g, cells, row, col), bound)
  {
    SlotInRange(g.rows, g.cols, row, col);
  }

  lemma {:induction false} FlushPromotable(g: Geometry, cells: seq<int>, row: nat, col: nat, bound: int)
    requires |cells| == g.Cells() && row <= g.rows && col <= g.cols
    requires Bounded(g.kind, cells, bound)
    ensures Promotable(g, FlushFrom(g, cells, row, col), bound)
    decreases g.rows - row, g.cols - col
  {
    hide Bounded, Take;
    if row == g.rows {
    } else if col == g.cols {
      FlushPromotable(g, cells, row + 1, 0, bound);
    } else {
      TakePromotable(g, cells, row, col, bound);
      FlushPromotable(g, cells, row, col + 1, bound);
    }
  }

  lemma {:induction false} FlushAllPromotable(g: Geometry, cells: seq<int>, bound: int)
    requires |cells| == g.Cells() && Bounded(g.kind, cells, bound)
    ensures Promotable(g, FlushAll(g, cells), bound)
  {
    FlushPromotable(g, cells, 0, 0, bound);
  }

  // ---------------------------------------------------------------- cost of a flush

  ghost function NonZero(cells: seq<int>): nat {
    if cells == [] then 0 else (if cells[0] != 0 then 1 else 0) + NonZero(cells[1..])
  }

  lemma {:induction false} NonZeroUpdate(cells: seq<int>, i: nat, v: int)
    requires i < |cells|
    ensures NonZero(cells[i := v]) + (if cells[i] != 0 then 1 else 0) == NonZero(cells) + (if v != 0 then 1 else 0)
  {
    if i > 0 {
      NonZeroUpdate(cells[1..], i - 1, v);
      assert cells[i := v][1..] == cells[1..][i - 1 := v];
    }
  }

  /** One arrival occupies at most one more counter, or sends at most one promotion, per row. */
  lemma {:induction false} InsertCost(g: Geometry, cells: seq<int>, hashes: seq<Hash>, tau: int, row: nat)
    requires |cells| == g.Cells() && |hashes| == g.rows && row <= g.rows
    ensures var r := InsertFrom(g, cells, hashes, tau, row);
            NonZero(r.0) + |r.1| <= NonZero(cells) + (g.rows - row)
    decreases g.rows - row
  {
    if row < g.rows {
      var j := Slot(g.cols, row, Column(g.cols, hashes[row]));
      SlotInRange(g.rows, g.cols, row, Column(g.cols, hashes[row]));
      var here := Bump(g, cells, hashes[row], tau, row);
      NonZeroUpdate(cells, j, here.0[j]);
      InsertCost(g, here.0, hashes, tau, row + 1);
    }
  }

  lemma {:induction false} NonZeroFrom(cells: seq<int>, i: nat)
    requires i < |cells|
    ensures NonZero(cells[i..]) == (if cells[i] != 0 then 1 else 0) + NonZero(cells[i + 1..])
  {
    assert cells[i..][1..] == cells[i + 1..];
  }

  lemma NonZeroEmpty(cells: seq<int>, i: nat)
    requires i == |cells|
    ensures NonZero(cells[i..]) == 0
  {
  }

  lemma {:induction false} TakeLength(g: Geometry, cells: seq<int>, row: nat, col: nat)
    requires |cells| == g.Cells() && row < g.rows && col < g.cols
    ensures Slot(g.cols, row, col) < |cells|
    ensures |Take(g, cells, row, col)| == if cells[Slot(g.cols, row, col)] != 0 then 1 else 0
  {
    SlotInRange(g.rows, g.cols, row, col);
  }

  lemma {:induction false} FlushFromLength(g: Geometry, cells: seq<int>, row: nat, col: nat)
    requires |cells| == g.Cells() && row <= g.rows && col <= g.cols
    requires Slot(g.cols, row, col) <= |cells|
    ensures |FlushFrom(g, cells, row, col)| == NonZero(cells[Slot(g.cols, row, col)..])
    decreases g.rows - row, g.cols - col
  {
    hide Take, NonZero;
    if row == g.rows {
      NonZeroEmpty(cells, Slot(g.cols, row, col));
    } else if col == g.cols {
      assert Slot(g.cols, row, g.cols) == Slot(g.cols, row + 1, 0);
      FlushFromLength(g, cells, row + 1, 0);
    } else {
      TakeLength(g, cells, row, col);
      NonZeroFrom(cells, Slot(g.cols, row, col));
      FlushFromLength(g, cells, row, col + 1);
    }
  }

  /** A flush sends one promotion per counter that is not zero. */
  lemma {:induction false} FlushCost(g: Geometry, cells: seq<int>)
    requires |cells| == g.Cells()
    ensures |FlushAll(g, cells)| == NonZero(cells)
  {
    assert Slot(g.cols, 0, 0) == 0;
    assert cells[0..] == cells;
    FlushFromLength(g, cells, 0, 0);
  }

  // ---------------------------------------------------------------- single-threaded reference

  /** Counter `i` of the single-threaded sketch after `inputs`, given by their row hashes. */
  ghost function SinglePassCell(g: Geometry, inputs: seq<seq<Hash>>, i: int): int {
    if inputs == [] then 0
    else SinglePassCell(g, inputs[..|inputs| - 1], i) + Contribution(g, inputs[|inputs| - 1], i)
  }

  ghost predicate FullRows(g: Geometry, inputs: seq<seq<Hash>>) {
    forall h :: h in inputs ==> |h| == g.rows
  }

  /** One arrival into the single-threaded sketch: one counter per row. */
  ghost function AddFrom(g: Geometry, cells: seq<int>, hashes: seq<Hash>, row: nat): (r: seq<int>)
    requires |cells| == g.Cells() && |hashes| == g.rows && row <= g.rows
    ensures |r| == |cells|
    decreases g.rows - row
  {
    if row == g.rows then cells
    else
      var col := Column(g.cols, hashes[row]);
      SlotInRange(g.rows, g.cols, row, col);
      var i := Slot(g.cols, row, col);
      AddFrom(g, cells[i := cells[i] + Weight(g.kind, hashes[row])], hashes, row + 1)
  }

  /** The single-threaded sketch after `inputs`. */
  ghost function SinglePass(g: Geometry, inputs: seq<seq<Hash>>): (r: seq<int>)
    requires FullRows(g, inputs)
    ensures |r| == g.Cells()
  {
    if inputs == [] then Zeros(g.Cells())
    else AddFrom(g, SinglePass(g, inputs[..|inputs| - 1]), inputs[|inputs| - 1], 0)
  }

  lemma {:induction false} AddFromCell(g: Geometry, cells: seq<int>, hashes: seq<Hash>, row: nat, i: int)
    requires |cells| == g.Cells() && |hashes| == g.rows && row <= g.rows
    requires 0 <= i < g.Cells()
    ensures AddFrom(g, cells, hashes, row)[i] == cells[i] + ContributionFrom(g, hashes, row, i)
    decreases g.rows - row
  {
    if row < g.rows {
      var col := Column(g.cols, hashes[row]);
      SlotInRange(g.rows, g.cols, row, col);
      var j := Slot(g.cols, row, col);
      AddFromCell(g, cells[j := cells[j] + Weight(g.kind, hashes[row])], hashes, row + 1, i);
    }
  }

  /** Each counter of the single-threaded sketch is the sum of the arrivals' contributions to it. */
  lemma {:induction false} SinglePassIsSum(g: Geometry, inputs: seq<seq<Hash>>, i: int)
    requires FullRows(g, inputs)
    requires 0 <= i < g.Cells()
    ensures SinglePass(g, inputs)[i] == SinglePassCell(g, inputs, i)
  {
    if inputs != [] {
      var init := inputs[..|inputs| - 1];
      SinglePassIsSum(g, init, i);
      AddFromCell(g, SinglePass(g, init), inputs[|inputs| - 1], 0, i);
    }
  }

  // ---------------------------------------------------------------- the Count-Min worker

  ghost function WidenU8(s: seq<u8>): (r: seq<int>)
    ensures |r| == |s| && forall i :: 0 <= i < |s| ==> r[i] == s[i] as int
  {
    seq(|s|, i requires 0 <= i < |s| => s[i] as int)
  }

  class CmWorkerSketch {
    const counters: array<u8>
    const rows: pos
    const cols: pos

    ghost const g: Geometry

    ghost predicate Valid()
      reads counters
    {
      && g == Geometry(CountMin, rows, cols)
      && counters.Length == RowStart(cols, rows)
      && Bounded(CountMin, Residual(), MAX_PROMASK)
    }

    ghost function Residual(): seq<int>
      reads counters
    {
      WidenU8(counters[..])
    }

    constructor (rows: nat, cols: nat)
      ensures Valid() && fresh(counters)
      ensures g == Geometry(CountMin, if rows < 1 then 1 else rows, if cols < 1 then 1 else cols)
      ensures Residual() == Zeros(g.Cells())
    {
      var r: pos, c: pos := if rows < 1 then 1 else rows, if cols < 1 then 1 else cols;
      this.rows, this.cols := r, c;
      this.counters := new u8[RowStart(c, r)](_ => 0);
      this.g := Geometry(CountMin, r, c);
    }

    /** One row of `InsertHashes`. */
    method BumpRow(row: nat, hash: Hash, tau: u8) returns (emitted: seq<Delta>)
      requires Valid() && row < rows && 1 <= tau as int <= MAX_PROMASK
      modifies counters
      ensures Valid()
      ensures (Residual(), emitted) == Bump(g, old(Residual()), hash, tau as int, row)
    {
      var col := Column(cols, hash);
      SlotInRange(rows, cols, row, col);
      var i := Slot(cols, row, col);
      counters[i] := counters[i] + 1;
      emitted := [];
      if counters[i] >= tau {
        emitted := [Delta(row, col, counters[i] as int)];
        counters[i] := 0;
      }
      assert Residual() == old(Residual())[i := counters[i] as int];
    }

    /** One arrival, given by one hash per row. The byte counter never overflows: its increment
        is checked against the range of `u8`. */
    method InsertHashes(hashes: seq<Hash>, threshold: nat) returns (emitted: seq<Delta>)
      requires Valid() && |hashes| == rows
      modifies counters
      ensures Valid()
      ensures (Residual(), emitted) == Insert(g, old(Residual()), hashes, Clamp(threshold))
      ensures Arrived(g, old(Residual()), hashes, Clamp(threshold), 0, Residual(), emitted)
    {
      hide Bounded, WidenU8, Bump, Arrived;
      var tau := Clamp(threshold) as u8;
      emitted := [];
      ghost var goal := Insert(g, Residual(), hashes, tau as int);
      assert emitted + goal.1 == goal.1;
      InsertArrives(g, Residual(), hashes, tau as int, 0);
      for r := 0 to rows
        invariant Valid()
        invariant InsertFrom(g, Residual(), hashes, tau as int, r).0 == goal.0
        invariant emitted + InsertFrom(g, Residual(), hashes, tau as int, r).1 == goal.1
      {
        ghost var now := Residual();
        var promoted := BumpRow(r, hashes[r], tau);
        assert InsertFrom(g, now, hashes, tau as int, r).1
            == promoted + InsertFrom(g, Residual(), hashes, tau as int, r + 1).1;
        emitted := emitted + promoted;
      }
      assert emitted == goal.1;
    }

    /** One counter of `Flush`. */
    method TakeCell(row: nat, col: nat) returns (emitted: seq<Delta>)
      requires Valid() && row < rows && col < cols
      modifies counters
      ensures Valid() && Slot(cols, row, col) < counters.Length
      ensures Residual() == old(Residual())[Slot(cols, row, col) := 0]
      ensures emitted == Take(g, old(Residual()), row, col)
    {
      SlotInRange(rows, cols, row, col);
      var i := Slot(cols, row, col);
      emitted := [];
      if counters[i] != 0 {
        emitted := [Delta(row, col, counters[i] as int)];
        counters[i] := 0;
      }
    }

    /** The inner loop of `Flush`. */
    method FlushRow(row: nat) returns (emitted: seq<Delta>)
      requires Valid() && row < rows
      modifies counters
      ensures Valid()
      ensures emitted + FlushFrom(g, old(Residual()), row + 1, 0) == FlushFrom(g, old(Residual()), row, 0)
      ensures Cleared(old(Residual()), Residual(), Slot(cols, row, 0), Slot(cols, row + 1, 0))
    {
      hide Bounded, WidenU8, Take;
      emitted := [];
      for col := 0 to cols
        invariant Valid()
        invariant FlushFrom(g, old(Residual()), row, 0) == emitted + FlushFrom(g, old(Residual()), row, col)
        invariant Cleared(old(Residual()), Residual(), Slot(cols, row, 0), Slot(cols, row, col))
      {
        SlotInRange(rows, cols, row, col);
        FlushNext(g, emitted, old(Residual()), row, col);
        TakeFrame(g, Residual(), old(Residual()), row, col);
        var promoted := TakeCell(row, col);
        emitted := emitted + promoted;
      }
    }

    /** Sends and zeroes every counter that is not zero, row by row. */
    method Flush() returns (emitted: seq<Delta>)
      requires Valid()
      modifies counters
      ensures Valid()
      ensures emitted == FlushAll(g, old(Residual())) && ListsFrom(g, old(Residual()), 0, emitted)
      ensures Residual() == Zeros(g.Cells())
    {
      hide Bounded, WidenU8, Take, Cleared, AgreeFrom, ListsFrom;
      emitted := [];
      ghost var was := Residual();
      ClearedNone(was, 0);
      for row := 0 to rows
        invariant Valid()
        invariant FlushAll(g, was) == emitted + FlushFrom(g, was, row, 0)
        invariant Cleared(was, Residual(), 0, Slot(cols, row, 0))
      {
        ghost var now := Residual();
        var promoted := FlushRow(row);
        FlushRowNext(g, was, now, Residual(), emitted, promoted, row);
        emitted := emitted + promoted;
      }
      ClearedAllIsZeros(was, Residual());
      FlushAllLists(g, was);
    }
  }

  // ---------------------------------------------------------------- the Count worker

  ghost function WidenI8(s: seq<i8>): (r: seq<int>)
    ensures |r| == |s| && forall i :: 0 <= i < |s| ==> r[i] == s[i] as int
  {
    seq(|s|, i requires 0 <= i < |s| => s[i] as int)
  }

  function UnsignedAbs(v: i8): u8 {
    (if v < 0 then -(v as int) else v as int) as u8
  }

  class CountWorkerSketch {
    const counters: array<i8>
    const rows: pos
    const cols: pos

    ghost const g: Geometry

    ghost predicate Valid()
      reads counters
    {
      && g == Geometry(CountSketch, rows, cols)
      && counters.Length == RowStart(cols, rows)
      && Bounded(CountSketch, Residual(), MAX_PROMASK)
    }

    ghost function Residual(): seq<int>
      reads counters
    {
      WidenI8(counters[..])
    }

    constructor (rows: nat, cols: nat)
      ensures Valid() && fresh(counters)
      ensures g == Geometry(CountSketch, if rows < 1 then 1 else rows, if cols < 1 then 1 else cols)
      ensures Residual() == Zeros(g.Cells())
    {
      var r: pos, c: pos := if rows < 1 then 1 else rows, if cols < 1 then 1 else cols;
      this.rows, this.cols := r, c;
      this.counters := new i8[RowStart(c, r)](_ => 0);
      this.g := Geometry(CountSketch, r, c);
    }

    /** One row of `InsertHashes`. */
    method BumpRow(row: nat, hash: Hash, tau: i8) returns (emitted: seq<Delta>)
      requires Valid() && row < rows && 1 <= tau as int <= MAX_PROMASK
      modifies counters
      ensures Valid()
      ensures (Residual(), emitted) == Bump(g, old(Residual()), hash, tau as int, row)
    {
      var col := Column(cols, hash);
      SlotInRange(rows, cols, row, col);
      var i := Slot(cols, row, col);
      var sign: i8 := if (hash / SIGN_BIT) % 2 == 1 then 1 else -1;
      counters[i] := counters[i] + sign;
      emitted := [];
      if UnsignedAbs(counters[i]) >= tau as u8 {
        emitted := [Delta(row, col, counters[i] as int)];
        counters[i] := 0;
      }
      assert Residual() == old(Residual())[i := counters[i] as int];
    }

    /** One arrival, given by one hash per row whose top bit is the row's sign. */
    method InsertHashes(hashes: seq<Hash>, threshold: nat) returns (emitted: seq<Delta>)
      requires Valid() && |hashes| == rows
      modifies counters
      ensures Valid()
      ensures (Residual(), emitted) == Insert(g, old(Residual()), hashes, Clamp(threshold))
      ensures Arrived(g, old(Residual()), hashes, Clamp(threshold), 0, Residual(), emitted)
    {
      hide Bounded, WidenI8, Bump, Arrived;
      var tau := Clamp(threshold) as i8;
      emitted := [];
      ghost var goal := Insert(g, Residual(), hashes, tau as int);
      assert emitted + goal.1 == goal.1;
      InsertArrives(g, Residual(), hashes, tau as int, 0);
      for r := 0 to rows
        invariant Valid()
        invariant InsertFrom(g, Residual(), hashes, tau as int, r).0 == goal.0
        invariant emitted + InsertFrom(g, Residual(), hashes, tau as int, r).1 == goal.1
      {
        ghost var now := Residual();
        var promoted := BumpRow(r, hashes[r], tau);
        assert InsertFrom(g, now, hashes, tau as int, r).1
            == promoted + InsertFrom(g, Residual(), hashes, tau as int, r + 1).1;
        emitted := emitted + promoted;
      }
      assert emitted == goal.1;
    }

    /** One counter of `Flush`. */
    method TakeCell(row: nat, col: nat) returns (emitted: seq<Delta>)
      requires Valid() && row < rows && col < cols
      modifies counters
      ensures Valid() && Slot(cols, row, col) < counters.Length
      ensures Residual() == old(Residual())[Slot(cols, row, col) := 0]
      ensures emitted == Take(g, old(Residual()), row, col)
    {
      SlotInRange(rows, cols, row, col);
      var i := Slot(cols, row, col);
      emitted := [];
      if counters[i] != 0 {
        emitted := [Delta(row, col, counters[i] as int)];
        counters[i] := 0;
      }
    }

    /** The inner loop of `Flush`. */
    method FlushRow(row: nat) returns (emitted: seq<Delta>)
      requires Valid() && row < rows
      modifies counters
      ensures Valid()
      ensures emitted + FlushFrom(g, old(Residual()), row + 1, 0) == FlushFrom(g, old(Residual()), row, 0)
      ensures Cleared(old(Residual()), Residual(), Slot(cols, row, 0), Slot(cols, row + 1, 0))
    {
      hide Bounded, WidenI8, Take;
      emitted := [];
      for col := 0 to cols
        invariant Valid()
        invariant FlushFrom(g, old(Residual()), row, 0) == emitted + FlushFrom(g, old(Residual()), row, col)
        invariant Cleared(old(Residual()), Residual(), Slot(cols, row, 0), Slot(cols, row, col))
      {
        SlotInRange(rows, cols, row, col);
        FlushNext(g, emitted, old(Residual()), row, col);
        TakeFrame(g, Residual(), old(Residual()), row, col);
        var promoted := TakeCell(row, col);
        emitted := emitted + promoted;
      }
    }

    /** Sends and zeroes every counter that is not zero, row by row. */
    method Flush() returns (emitted: seq<Delta>)
      requires Valid()
      modifies counters
      ensures Valid()
      ensures emitted == FlushAll(g, old(Residual())) && ListsFrom(g, old(Residual()), 0, emitted)
      ensures Residual() == Zeros(g.Cells())
    {
      hide Bounded, WidenI8, Take, Cleared, AgreeFrom, ListsFrom;
      emitted := [];
      ghost var was := Residual();
      ClearedNone(was, 0);
      for row := 0 to rows
        invariant Valid()
        invariant FlushAll(g, was) == emitted + FlushFrom(g, was, row, 0)
        invariant Cleared(was, Residual(), 0, Slot(cols, row, 0))
      {
        ghost var now := Residual();
        var promoted := FlushRow(row);
        FlushRowNext(g, was, now, Residual(), emitted, promoted, row);
        emitted := emitted + promoted;
      }
      ClearedAllIsZeros(was, Residual());
      FlushAllLists(g, was);
    }
  }
}
