/** The Nitro row schedule: which of the row slots of a stream of updates are sampled, and with what
    weight. The skip table and the rounding stream are parameters. */
module Nitro {

  /** One admitted slot: its row within the update, and its weight. */
  datatype Admitted = Admitted(row: nat, weight: nat)

  /** The position in the schedule: slots still to skip, the cursor into the skip table, and the
      state of the rounding stream. */
  datatype Schedule = Schedule(toSkip: nat, cursor: nat, rounding: nat)

  type Rate = r: real | 0.0 < r <= 1.0 witness 1.0

  /** Rates this close to 1 count as 1. */
  const EPSILON: real := 1.0 / 4503599627370496.0

  /** The sampling rate; `skip` reads the skip table at a cursor and `next` advances the cursor; `uniform`
      draws from [0, 1) at a state of the rounding stream and advances it. Positions are machine words,
      none above `limit`. */
  datatype Source = Source(rate: Rate, skip: nat -> nat, next: nat -> nat, uniform: nat -> (real, nat), limit: nat)
  {
    /** At full sampling every slot is admitted and nothing is drawn. */
    predicate Full() {
      1.0 - rate <= EPSILON
    }

    /** The reciprocal of the rate. */
    function Exact(): (exact: real)
      ensures exact * rate == 1.0 && exact >= 1.0
    {
      ReciprocalIs(rate);
      1.0 / rate
    }

    function Delta(): (delta: nat) {
      if Full() then 1 else Exact().Floor
    }

    /** The weight of an admitted slot, and the rounding stream after it: the reciprocal of the rate,
        rounded at random. */
    function Weigh(rounding: nat): (nat, nat) {
      var fraction := Exact() - Exact().Floor as real;
      if Full() || fraction <= 0.0 then (Delta(), rounding)
      else
        var (u, rounded) := uniform(rounding);
        (Delta() + if u < fraction then 1 else 0, rounded)
    }

    /** A number as a saturating cast or addition leaves it. */
    function Word(n: nat): (w: nat)
      ensures w <= limit && w <= n && (w == n || w == limit)
    {
      if n <= limit then n else limit
    }
  }

  lemma ReciprocalIs(rate: Rate)
    ensures 1.0 / rate * rate == 1.0 && 1.0 / rate >= 1.0
  {
  }

  // ---------------------------------------------------------------- the schedule without a limit

  /** The slots admitted from `row` on, and the schedule afterwards. */
  function Walk(src: Source, row: nat, cursor: nat, rounding: nat, rows: nat): (seq<Admitted>, Schedule)
    decreases rows - row
  {
    if row >= rows then ([], Schedule(row - rows, cursor, rounding))
    else
      var (weight, rounded) := src.Weigh(rounding);
      var (rest, after) := Walk(src, row + 1 + src.skip(cursor), src.next(cursor), rounded, rows);
      ([Admitted(row, weight)] + rest, after)
  }

  function AllRows(rows: nat): (s: seq<Admitted>)
    ensures |s| == rows && forall r :: 0 <= r < rows ==> s[r] == Admitted(r, 1)
  {
    seq(rows, r requires 0 <= r < rows => Admitted(r, 1))
  }

  /** One update of `rows` slots. */
  function Admit(src: Source, s: Schedule, rows: nat): (seq<Admitted>, Schedule) {
    if src.Full() then (AllRows(rows), s) else Walk(src, s.toSkip, s.cursor, s.rounding, rows)
  }

  // ---------------------------------------------------------------- chunking

  function Shifted(s: seq<Admitted>, offset: nat): (t: seq<Admitted>)
    ensures |t| == |s| && forall i :: 0 <= i < |s| ==> t[i] == Admitted(s[i].row + offset, s[i].weight)
  {
    seq(|s|, i requires 0 <= i < |s| => Admitted(s[i].row + offset, s[i].weight))
  }

  lemma {:induction false} WalkShifted(src: Source, row: nat, cursor: nat, rounding: nat, rows: nat, offset: nat)
    ensures var (out, after) := Walk(src, row, cursor, rounding, rows);
            Walk(src, row + offset, cursor, rounding, rows + offset) == (Shifted(out, offset), after)
    decreases rows - row
  {
    if row < rows {
      var row1, cursor1, rounding1 := row + 1 + src.skip(cursor), src.next(cursor), src.Weigh(rounding).1;
      WalkShifted(src, row1, cursor1, rounding1, rows, offset);
      ShiftedCons(Admitted(row, src.Weigh(rounding).0), Walk(src, row1, cursor1, rounding1, rows).0, offset);
      assert row + offset + 1 + src.skip(cursor) == row1 + offset;
    } else {
      assert Shifted([], offset) == [];
    }
  }

  lemma ShiftedCons(x: Admitted, s: seq<Admitted>, offset: nat)
    ensures Shifted([x] + s, offset) == [Admitted(x.row + offset, x.weight)] + Shifted(s, offset)
  {
  }

  lemma {:induction false} WalkSplit(src: Source, row: nat, cursor: nat, rounding: nat, a: nat, b: nat)
    ensures var (first, mid) := Walk(src, row, cursor, rounding, a);
            var (second, after) := Walk(src, mid.toSkip, mid.cursor, mid.rounding, b);
            Walk(src, row, cursor, rounding, a + b) == (first + Shifted(second, a), after)
    decreases a - row
  {
    if row < a {
      var row1, cursor1, rounding1 := row + 1 + src.skip(cursor), src.next(cursor), src.Weigh(rounding).1;
      WalkSplit(src, row1, cursor1, rounding1, a, b);
      var (first, mid) := Walk(src, row1, cursor1, rounding1, a);
      var second := Walk(src, mid.toSkip, mid.cursor, mid.rounding, b).0;
      Associate([Admitted(row, src.Weigh(rounding).0)], first, Shifted(second, a));
    } else {
      WalkShifted(src, row - a, cursor, rounding, b, a);
      var second := Walk(src, row - a, cursor, rounding, b).0;
      assert [] + Shifted(second, a) == Shifted(second, a);
    }
  }

  lemma Associate(a: seq<Admitted>, b: seq<Admitted>, c: seq<Admitted>)
    ensures (a + b) + c == a + (b + c)
  {
  }

  /** Main result: two updates admit what one update of their joint size admits, with the same
      weights, and leave the same schedule. */
  lemma {:induction false} AdmitSplit(src: Source, s: Schedule, a: nat, b: nat)
    ensures var (first, mid) := Admit(src, s, a);
            var (second, after) := Admit(src, mid, b);
            Admit(src, s, a + b) == (first + Shifted(second, a), after)
  {
    if src.Full() {
      assert AllRows(a + b) == AllRows(a) + Shifted(AllRows(b), a);
    } else {
      WalkSplit(src, s.toSkip, s.cursor, s.rounding, a, b);
    }
  }

  ghost function Total(sizes: seq<nat>): nat {
    if sizes == [] then 0 else Total(sizes[..|sizes| - 1]) + sizes[|sizes| - 1]
  }

  /** A run of updates; rows are counted from the start of the run. */
  ghost function AdmitRun(src: Source, s: Schedule, sizes: seq<nat>): (seq<Admitted>, Schedule) {
    if sizes == [] then ([], s)
    else
      var n := |sizes| - 1;
      var (out, mid) := AdmitRun(src, s, sizes[..n]);
      var (last, after) := Admit(src, mid, sizes[n]);
      (out + Shifted(last, Total(sizes[..n])), after)
  }

  /** Main result: however a stream is cut into updates, the same slots are admitted. */
  lemma {:induction false} RunIsOneUpdate(src: Source, s: Schedule, sizes: seq<nat>)
    ensures AdmitRun(src, s, sizes) == Admit(src, s, Total(sizes))
    decreases |sizes|
  {
    hide Admit;
    if sizes == [] {
      AdmitNothing(src, s);
    } else {
      var n := |sizes| - 1;
      RunIsOneUpdate(src, s, sizes[..n]);
      AdmitSplit(src, s, Total(sizes[..n]), sizes[n]);
    }
  }

  lemma AdmitNothing(src: Source, s: Schedule)
    ensures Admit(src, s, 0) == ([], s)
  {
  }

  // ---------------------------------------------------------------- the renewal positions

  /** The cursor and the position after `n` admitted slots: each slot is followed by a fresh skip. */
  ghost function Renewal(src: Source, row: nat, cursor: nat, n: nat): (nat, nat) {
    if n == 0 then (row, cursor)
    else
      var (at, c) := Renewal(src, row, cursor, n - 1);
      (at + 1 + src.skip(c), src.next(c))
  }

  lemma {:induction false} RenewalShift(src: Source, row: nat, cursor: nat, n: nat)
    ensures Renewal(src, row, cursor, n + 1) == Renewal(src, row + 1 + src.skip(cursor), src.next(cursor), n)
  {
    if n > 0 {
      RenewalShift(src, row, cursor, n - 1);
    }
  }

  lemma RenewalStart(src: Source, row: nat, cursor: nat)
    ensures Renewal(src, row, cursor, 0) == (row, cursor)
  {
  }

  /** The admitted slots of one update, and where it leaves the schedule, are renewal positions. */
  lemma {:induction false} WalkRenews(src: Source, row: nat, cursor: nat, rounding: nat, rows: nat)
    ensures var (out, after) := Walk(src, row, cursor, rounding, rows);
            && (forall i :: 0 <= i < |out| ==> out[i].row == Renewal(src, row, cursor, i).0 < rows)
            && Renewal(src, row, cursor, |out|) == (rows + after.toSkip, after.cursor)
    decreases rows - row
  {
    hide Renewal;
    RenewalStart(src, row, cursor);
    if row < rows {
      var row1, cursor1, rounding1 := row + 1 + src.skip(cursor), src.next(cursor), src.Weigh(rounding).1;
      WalkRenews(src, row1, cursor1, rounding1, rows);
      var (rest, after) := Walk(src, row1, cursor1, rounding1, rows);
      var (out, _) := Walk(src, row, cursor, rounding, rows);
      forall i | 0 <= i < |out| ensures out[i].row == Renewal(src, row, cursor, i).0 < rows {
        if i > 0 {
          RenewalShift(src, row, cursor, i - 1);
          assert out[i] == rest[i - 1];
        }
      }
      RenewalShift(src, row, cursor, |rest|);
    }
  }

  /** Main result: below full sampling a run admits exactly the renewal positions that lie within
      it: the first skip, then one further slot and a fresh skip each. */
  lemma {:induction false} RunAdmitsRenewals(src: Source, s: Schedule, sizes: seq<nat>)
    requires !src.Full()
    ensures var (out, after) := AdmitRun(src, s, sizes);
            && (forall i :: 0 <= i < |out| ==> out[i].row == Renewal(src, s.toSkip, s.cursor, i).0 < Total(sizes))
            && Renewal(src, s.toSkip, s.cursor, |out|).0 == Total(sizes) + after.toSkip
  {
    RunIsOneUpdate(src, s, sizes);
    WalkRenews(src, s.toSkip, s.cursor, s.rounding, Total(sizes));
  }

  /** The rounding stream after `n` draws. */
  ghost function Stream(src: Source, rounding: nat, n: nat): nat {
    if n == 0 then rounding else src.uniform(Stream(src, rounding, n - 1)).1
  }

  lemma {:induction false} StreamShift(src: Source, rounding: nat, n: nat)
    ensures Stream(src, rounding, n + 1) == Stream(src, src.uniform(rounding).1, n)
  {
    if n > 0 {
      StreamShift(src, rounding, n - 1);
    } else {
      assert Stream(src, rounding, 0) == rounding;
    }
  }

  /** `w` is the reciprocal of the rate if that is an integer, and otherwise one of the two integers next
      to it: the larger one exactly if `u` is below the fraction. */
  ghost predicate RoundedBy(src: Source, w: nat, u: real) {
    && src.Exact() - 1.0 < w as real < src.Exact() + 1.0
    && (w as real > src.Exact() <==> u < src.Exact() - src.Exact().Floor as real && !Integral(src))
  }

  ghost predicate Integral(src: Source) {
    src.Exact() == src.Exact().Floor as real
  }

  /** The i-th slot admitted is rounded by the i-th draw; if nothing is to be rounded, nothing is drawn. */
  ghost predicate Drawn(src: Source, rounding: nat, out: seq<Admitted>, after: nat) {
    && (forall i :: 0 <= i < |out| ==> RoundedBy(src, out[i].weight, src.uniform(Stream(src, rounding, i)).0))
    && after == if Integral(src) then rounding else Stream(src, rounding, |out|)
  }

  lemma {:induction false} WeighIs(src: Source, rounding: nat)
    requires !src.Full()
    ensures RoundedBy(src, src.Weigh(rounding).0, src.uniform(rounding).0)
    ensures src.Weigh(rounding).1 == if Integral(src) then rounding else src.uniform(rounding).1
  {
  }

  lemma {:induction false} IntegralRounds(src: Source, w: nat, u: real, v: real)
    requires Integral(src) && RoundedBy(src, w, u)
    ensures RoundedBy(src, w, v)
  {
  }

  lemma {:induction false} NoneDrawn(src: Source, rounding: nat, out: seq<Admitted>)
    requires out == []
    ensures Drawn(src, rounding, out, rounding)
  {
    assert Stream(src, rounding, 0) == rounding;
  }

  /** Below full sampling the weights of an update are the roundings of the reciprocal by successive draws,
      one for each admitted slot. */
  lemma {:induction false} WalkWeights(src: Source, row: nat, cursor: nat, rounding: nat, rows: nat)
    requires !src.Full()
    ensures var (out, after) := Walk(src, row, cursor, rounding, rows); Drawn(src, rounding, out, after.rounding)
    decreases rows - row
  {
    hide Drawn, RoundedBy, Integral;
    if row >= rows {
      NoneDrawn(src, rounding, Walk(src, row, cursor, rounding, rows).0);
    } else {
      var (weight, rounded) := src.Weigh(rounding);
      var row1, cursor1 := row + 1 + src.skip(cursor), src.next(cursor);
      WeighIs(src, rounding);
      WalkWeights(src, row1, cursor1, rounded, rows);
      DrawnNext(src, rounding, Admitted(row, weight), rounded, Walk(src, row1, cursor1, rounded, rows).0,
                Walk(src, row1, cursor1, rounded, rows).1.rounding);
    }
  }

  lemma {:induction false} DrawnNext(src: Source, rounding: nat, first: Admitted, rounded: nat, rest: seq<Admitted>,
                                     after: nat)
    requires RoundedBy(src, first.weight, src.uniform(rounding).0)
    requires rounded == if Integral(src) then rounding else src.uniform(rounding).1
    requires Drawn(src, rounded, rest, after)
    ensures Drawn(src, rounding, [first] + rest, after)
  {
    var out := [first] + rest;
    hide RoundedBy, Integral;
    forall i | 0 <= i < |out| ensures RoundedBy(src, out[i].weight, src.uniform(Stream(src, rounding, i)).0) {
      if i == 0 {
        assert Stream(src, rounding, 0) == rounding;
      } else {
        assert out[i] == rest[i - 1];
        if Integral(src) {
          IntegralRounds(src, out[i].weight, src.uniform(Stream(src, rounded, i - 1)).0,
                         src.uniform(Stream(src, rounding, i)).0);
        } else {
          StreamShift(src, rounding, i - 1);
        }
      }
    }
    StreamShift(src, rounding, |rest|);
  }

  // ---------------------------------------------------------------- the schedule in machine words

  /** As `Walk`, where the next row saturates at the limit. */
  function WordWalk(src: Source, row: nat, cursor: nat, rounding: nat, rows: nat): (seq<Admitted>, Schedule)
    requires row <= src.limit && rows <= src.limit
    decreases rows - row
  {
    if row >= rows then ([], Schedule(row - rows, cursor, rounding))
    else
      var (weight, rounded) := src.Weigh(rounding);
      var (rest, after) :=
        WordWalk(src, src.Word(src.Word(row + 1) + src.Word(src.skip(cursor))), src.next(cursor), rounded, rows);
      ([Admitted(row, weight)] + rest, after)
  }

  function WordAdmit(src: Source, s: Schedule, rows: nat): (seq<Admitted>, Schedule)
    requires s.toSkip <= src.limit && rows <= src.limit
  {
    if src.Full() then (AllRows(rows), s) else WordWalk(src, s.toSkip, s.cursor, s.rounding, rows)
  }

  /** Saturation changes only how much of the last skip an update leaves behind. */
  lemma {:induction false} WalkCaps(src: Source, row: nat, cursor: nat, rounding: nat, rows: nat)
    requires rows <= src.limit
    ensures var (out, after) := Walk(src, row, cursor, rounding, rows);
            WordWalk(src, src.Word(row), cursor, rounding, rows)
            == (out, after.(toSkip := src.Word(rows + after.toSkip) - rows))
    decreases rows - row
  {
    if row < rows {
      WalkCaps(src, row + 1 + src.skip(cursor), src.next(cursor), src.Weigh(rounding).1, rows);
    }
  }

  lemma {:induction false} AdmitCaps(src: Source, s: Schedule, rows: nat)
    requires !src.Full() && s.toSkip <= src.limit && rows <= src.limit
    ensures var (out, after) := Admit(src, s, rows);
            WordAdmit(src, s, rows) == (out, after.(toSkip := src.Word(rows + after.toSkip) - rows))
  {
    WalkCaps(src, s.toSkip, s.cursor, s.rounding, rows);
  }

  lemma {:induction false} WordAdmitStays(src: Source, s: Schedule, rows: nat)
    requires s.toSkip <= src.limit && rows <= src.limit
    ensures WordAdmit(src, s, rows).1.toSkip <= src.limit
  {
    if !src.Full() {
      AdmitCaps(src, s, rows);
    }
  }

  ghost predicate Words(src: Source, s: Schedule, sizes: seq<nat>) {
    s.toSkip <= src.limit && forall i :: 0 <= i < |sizes| ==> sizes[i] <= src.limit
  }

  /** A run of updates in machine words. */
  ghost function WordRun(src: Source, s: Schedule, sizes: seq<nat>): (r: (seq<Admitted>, Schedule))
    requires Words(src, s, sizes)
    ensures r.1.toSkip <= src.limit
  {
    if sizes == [] then ([], s)
    else
      var n := |sizes| - 1;
      var (out, mid) := WordRun(src, s, sizes[..n]);
      var (last, after) := WordAdmit(src, mid, sizes[n]);
      WordAdmitStays(src, mid, sizes[n]);
      (out + Shifted(last, Total(sizes[..n])), after)
  }

  /** The same skip, or two skips that both reach beyond the next `budget` slots. */
  ghost predicate Agree(s: Schedule, t: Schedule, budget: int) {
    s.cursor == t.cursor && s.rounding == t.rounding
    && (s.toSkip == t.toSkip || (s.toSkip >= budget && t.toSkip >= budget))
  }

  lemma {:induction false} AgreeingAdmit(src: Source, s: Schedule, t: Schedule, rows: nat, budget: int)
    requires Agree(s, t, budget) && s.toSkip <= src.limit && rows <= budget <= src.limit
    ensures var (out, after) := WordAdmit(src, s, rows);
            out == Admit(src, t, rows).0 && Agree(after, Admit(src, t, rows).1, budget - rows)
  {
    if !src.Full() {
      if s.toSkip == t.toSkip {
        AdmitCaps(src, s, rows);
      } else {
        assert Walk(src, t.toSkip, t.cursor, t.rounding, rows).0 == [];
      }
    }
  }

  lemma AgreesWithItself(s: Schedule, budget: int)
    ensures Agree(s, s, budget)
  {
  }

  /** Main result: as long as the slots of the whole run can be counted in a machine word, the run
      admits what one update of their joint size admits without a limit. */
  lemma {:induction false} WordRunAdmitsTheSame(src: Source, s: Schedule, sizes: seq<nat>)
    requires Words(src, s, sizes) && Total(sizes) <= src.limit
    ensures WordRun(src, s, sizes).0 == Admit(src, s, Total(sizes)).0
    ensures Agree(WordRun(src, s, sizes).1, Admit(src, s, Total(sizes)).1, src.limit - Total(sizes))
    decreases |sizes|
  {
    hide Admit, WordAdmit, Agree;
    if sizes == [] {
      AdmitNothing(src, s);
      AgreesWithItself(s, src.limit);
    } else {
      var n := |sizes| - 1;
      var a := Total(sizes[..n]);
      WordRunAdmitsTheSame(src, s, sizes[..n]);
      AgreeingAdmit(src, WordRun(src, s, sizes[..n]).1, Admit(src, s, a).1, sizes[n], src.limit - a);
      AdmitSplit(src, s, a, sizes[n]);
    }
  }

  /** The next slot to be admitted, counted from the start of the last update, fits a word. */
  ghost predicate Fits(src: Source, s: Schedule, sizes: seq<nat>) {
    src.Full() || sizes == [] || AdmitRun(src, s, sizes).1.toSkip + sizes[|sizes| - 1] <= src.limit
  }

  /** For a run of any length: slots and schedule are those without a limit throughout exactly if
      every update ends with its next slot within a machine word. */
  lemma {:induction false} WordRunIff(src: Source, s: Schedule, sizes: seq<nat>)
    requires Words(src, s, sizes)
    ensures (forall n :: 0 <= n <= |sizes| ==> WordRun(src, s, sizes[..n]) == AdmitRun(src, s, sizes[..n]))
            <==> (forall n :: 0 <= n <= |sizes| ==> Fits(src, s, sizes[..n]))
    decreases |sizes|
  {
    hide Admit, WordAdmit, WordRun, AdmitRun, Fits;
    if sizes == [] {
      EmptyRun(src, s);
    } else {
      var n := |sizes| - 1;
      var before := sizes[..n];
      WordRunIff(src, s, before);
      assert sizes[..n + 1] == sizes;
      assert forall m :: 0 <= m <= n ==> before[..m] == sizes[..m];
      assert before[..n] == before;
      if WordRun(src, s, before) == AdmitRun(src, s, before) {
        LastFits(src, s, sizes);
      }
    }
  }

  lemma EmptyRun(src: Source, s: Schedule)
    requires Words(src, s, [])
    ensures WordRun(src, s, []) == AdmitRun(src, s, []) && Fits(src, s, [])
  {
  }

  lemma {:induction false} LastFits(src: Source, s: Schedule, sizes: seq<nat>)
    requires Words(src, s, sizes) && sizes != []
    requires WordRun(src, s, sizes[..|sizes| - 1]) == AdmitRun(src, s, sizes[..|sizes| - 1])
    ensures WordRun(src, s, sizes) == AdmitRun(src, s, sizes) <==> Fits(src, s, sizes)
  {
    var n := |sizes| - 1;
    if !src.Full() {
      AdmitCaps(src, AdmitRun(src, s, sizes[..n]).1, sizes[n]);
    }
  }

  /** Every skip leaves room for the rows of one update. */
  ghost predicate SkipsFit(src: Source, rows: nat) {
    forall c: nat :: src.skip(c) + rows <= src.limit
  }

  lemma {:induction false} WalkFits(src: Source, row: nat, cursor: nat, rounding: nat, rows: nat)
    requires row <= src.limit && SkipsFit(src, rows)
    ensures Walk(src, row, cursor, rounding, rows).1.toSkip + rows <= src.limit
    decreases rows - row
  {
    if row < rows {
      WalkFits(src, row + 1 + src.skip(cursor), src.next(cursor), src.Weigh(rounding).1, rows);
    }
  }

  /** If skips and updates are short enough, the limit is never felt. */
  lemma {:induction false} ShortSkipsAreExact(src: Source, s: Schedule, sizes: seq<nat>)
    requires Words(src, s, sizes) && forall i :: 0 <= i < |sizes| ==> SkipsFit(src, sizes[i])
    ensures WordRun(src, s, sizes) == AdmitRun(src, s, sizes)
    decreases |sizes|
  {
    hide WordAdmit, SkipsFit;
    if sizes != [] {
      var n := |sizes| - 1;
      ShortSkipsAreExact(src, s, sizes[..n]);
      var mid := AdmitRun(src, s, sizes[..n]).1;
      WalkFits(src, mid.toSkip, mid.cursor, mid.rounding, sizes[n]);
      LastFits(src, s, sizes);
    }
  }

  /** Otherwise it can be: a skip as long as the limit, drawn for the only slot of an update, comes out one
      slot too short. */
  lemma {:induction false} SaturationShortens(src: Source, s: Schedule)
    requires !src.Full() && s.toSkip == 0 && src.limit >= 1 && src.skip(s.cursor) == src.limit
    ensures Admit(src, s, 1).1.toSkip == src.limit && WordAdmit(src, s, 1).1.toSkip == src.limit - 1
  {
    AdmitCaps(src, s, 1);
    var row := 1 + src.skip(s.cursor);
    assert Walk(src, row, src.next(s.cursor), src.Weigh(s.rounding).1, 1).1.toSkip == row - 1;
  }

  /** The rows of an update in machine words are the renewal positions within it, and its weights are
      drawn one by one. */
  lemma {:induction false} WordAdmitIs(src: Source, s: Schedule, rows: nat)
    requires !src.Full() && s.toSkip <= src.limit && rows <= src.limit
    ensures var (out, after) := WordAdmit(src, s, rows);
            && Drawn(src, s.rounding, out, after.rounding)
            && (forall i :: 0 <= i < |out| ==> out[i].row == Renewal(src, s.toSkip, s.cursor, i).0 < rows)
            && Renewal(src, s.toSkip, s.cursor, |out|).0 >= rows
  {
    hide Drawn;
    AdmitCaps(src, s, rows);
    WalkWeights(src, s.toSkip, s.cursor, s.rounding, rows);
    WalkRenews(src, s.toSkip, s.cursor, s.rounding, rows);
  }

  // ---------------------------------------------------------------- the sampler

  class Nitro {
    const src: Source
    var toSkip: nat
    var idx: nat
    var roundingState: nat

    ghost predicate Valid()
      reads this
    {
      toSkip <= src.limit
    }

    ghost function Position(): Schedule
      reads this
    {
      Schedule(toSkip, idx, roundingState)
    }

    constructor (src: Source, cursor: nat, rounding: nat)
      ensures Valid() && this.src == src
      ensures Position() == if src.Full() then Schedule(0, cursor, rounding)
                            else Schedule(src.Word(src.skip(cursor)), src.next(cursor), rounding)
    {
      this.src := src;
      toSkip, idx, roundingState := 0, cursor, rounding;
      new;
      DrawGeometric();
    }

    /** The weight of one admitted slot. */
    method AdmittedDelta() returns (weight: nat)
      modifies this`roundingState
      ensures (weight, roundingState) == src.Weigh(old(roundingState))
      ensures !src.Full() ==> RoundedBy(src, weight, src.uniform(old(roundingState)).0)
      ensures !src.Full() && !Integral(src) ==> roundingState == src.uniform(old(roundingState)).1
      ensures src.Full() || Integral(src) ==> roundingState == old(roundingState)
    {
      if src.Full() {
        return src.Delta();
      }
      var exact := src.Exact();
      var fraction := exact - exact.Floor as real;
      if fraction <= 0.0 {
        return src.Delta();
      }
      var (u, rounded) := src.uniform(roundingState);
      roundingState := rounded;
      weight := src.Delta() + if u < fraction then 1 else 0;
    }

    /** Draws the next skip. */
    method DrawGeometric()
      modifies this`toSkip, this`idx
      ensures src.Full() ==> toSkip == 0 && idx == old(idx)
      ensures !src.Full() ==> toSkip == src.Word(src.skip(old(idx))) && idx == src.next(old(idx))
    {
      if src.Full() {
        toSkip := 0;
        return;
      }
      toSkip := src.Word(src.skip(idx));
      idx := src.next(idx);
    }

    /** Consumes one update's row slots and returns those admitted. */
    method AdmitRows(rows: nat) returns (out: seq<Admitted>)
      requires Valid() && rows <= src.limit
      modifies this`toSkip, this`idx, this`roundingState
      ensures Valid() && (out, Position()) == WordAdmit(src, old(Position()), rows)
      ensures src.Full() ==> |out| == rows && forall i :: 0 <= i < rows ==> out[i] == Admitted(i, 1)
      ensures !src.Full() ==> Drawn(src, old(roundingState), out, roundingState)
      ensures !src.Full() ==> forall i :: 0 <= i < |out| ==>
                out[i].row == Renewal(src, old(toSkip), old(idx), i).0 < rows
    {
      hide Drawn, Renewal;
      if !src.Full() {
        WordAdmitIs(src, Position(), rows);
      }
      out := [];
      WordAdmitStays(src, Position(), rows);
      if rows == 0 {
        return;
      }
      if src.Full() {
        var r := 0;
        while r < rows
          invariant 0 <= r <= rows && |out| == r && forall i :: 0 <= i < r ==> out[i] == Admitted(i, 1)
          invariant Position() == old(Position())
        {
          out := out + [Admitted(r, 1)];
          r := r + 1;
        }
        assert out == AllRows(rows);
        return;
      }
      ghost var goal := WordWalk(src, toSkip, idx, roundingState, rows);
      var row := toSkip;
      while row < rows
        invariant row <= src.limit
        invariant out + WordWalk(src, row, idx, roundingState, rows).0 == goal.0
        invariant WordWalk(src, row, idx, roundingState, rows).1 == goal.1
        decreases rows - row
      {
        ghost var before := out;
        var weight := AdmittedDelta();
        out := out + [Admitted(row, weight)];
        DrawGeometric();
        var next := src.Word(src.Word(row + 1) + toSkip);
        Associate(before, [Admitted(row, weight)], WordWalk(src, next, idx, roundingState, rows).0);
        row := next;
      }
      assert out + [] == out;
      toSkip := row - rows;
    }
  }
}
