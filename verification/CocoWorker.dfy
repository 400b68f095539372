/** The CocoSketch worker of OctoSketch: the table of CocoSketch with one-byte counters, which are
    promoted under their key and cleared when they reach the threshold. */
module CocoWorker {
  import opened CocoTable
  import OctoWorker
  import opened Wrappers

  type u8 = OctoWorker.u8

  const MAX_PROMASK := OctoWorker.MAX_PROMASK

  datatype CocoDelta = CocoDelta(key: Key, value: nat)

  /** What was sent in total. */
  ghost function SentMass(sent: seq<CocoDelta>): nat {
    if sent == [] then 0 else SentMass(sent[..|sent| - 1]) + sent[|sent| - 1].value
  }

  lemma {:induction false} SentSnoc(sent: seq<CocoDelta>, d: CocoDelta)
    ensures SentMass(sent + [d]) == SentMass(sent) + d.value
  {
    assert (sent + [d])[..|sent|] == sent;
  }

  ghost function Widen(s: seq<u8>): (r: seq<nat>)
    ensures |r| == |s| && forall i :: 0 <= i < |s| ==> r[i] == s[i] as int
  {
    seq(|s|, i requires 0 <= i < |s| => s[i] as int)
  }

  /** No counter can overflow its byte with the next arrival. */
  ghost predicate BelowPromask(vals: seq<nat>) {
    forall c :: 0 <= c < |vals| ==> vals[c] < MAX_PROMASK
  }

  /** Every key in the table or sent has arrived. */
  ghost predicate Arrived(arrivals: seq<Key>, keys: seq<Option<Key>>, sent: seq<CocoDelta>) {
    (forall x :: Some(x) in keys ==> x in arrivals) && (forall m :: m in sent ==> m.key in arrivals)
  }

  /** Every arrival is counted once, by what was sent or by what is held back. */
  ghost predicate Ledger(arrivals: seq<Key>, keys: seq<Option<Key>>, vals: seq<nat>, sent: seq<CocoDelta>) {
    |arrivals| == SentMass(sent) + Mass(vals) && Arrived(arrivals, keys, sent)
  }

  /** One arrival before promotion. */
  lemma {:induction false} LedgerInsert(place: Placement, d: nat, arrivals: seq<Key>, keys: seq<Option<Key>>,
                                        vals: seq<nat>, sent: seq<CocoDelta>,
                                        key: Key, draws: Draws, keys1: seq<Option<Key>>, vals1: seq<nat>, c: nat)
    requires SingleHome(place, d, keys) && Keyed(keys, vals) && Ledger(arrivals, keys, vals, sent)
    requires InsertedAt(place, d, keys, vals, key, 1, draws, keys1, vals1, c)
    ensures SingleHome(place, d, keys1) && Keyed(keys1, vals1) && Ledger(arrivals + [key], keys1, vals1, sent)
  {
    InsertedKeeps(place, d, keys, vals, key, 1, draws, keys1, vals1, c);
    hide SingleHome, Keyed, InsertedAt, SentMass;
  }

  /** Promoting a bucket moves its count from what is held back to what was sent. */
  lemma {:induction false} LedgerPromote(arrivals: seq<Key>, keys: seq<Option<Key>>, vals: seq<nat>,
                                         sent: seq<CocoDelta>, c: nat)
    requires Ledger(arrivals, keys, vals, sent) && Keyed(keys, vals) && c < |keys| && keys[c].Some?
    ensures Ledger(arrivals, keys, vals[c := 0], sent + [CocoDelta(keys[c].value, vals[c])])
    ensures Keyed(keys, vals[c := 0])
  {
    var delta := CocoDelta(keys[c].value, vals[c]);
    MassUpdate(vals, c, 0, 0);
    SentSnoc(sent, delta);
    assert Some(keys[c].value) == keys[c] && keys[c] in keys;
    hide SentMass, MassFrom;
  }

  /** What one arrival does: it is recorded as in the unpromoted table, and a bucket that reaches the
      threshold is sent under its key, whoever holds it by then, and cleared. */
  ghost predicate RecordedAt(place: Placement, d: nat, keys: seq<Option<Key>>, vals: seq<nat>, key: Key, tau: int,
                             draws: Draws, keys1: seq<Option<Key>>, vals1: seq<nat>, emitted: seq<CocoDelta>, c: nat)
  {
    && c < |keys1| && |vals| == |keys1| && keys1[c].Some?
    && InsertedAt(place, d, keys, vals, key, 1, draws, keys1, vals[c := vals[c] + 1], c)
    && if vals[c] + 1 >= tau then
         vals1 == vals[c := 0] && emitted == [CocoDelta(keys1[c].value, vals[c] + 1)]
       else
         vals1 == vals[c := vals[c] + 1] && emitted == []
  }

  lemma {:induction false} RecordedIs(place: Placement, d: nat, keys: seq<Option<Key>>, vals: seq<nat>, key: Key,
                                      tau: int, draws: Draws, keys1: seq<Option<Key>>, vals1: seq<nat>,
                                      emitted: seq<CocoDelta>, c: nat)
    requires c < |keys1| && |vals| == |keys1| && keys1[c].Some?
    requires InsertedAt(place, d, keys, vals, key, 1, draws, keys1, vals[c := vals[c] + 1], c)
    requires vals[c] + 1 >= tau ==>
             vals1 == vals[c := vals[c] + 1][c := 0] && emitted == [CocoDelta(keys1[c].value, vals[c] + 1)]
    requires vals[c] + 1 < tau ==> vals1 == vals[c := vals[c] + 1] && emitted == []
    ensures RecordedAt(place, d, keys, vals, key, tau, draws, keys1, vals1, emitted, c)
  {
    assert vals[c := vals[c] + 1][c := 0] == vals[c := 0];
  }

  class CocoWorkerSketch {
    const keys: array<Option<Key>>
    const counters: array<u8>
    const w: nat
    const d: nat
    const place: Placement
    /** The arrivals so far, and all that was sent. */
    ghost var arrivals: seq<Key>
    ghost var sent: seq<CocoDelta>

    ghost predicate Shape()
      reads keys, counters
    {
      && counters.Length == keys.Length && (d > 0 && w > 0 ==> HomesInRange(place, d, keys.Length))
      && (d == 0 || w == 0 ==> keys.Length == 0)
      && SingleHome(place, d, keys[..]) && Keyed(keys[..], Residual()) && BelowPromask(Residual())
    }

    ghost predicate Valid()
      reads this, keys, counters
    {
      Shape() && Ledger(arrivals, keys[..], Residual(), sent)
    }

    ghost function Residual(): seq<nat>
      reads counters
    {
      Widen(counters[..])
    }

    constructor (w: nat, d: nat, place: Placement)
      requires d > 0 && w > 0 ==> HomesInRange(place, d, w * d)
      ensures Valid() && fresh(keys) && fresh(counters) && arrivals == [] && sent == []
      ensures this.w == w && this.d == d && this.place == place && keys.Length == counters.Length == w * d
    {
      this.w, this.d, this.place := w, d, place;
      keys := new Option<Key>[w * d](_ => None);
      counters := new u8[w * d](_ => 0);
      arrivals, sent := [], [];
      new;
      ZeroMass(Residual(), 0);
    }

    /** Looks for a key in its buckets: the bucket that holds it, or the smallest one the draws pick. */
    method Scan(key: Key, draws: Draws) returns (resident: bool, cell: nat)
      requires Shape() && d > 0 && w > 0
      ensures cell < keys.Length
      ensures resident ==> keys[cell] == Some(key) && IsHome(place, d, key, cell)
      ensures !resident ==> Picked(place, Residual(), key, d, draws, cell) && Absent(place, keys[..], key, d)
    {
      hide Picked, SingleHome, Keyed;
      ghost var vals := Residual();
      var victim: nat, victimVal: u8, tied: nat := 0, 255, 0;
      var i: nat := 0;
      while i < d
        invariant i <= d && Absent(place, keys[..], key, i)
        invariant i == 0 ==> victimVal == 255
        invariant i > 0 ==>
                    && victim < |vals| && victimVal as int == vals[victim]
                    && Picked(place, vals, key, i, draws, victim) && tied == Rank(place, vals, key, vals[victim], i)
      {
        var cell := Home(place, i, key);
        ghost var was := victim;
        if keys[cell] == Some(key) {
          return true, cell;
        }
        assert vals[cell] < MAX_PROMASK;
        if counters[cell] < victimVal {
          RankFirst(place, vals, key, i, draws, was);
          victimVal, victim, tied := counters[cell], cell, 1;
        } else if counters[cell] == victimVal {
          tied := tied + 1;
          if draws.tie(i, tied) == 0 {
            victim := cell;
          }
        }
        PickedNext(place, vals, key, i, draws, was, victim);
        i := i + 1;
      }
      return false, victim;
    }

    /** One arrival of a key. A bucket that gets to the threshold is sent and starts again from zero,
        under the key it holds once the election is over. */
    method InsertEmitDelta(key: Key, threshold: nat, draws: Draws) returns (emitted: seq<CocoDelta>)
      requires Valid() && draws.Valid()
      modifies this`arrivals, this`sent, keys, counters
      ensures Valid() && sent == old(sent) + emitted
      ensures arrivals == if d == 0 || w == 0 then old(arrivals) else old(arrivals) + [key]
      ensures d > 0 && w > 0 ==>
                exists c: nat :: RecordedAt(place, d, old(keys[..]), old(Residual()), key, OctoWorker.Clamp(threshold),
                                            draws, keys[..], Residual(), emitted, c)
    {
      hide SingleHome, Keyed, Picked, InsertedAt, IsHome, Absent, Ledger, RecordedAt;
      emitted := [];
      if d == 0 || w == 0 {
        return;
      }
      var tau := OctoWorker.Clamp(threshold) as u8;
      ghost var keys0, vals0 := keys[..], Residual();
      var resident, cell := Scan(key, draws);
      var elected := !resident;
      counters[cell] := counters[cell] + 1;
      ghost var vals1 := vals0[cell := vals0[cell] + 1];
      assert Residual() == vals1;
      if resident {
        ResidentAt(place, d, keys0, vals0, key, 1, draws, cell);
      } else {
        NotResident(place, d, keys0, key);
        if keys[cell].Some? {
          elected := Wins(1, counters[cell] as int, draws.election);
        }
        VictimAt(place, d, keys0, vals0, key, 1, draws, cell, elected);
      }
      if elected {
        keys[cell] := Some(key);
      }
      ghost var keys1 := if elected then keys0[cell := Some(key)] else keys0;
      assert keys[..] == keys1 && keys1[cell].Some?;
      LedgerInsert(place, d, arrivals, keys0, vals0, sent, key, draws, keys1, vals1, cell);
      arrivals := arrivals + [key];
      if counters[cell] >= tau {
        if keys[cell].Some? {
          emitted := [CocoDelta(keys[cell].value, counters[cell] as int)];
        }
        LedgerPromote(arrivals, keys1, vals1, sent, cell);
        counters[cell] := 0;
        assert Residual() == vals1[cell := 0];
      } else {
        assert sent + emitted == sent;
      }
      RecordedIs(place, d, keys0, vals0, key, tau as int, draws, keys1, Residual(), emitted, cell);
      sent := sent + emitted;
    }

    /** Sends and zeroes every bucket's count under its key; the keys stay where they are. */
    method Flush() returns (emitted: seq<CocoDelta>)
      requires Valid()
      modifies this`sent, counters
      ensures Valid() && sent == old(sent) + emitted
      ensures forall c :: 0 <= c < counters.Length ==> counters[c] == 0
      ensures Hands(keys[..], old(Residual()), counters.Length, emitted)
      ensures SentMass(sent) == |arrivals|
    {
      hide SingleHome, Ledger, SentMass, MassFrom;
      emitted := [];
      var cell := 0;
      while cell < counters.Length
        invariant 0 <= cell <= counters.Length && sent == old(sent) + emitted && Valid()
        invariant forall c :: 0 <= c < cell ==> counters[c] == 0
        invariant forall c :: cell <= c < counters.Length ==> counters[c] == old(counters[c])
        invariant Hands(keys[..], old(Residual()), cell, emitted)
      {
        SingleKey(place, d, keys[..], cell);
        if counters[cell] != 0 {
          ghost var vals := Residual();
          assert keys[cell].Some?;
          LedgerPromote(arrivals, keys[..], vals, sent, cell);
          var promoted := [CocoDelta(keys[cell].value, counters[cell] as int)];
          emitted := emitted + promoted;
          sent := sent + promoted;
          counters[cell] := 0;
          assert Residual() == vals[cell := 0];
        }
        cell := cell + 1;
      }
      AllSent(arrivals, keys[..], Residual(), sent);
    }
  }

  /** `emitted` hands over the first `n` buckets: each that counts anything once, under its own
      key and with its own count, and nothing else. */
  ghost predicate Hands(keys: seq<Option<Key>>, vals: seq<nat>, n: nat, emitted: seq<CocoDelta>) {
    && |keys| == |vals| && n <= |keys|
    && (forall c: nat :: c < n && vals[c] > 0 ==> keys[c].Some? && CocoDelta(keys[c].value, vals[c]) in emitted)
    && (forall m :: m in emitted ==>
          exists c: nat :: c < n && vals[c] > 0 && keys[c] == Some(m.key) && m.value == vals[c])
    && forall a, b :: 0 <= a < b < |emitted| ==> emitted[a].key != emitted[b].key
  }

  lemma SingleKey(place: Placement, d: nat, keys: seq<Option<Key>>, n: nat)
    requires SingleHome(place, d, keys) && n < |keys|
    ensures forall c: nat :: c < n && keys[n].Some? ==> keys[c] != keys[n]
  {
  }

  /** With nothing held back, what was sent is what arrived. */
  lemma {:induction false} AllSent(arrivals: seq<Key>, keys: seq<Option<Key>>, vals: seq<nat>, sent: seq<CocoDelta>)
    requires Ledger(arrivals, keys, vals, sent) && forall a :: 0 <= a < |vals| ==> vals[a] == 0
    ensures SentMass(sent) == |arrivals|
  {
    ZeroMass(vals, 0);
  }
}
