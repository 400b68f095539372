/** What a bounded heap retains over a whole run of offers. */
module TopK {
  import opened ScanHeap
  import opened Wrappers

  datatype Offer = Offer(key: Key, count: int)

  /** The heap after a run of offers. */
  ghost function After(k: nat, offers: seq<Offer>): seq<Item> {
    if offers == [] then []
    else
      var n := |offers| - 1;
      ScanUpdate(After(k, offers[..n]), k, offers[n].key, offers[n].count).0
  }

  /** Whether every offer of the run was answered that no key has been turned away. */
  ghost predicate AllAnsweredRetained(k: nat, offers: seq<Offer>) {
    offers == [] ||
      var n := |offers| - 1;
      AllAnsweredRetained(k, offers[..n]) &&
      ScanUpdate(After(k, offers[..n]), k, offers[n].key, offers[n].count).1
  }

  ghost function Offered(offers: seq<Offer>): set<Key> {
    set o | o in offers :: o.key
  }

  /** The count last offered for `x`. */
  ghost function Last(offers: seq<Offer>, x: Key): int
    requires x in Offered(offers)
    decreases |offers|
  {
    var n := |offers| - 1;
    if offers[n].key == x then offers[n].count else
      assert forall o :: o in offers <==> o in offers[..n] || o == offers[n];
      Last(offers[..n], x)
  }

  ghost predicate NonDecreasing(offers: seq<Offer>) {
    forall i, j :: 0 <= i < j < |offers| && offers[i].key == offers[j].key ==> offers[i].count <= offers[j].count
  }

  /** What holds after any run: a heap of at most `k` unique keys, each with the count last offered
      for it, that has room only if it holds every key offered. */
  ghost predicate Tracks(d: seq<Item>, k: nat, offers: seq<Offer>) {
    && Ordered(d) && Unique(d) && |d| <= k
    && (forall x :: x in d ==> x.key in Offered(offers) && x.count == Last(offers, x.key))
    && (|d| < k ==> forall x :: x in Offered(offers) ==> HasKey(d, x))
  }

  lemma {:induction false} OfferedSnoc(offers: seq<Offer>, n: nat)
    requires |offers| == n + 1
    ensures Offered(offers) == Offered(offers[..n]) + {offers[n].key}
    ensures Last(offers, offers[n].key) == offers[n].count
    ensures forall x :: x in Offered(offers[..n]) && x != offers[n].key ==> Last(offers, x) == Last(offers[..n], x)
  {
    assert offers == offers[..n] + [offers[n]];
  }

  lemma {:induction false} RunTracks(k: nat, offers: seq<Offer>)
    ensures Tracks(After(k, offers), k, offers)
    decreases |offers|
  {
    if offers != [] {
      var n := |offers| - 1;
      RunTracks(k, offers[..n]);
      OfferedSnoc(offers, n);
      TracksStep(After(k, offers[..n]), k, offers, n);
    }
  }

  lemma {:induction false} TracksStep(d: seq<Item>, k: nat, offers: seq<Offer>, n: nat)
    requires |offers| == n + 1 && Tracks(d, k, offers[..n])
    ensures Tracks(ScanUpdate(d, k, offers[n].key, offers[n].count).0, k, offers)
  {
    var key, count := offers[n].key, offers[n].count;
    var e := ScanUpdate(d, k, key, count).0;
    hide ScanUpdate, Ordered, Unique;
    UpdateKeepsHeap(d, k, key, count);
    UpdateUpdates(d, k, key, count);
    OfferedSnoc(offers, n);
    hide Offered, Last;
    if |e| < k {
      KeysKept(d, k, key, count, e);
    }
    forall x | x in e ensures x.key in Offered(offers) && x.count == Last(offers, x.key) {
      NewOrOld(d, k, key, count, e, x);
    }
  }

  /** An item after an update is the one offered or an old one of another key. */
  lemma {:induction false} NewOrOld(d: seq<Item>, k: nat, key: Key, count: int, e: seq<Item>, x: Item)
    requires Updated(d, k, key, count, e) && x in e
    ensures x == Item(key, count) || (x in d && x.key != key)
  {
    if x in d && !HasKey(d, key) {
      var i :| 0 <= i < |d| && d[i] == x;
      assert d[i].key != key;
    }
  }

  lemma Holds(d: seq<Item>, x: Item)
    requires x in d
    ensures HasKey(d, x.key)
  {
  }

  /** While there is room every key is kept, the new one included. */
  lemma {:induction false} KeysKept(d: seq<Item>, k: nat, key: Key, count: int, e: seq<Item>)
    requires Updated(d, k, key, count, e) && (HasKey(d, key) || |d| < k)
    ensures HasKey(e, key) && forall x :: HasKey(d, x) ==> HasKey(e, x)
  {
    Holds(e, Item(key, count));
    forall x | HasKey(d, x) ensures HasKey(e, x) {
      var i :| 0 <= i < |d| && d[i].key == x;
      if x != key {
        Holds(e, d[i]);
      }
    }
  }

  // ---------------------------------------------------------------- the top-k theorem

  /** Every offered key that is not retained counts at most as much as every retained one. */
  ghost predicate RetainsTop(d: seq<Item>, offers: seq<Offer>) {
    forall x, y :: x in Offered(offers) && !HasKey(d, x) && y in d ==> Last(offers, x) <= y.count
  }

  /** If the counts offered for a key never decrease, every run retains a true top k. */
  lemma {:induction false} RunRetainsTop(k: nat, offers: seq<Offer>)
    requires NonDecreasing(offers)
    ensures RetainsTop(After(k, offers), offers)
    decreases |offers|
  {
    if offers != [] {
      var n := |offers| - 1;
      RunTracks(k, offers[..n]);
      RunRetainsTop(k, offers[..n]);
      var d := After(k, offers[..n]);
      var e := After(k, offers);
      UpdateUpdates(d, k, offers[n].key, offers[n].count);
      forall x, y | x in Offered(offers) && !HasKey(e, x) && y in e ensures Last(offers, x) <= y.count {
        RetainsTopStep(d, k, offers, n, e, x, y);
      }
    }
  }

  lemma {:induction false} RetainsTopStep(d: seq<Item>, k: nat, offers: seq<Offer>, n: nat, e: seq<Item>, x: Key,
                                          y: Item)
    requires NonDecreasing(offers) && |offers| == n + 1
    requires Tracks(d, k, offers[..n]) && RetainsTop(d, offers[..n])
    requires Updated(d, k, offers[n].key, offers[n].count, e)
    requires x in Offered(offers) && !HasKey(e, x) && y in e
    ensures Last(offers, x) <= y.count
  {
    var key, count := offers[n].key, offers[n].count;
    OfferedSnoc(offers, n);
    if |d| > 0 {
      RootLeast(d);
    }
    hide Offered, Last, NonDecreasing, Ordered, Unique;
    if y.key == key {
      NewOrOld(d, k, key, count, e, y);
      Holds(e, y);
      if HasKey(d, x) {
        EvictedIsRoot(d, k, key, count, e, x);
      } else if HasKey(d, key) {
        var i :| 0 <= i < |d| && d[i].key == key;
        assert d[i] in d;
        NeverLess(offers, n);
      }
    } else {
      NewOrOld(d, k, key, count, e, y);
      if x == key {
        RefusedIfAbsent(d, k, key, count, e);
      } else if HasKey(d, x) {
        EvictedIsRoot(d, k, key, count, e, x);
      }
    }
  }

  lemma {:induction false} RootLeast(d: seq<Item>)
    requires d != [] && Ordered(d)
    ensures d[0] in d && forall y :: y in d ==> d[0].count <= y.count
  {
    forall y | y in d ensures d[0].count <= y.count {
      var i :| 0 <= i < |d| && d[i] == y;
      RootIsLeast(d, i);
    }
  }

  /** A key that was retained and no longer is was the root, and lost to a larger count. */
  lemma {:induction false} EvictedIsRoot(d: seq<Item>, k: nat, key: Key, count: int, e: seq<Item>, x: Key)
    requires Updated(d, k, key, count, e) && HasKey(d, x) && !HasKey(e, x) && x != key
    ensures d != [] && x == d[0].key && count > d[0].count
  {
    var i :| 0 <= i < |d| && d[i].key == x;
    if d[i] in e {
      Holds(e, d[i]);
    }
  }

  lemma {:induction false} RefusedIfAbsent(d: seq<Item>, k: nat, key: Key, count: int, e: seq<Item>)
    requires Updated(d, k, key, count, e) && !HasKey(e, key)
    ensures !HasKey(d, key) && Refuses(d, k, count) && e == d
  {
    if Item(key, count) in e {
      Holds(e, Item(key, count));
    }
  }

  /** The newest offer for a key is at least the one before it. */
  lemma {:induction false} NeverLess(offers: seq<Offer>, n: nat)
    requires |offers| == n + 1 && NonDecreasing(offers) && offers[n].key in Offered(offers[..n])
    ensures Last(offers[..n], offers[n].key) <= offers[n].count
  {
    var i := LastAt(offers[..n], offers[n].key);
  }

  lemma {:induction false} LastAt(offers: seq<Offer>, x: Key) returns (i: nat)
    requires x in Offered(offers)
    ensures i < |offers| && offers[i].key == x && offers[i].count == Last(offers, x)
    decreases |offers|
  {
    var n := |offers| - 1;
    if offers[n].key == x {
      i := n;
    } else {
      OfferedSnoc(offers, n);
      i := LastAt(offers[..n], x);
    }
  }

  // ---------------------------------------------------------------- what the answers mean

  ghost function KeySet(d: seq<Item>): set<Key> {
    set x | x in d :: x.key
  }

  lemma {:induction false} KeySetHas(d: seq<Item>, x: Key)
    ensures x in KeySet(d) <==> HasKey(d, x)
  {
    if HasKey(d, x) {
      var i :| 0 <= i < |d| && d[i].key == x;
      assert d[i] in d;
    }
  }

  lemma {:induction false} KeySetSize(d: seq<Item>)
    requires Unique(d)
    ensures |KeySet(d)| == |d|
    decreases |d|
  {
    if d != [] {
      var n := |d| - 1;
      KeySetSize(d[..n]);
      assert d == d[..n] + [d[n]];
      assert KeySet(d) == KeySet(d[..n]) + {d[n].key};
      KeySetHas(d[..n], d[n].key);
    }
  }

  lemma {:induction false} Cardinalities(a: set<Key>, b: set<Key>)
    requires a <= b
    ensures |a| <= |b| && (|a| == |b| ==> a == b)
  {
    assert b == a + (b - a);
    assert |b| == |a| + |b - a|;
  }

  lemma {:induction false} AnswersInvariant(k: nat, offers: seq<Offer>)
    ensures if AllAnsweredRetained(k, offers) then KeySet(After(k, offers)) == Offered(offers)
            else |Offered(offers)| > k
    decreases |offers|
  {
    if offers != [] {
      var n := |offers| - 1;
      AnswersInvariant(k, offers[..n]);
      RunTracks(k, offers[..n]);
      RunTracks(k, offers);
      OfferedSnoc(offers, n);
      var d := After(k, offers[..n]);
      AnswersStep(d, k, offers, n, AllAnsweredRetained(k, offers[..n]));
    }
  }

  lemma {:induction false} AnswersStep(d: seq<Item>, k: nat, offers: seq<Offer>, n: nat, all: bool)
    requires |offers| == n + 1 && Tracks(d, k, offers[..n])
    requires if all then KeySet(d) == Offered(offers[..n]) else |Offered(offers[..n])| > k
    ensures var (e, retained) := ScanUpdate(d, k, offers[n].key, offers[n].count);
            if all && retained then KeySet(e) == Offered(offers) else |Offered(offers)| > k
  {
    var key, count := offers[n].key, offers[n].count;
    var (e, retained) := ScanUpdate(d, k, key, count);
    TracksStep(d, k, offers, n);
    UpdateUpdates(d, k, key, count);
    OfferedSnoc(offers, n);
    AnswerMeans(d, k, key, count);
    hide ScanUpdate, Offered, Last, Ordered, Unique;
    if all && retained {
      KeysKept(d, k, key, count, e);
      forall x ensures x in KeySet(e) <==> x in Offered(offers) {
        KeySetHas(d, x);
        KeySetHas(e, x);
      }
    } else {
      Cardinalities(Offered(offers[..n]), Offered(offers));
      if all {
        KeySetSize(d);
        KeySetHas(d, key);
      }
    }
  }

  lemma AnswerMeans(d: seq<Item>, k: nat, key: Key, count: int)
    ensures ScanUpdate(d, k, key, count).1 <==> HasKey(d, key) || |d| < k
  {
  }

  /** All offers were answered true exactly if every key offered is still resident, and exactly
      if at most `k` different keys were offered. */
  lemma {:induction false} AnswersAreExact(k: nat, offers: seq<Offer>)
    ensures AllAnsweredRetained(k, offers) <==> forall x :: x in Offered(offers) ==> HasKey(After(k, offers), x)
    ensures AllAnsweredRetained(k, offers) <==> |Offered(offers)| <= k
  {
    var d := After(k, offers);
    AnswersInvariant(k, offers);
    RunTracks(k, offers);
    KeySetSize(d);
    hide After, AllAnsweredRetained, Ordered, Unique;
    forall x ensures x in KeySet(d) <==> HasKey(d, x) {
      KeySetHas(d, x);
    }
    if forall x :: x in Offered(offers) ==> HasKey(d, x) {
      Cardinalities(Offered(offers), KeySet(d));
    }
  }

  /** The answer to the last offer of a run. */
  ghost predicate LastAnswer(k: nat, offers: seq<Offer>)
    requires offers != []
  {
    var n := |offers| - 1;
    ScanUpdate(After(k, offers[..n]), k, offers[n].key, offers[n].count).1
  }

  /** A single answer tells whether all keys offered up to then are resident, unless it is given to a
      resident key after more than `k` different keys: that one is answered true although some key was
      turned away. Nothing else misleads. */
  lemma {:induction false} LastAnswerIff(k: nat, offers: seq<Offer>)
    requires offers != []
    ensures var n := |offers| - 1;
            (LastAnswer(k, offers) <==> forall x :: x in Offered(offers) ==> HasKey(After(k, offers), x))
            <==> (HasKey(After(k, offers[..n]), offers[n].key) ==> |Offered(offers[..n])| <= k)
  {
    var n := |offers| - 1;
    var d := After(k, offers[..n]);
    AnswersAreExact(k, offers);
    AnswersAreExact(k, offers[..n]);
    AnswerMeans(d, k, offers[n].key, offers[n].count);
    RunTracks(k, offers[..n]);
    KeySetSize(d);
    hide ScanUpdate, After, Offered, Ordered, Unique, Last;
    if |d| < k {
      forall x | x in Offered(offers[..n]) ensures x in KeySet(d) {
        KeySetHas(d, x);
      }
      Cardinalities(Offered(offers[..n]), KeySet(d));
    }
  }

  /** So every run that has offered more than `k` keys can be misled: by any count for a resident. */
  lemma {:induction false} RescoreMisleads(k: nat, offers: seq<Offer>)
    requires offers != [] && HasKey(After(k, offers[..|offers| - 1]), offers[|offers| - 1].key)
    requires |Offered(offers[..|offers| - 1])| > k
    ensures LastAnswer(k, offers) && exists x :: x in Offered(offers) && !HasKey(After(k, offers), x)
  {
    var n := |offers| - 1;
    LastAnswerIff(k, offers);
    AnswerMeans(After(k, offers[..n]), k, offers[n].key, offers[n].count);
    hide ScanUpdate, After, Offered, HasKey;
  }

  /** A heap for one key: the second key is turned away, and the first one's next count is answered
      true all the same. */
  lemma {:induction false} OneAnswerCanMislead(k: nat, offers: seq<Offer>)
    requires k == 1 && offers == [Offer(1, 1), Offer(2, 0), Offer(1, 1)]
    ensures LastAnswer(k, offers) && !HasKey(After(k, offers), 2) && 2 in Offered(offers)
  {
    hide After, ScanUpdate, Offered;
    var none: seq<Offer> := offers[..0];
    var one := offers[..1];
    var two := offers[..2];
    assert one[..0] == none && two[..1] == one && offers[..2] == two;
    AfterFirst(k, none, one);
    var d := [Item(1, 1)];
    SoleResident(k, d);
    AfterSnoc(k, two, 1);
    AfterSnoc(k, offers, 2);
    AfterSnoc(k, one, 0);
    TwoOffered(two);
    assert After(k, two) == d;
    RescoreMisleads(k, offers);
    assert offers[1] in offers;
    OfferedHas(offers, offers[1]);
  }

  lemma OfferedHas(offers: seq<Offer>, o: Offer)
    requires o in offers
    ensures o.key in Offered(offers)
  {
  }

  lemma {:induction false} TwoOffered(two: seq<Offer>)
    requires two == [Offer(1, 1), Offer(2, 0)]
    ensures |Offered(two)| == 2
  {
    assert two[0] in two && two[1] in two;
    assert Offered(two) == {1, 2};
  }

  lemma AfterSnoc(k: nat, offers: seq<Offer>, n: nat)
    requires |offers| == n + 1
    ensures After(k, offers) == ScanUpdate(After(k, offers[..n]), k, offers[n].key, offers[n].count).0
  {
  }

  lemma AfterFirst(k: nat, none: seq<Offer>, one: seq<Offer>)
    requires k == 1 && none == [] && one == [Offer(1, 1)]
    ensures After(k, none) == [] && ScanUpdate(After(k, none), k, 1, 1).0 == [Item(1, 1)]
  {
  }

  lemma SoleResident(k: nat, d: seq<Item>)
    requires k == 1 && d == [Item(1, 1)]
    ensures ScanUpdate(d, k, 2, 0) == (d, false) && ScanUpdate(d, k, 1, 1) == (d, true)
    ensures HasKey(d, 1) && !HasKey(d, 2)
  {
    assert d[..0] == [];
    assert Position(d, 1) == Some(0) && Position(d, 2) == None;
    assert d[0 := Item(1, 1)] == d;
    assert Target(d, 0) == 0;
  }
}
