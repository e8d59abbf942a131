/**
 Runs of updates on one side of the book, against the unbounded price-to-size map: when
 the bounded side is exactly the best levels of the map, and when it stops being so.
 */
module BookRuns {
  import opened Sets
  import opened BookSpec

  datatype Change = Change(price: real, size: nat)

  /** A side after a list of changes, from an empty side. */
  function SideRun(max: nat, descending: bool, cs: seq<Change>): (lv: seq<Level>)
    ensures |lv| <= max
  {
    if cs == [] then []
    else
      var last := cs[|cs| - 1];
      ApplySide(max, descending, SideRun(max, descending, cs[..|cs| - 1]), last.price, last.size)
  }

  lemma SideRunAppend(max: nat, descending: bool, cs: seq<Change>, c: Change)
    ensures SideRun(max, descending, cs + [c])
            == ApplySide(max, descending, SideRun(max, descending, cs), c.price, c.size)
  {
    assert (cs + [c])[..|cs + [c]| - 1] == cs;
  }

  function MapRun(cs: seq<Change>): map<real, nat> {
    if cs == [] then map[]
    else ApplyMap(MapRun(cs[..|cs| - 1]), cs[|cs| - 1].price, cs[|cs| - 1].size)
  }

  /** On every run, evictions or not: sorted, positive, and only levels the map holds. */
  lemma {:induction false} SideIsSound(max: nat, descending: bool, cs: seq<Change>)
    ensures Sound(descending, SideRun(max, descending, cs), MapRun(cs))
  {
    if cs != [] {
      var last := cs[|cs| - 1];
      SideIsSound(max, descending, cs[..|cs| - 1]);
      SoundStep(max, descending, SideRun(max, descending, cs[..|cs| - 1]),
                MapRun(cs[..|cs| - 1]), last.price, last.size);
    }
  }

  // ---- the best levels of a map ----------------------------------------------------

  lemma SizeOfInsert(m: map<real, nat>, p: real, size: nat)
    ensures |m[p := size]| == |m| + (if p in m then 0 else 1)
  {
    assert m[p := size].Keys == m.Keys + {p};
  }

  lemma SizeOfRemove(m: map<real, nat>, p: real)
    ensures |m - {p}| == |m| - (if p in m then 1 else 0)
  {
    assert (m - {p}).Keys == m.Keys - {p};
  }

  lemma PricesMembers(lv: seq<Level>, r: seq<Level>, c: Change)
    requires forall x :: x in r <==> (x in lv && x.price != c.price)
                                     || (c.size > 0 && x == Level(c.price, c.size))
    ensures Prices(r) == if c.size > 0 then Prices(lv) + {c.price} else Prices(lv) - {c.price}
  {
    if c.size > 0 {
      assert Level(c.price, c.size) in r;
    }
    forall p | p in Prices(lv) && p != c.price ensures p in Prices(r) {
      var x :| x in lv && x.price == p;
      assert x in r;
    }
  }

  /** The removal that cannot be made good: a kept level goes while others are crowded out. */
  ghost predicate Uncovers(max: nat, lv: seq<Level>, m: map<real, nat>, c: Change) {
    c.size == 0 && c.price in Prices(lv) && |m| > max
  }

  lemma StillLeads(max: nat, descending: bool, lv: seq<Level>, m: map<real, nat>, c: Change)
    requires IsBest(max, descending, lv, m)
    requires c.price in Prices(lv) || (c.size > 0 && |lv| < max)
    ensures var r := ApplySide(max, descending, lv, c.price, c.size);
            && Leads(descending, r, ApplyMap(m, c.price, c.size))
            && |r| == |lv| + (if c.size == 0 then 0 - 1 else if c.price in Prices(lv) then 0 else 1)
  {
    var r := ApplySide(max, descending, lv, c.price, c.size);
    ApplyMembers(max, descending, lv, c.price, c.size);
    PricesMembers(lv, r, c);
    PricesSize(descending, lv);
    PricesSize(descending, r);
    if |m| <= max {
      RoomMeansAll(max, descending, lv, m);
    }
  }

  lemma BestKeepsOrDrops(max: nat, descending: bool, lv: seq<Level>, m: map<real, nat>, c: Change)
    requires IsBest(max, descending, lv, m)
    requires c.price in Prices(lv) || (c.size > 0 && |lv| < max)
    ensures IsBest(max, descending, ApplySide(max, descending, lv, c.price, c.size),
                   ApplyMap(m, c.price, c.size))
            <==> !Uncovers(max, lv, m, c)
  {
    StillLeads(max, descending, lv, m, c);
    SizeOfInsert(m, c.price, c.size);
    SizeOfRemove(m, c.price);
    if |m| <= max {
      RoomMeansAll(max, descending, lv, m);
    }
  }

  lemma BestIgnores(max: nat, descending: bool, lv: seq<Level>, m: map<real, nat>, c: Change)
    requires IsBest(max, descending, lv, m) && c.size == 0 && c.price !in Prices(lv)
    ensures IsBest(max, descending, ApplySide(max, descending, lv, c.price, c.size),
                   ApplyMap(m, c.price, c.size))
  {
    SizeOfRemove(m, c.price);
    assert IndexOf(lv, c.price) == |lv| by {
      assert forall j | 0 <= j < |lv| :: lv[j] in lv;
    }
    if c.price in m {
      CrowdedOut(max, descending, lv, m, c.price);
    }
  }

  lemma BestEvicts(max: nat, descending: bool, lv: seq<Level>, m: map<real, nat>, c: Change)
    requires IsBest(max, descending, lv, m)
    requires c.size > 0 && c.price !in Prices(lv) && |lv| == max
    ensures IsBest(max, descending, ApplySide(max, descending, lv, c.price, c.size),
                   ApplyMap(m, c.price, c.size))
  {
    SizeOfInsert(m, c.price, c.size);
    EvictMembers(max, descending, lv, c.price, c.size);
    if max > 0 && Better(descending, c.price, lv[max - 1].price) {
      assert lv[max - 1] in lv && c.price !in m;
      BestReplaces(max, descending, lv, m, c);
    } else {
      BestUnmoved(max, descending, lv, m, c);
    }
  }

  lemma BestUnmoved(max: nat, descending: bool, lv: seq<Level>, m: map<real, nat>, c: Change)
    requires IsBest(max, descending, lv, m) && c.price !in Prices(lv) && |lv| == max
    requires max > 0 ==> !Better(descending, c.price, lv[max - 1].price)
    ensures IsBest(max, descending, lv, m[c.price := c.size])
  {
    SizeOfInsert(m, c.price, c.size);
    forall l | l in lv ensures Better(descending, l.price, c.price) {
      var i :| 0 <= i < |lv| && lv[i] == l;
      assert lv[max - 1] in lv;
      assert l.price in Prices(lv);
      assert i == max - 1 || Better(descending, l.price, lv[max - 1].price);
    }
  }

  lemma BestReplaces(max: nat, descending: bool, lv: seq<Level>, m: map<real, nat>, c: Change)
    requires IsBest(max, descending, lv, m) && c.price !in m && c.size > 0
    requires |lv| == max > 0 && Better(descending, c.price, lv[max - 1].price)
    requires c.price !in Prices(lv)
    ensures IsBest(max, descending, ApplySide(max, descending, lv, c.price, c.size),
                   m[c.price := c.size])
  {
    var r := ApplySide(max, descending, lv, c.price, c.size);
    EvictMembers(max, descending, lv, c.price, c.size);
    SizeOfInsert(m, c.price, c.size);
    ReplacedSize(max, descending, lv, c);
    var worst := lv[max - 1];
    assert lv == lv[..max - 1] + [worst];
    assert forall x | x in lv[..max - 1] :: Better(descending, x.price, worst.price);
    ReplacedLeads(descending, lv[..max - 1], worst, r, m, c);
  }

  lemma ReplacedSize(max: nat, descending: bool, lv: seq<Level>, c: Change)
    requires |lv| == max && c.price !in Prices(lv)
    ensures |ApplySide(max, descending, lv, c.price, c.size)| == max
  {
    assert forall j | 0 <= j < |lv| :: lv[j] in lv && lv[j].price in Prices(lv);
  }

  lemma ReplacedLeads(descending: bool, rest: seq<Level>, worst: Level, r: seq<Level>,
                      m: map<real, nat>, c: Change)
    requires Leads(descending, rest + [worst], m) && Sorted(descending, r)
    requires Better(descending, c.price, worst.price) && c.price !in m
    requires forall x | x in rest :: Better(descending, x.price, worst.price)
    requires forall x :: x in r <==> x in rest || x == Level(c.price, c.size)
    ensures Leads(descending, r, m[c.price := c.size])
  {
    var lv, m' := rest + [worst], m[c.price := c.size];
    forall l, p | l in r && p in m' && p !in Prices(r) ensures Better(descending, l.price, p) {
      assert p != c.price by {
        assert Level(c.price, c.size) in r;
      }
      if p in Prices(lv) {
        var x :| x in lv && x.price == p;
        assert x == worst;
      } else {
        assert worst in lv;
      }
    }
  }

  /**
   One change keeps the side at the best levels of the map if and only if it does not
   remove a kept level while the map holds more levels than fit.
   */
  lemma BestStep(max: nat, descending: bool, lv: seq<Level>, m: map<real, nat>, c: Change)
    requires IsBest(max, descending, lv, m)
    ensures IsBest(max, descending, ApplySide(max, descending, lv, c.price, c.size),
                   ApplyMap(m, c.price, c.size))
            <==> !Uncovers(max, lv, m, c)
  {
    if c.price in Prices(lv) || (c.size > 0 && |lv| < max) {
      BestKeepsOrDrops(max, descending, lv, m, c);
    } else if c.size == 0 {
      BestIgnores(max, descending, lv, m, c);
    } else {
      BestEvicts(max, descending, lv, m, c);
    }
  }

  // ---- whole runs --------------------------------------------------------------------

  /** How many prices of the map rank before this one. */
  ghost function Rank(descending: bool, m: map<real, nat>, price: real): nat {
    |set p | p in m && Better(descending, p, price)|
  }

  /** No change removes one of the best `max` prices of the map while more than `max` rest. */
  ghost predicate NeverUncovers(max: nat, descending: bool, cs: seq<Change>) {
    cs == [] ||
    (var m, last := MapRun(cs[..|cs| - 1]), cs[|cs| - 1];
     && NeverUncovers(max, descending, cs[..|cs| - 1])
     && !(last.size == 0 && last.price in m && |m| > max
          && Rank(descending, m, last.price) < max))
  }

  /** After every change so far the side was the best `max` levels of the map. */
  ghost predicate AlwaysBest(max: nat, descending: bool, cs: seq<Change>) {
    && IsBest(max, descending, SideRun(max, descending, cs), MapRun(cs))
    && (cs == [] || AlwaysBest(max, descending, cs[..|cs| - 1]))
  }

  lemma KeptIffRanked(max: nat, descending: bool, lv: seq<Level>, m: map<real, nat>, price: real)
    requires IsBest(max, descending, lv, m) && |m| > max && price in m
    ensures price in Prices(lv) <==> Rank(descending, m, price) < max
  {
    var before := set p | p in m && Better(descending, p, price);
    PricesSize(descending, lv);
    if price in Prices(lv) {
      assert before <= Prices(lv) - {price} by {
        forall p | p in before ensures p in Prices(lv) {
          var x :| x in lv && x.price == price;
        }
      }
      SubsetSize(before, Prices(lv) - {price});
    } else {
      assert Prices(lv) <= before;
      SubsetSize(Prices(lv), before);
    }
  }

  /**
   Tracking the best `max` levels, stated on the map alone: the side is exactly the best
   `max` levels after every change if and only if no change removes one of them while more
   than `max` levels are live.
   */
  lemma {:induction false} BestIffNeverUncovers(max: nat, descending: bool, cs: seq<Change>)
    ensures AlwaysBest(max, descending, cs) <==> NeverUncovers(max, descending, cs)
  {
    if cs != [] {
      var prefix, last := cs[..|cs| - 1], cs[|cs| - 1];
      BestIffNeverUncovers(max, descending, prefix);
      var lv, m := SideRun(max, descending, prefix), MapRun(prefix);
      if AlwaysBest(max, descending, prefix) {
        BestStep(max, descending, lv, m, last);
        if |m| > max && last.price in m {
          KeptIffRanked(max, descending, lv, m, last.price);
        }
      }
    }
  }

  lemma MapRunAppend(cs: seq<Change>, c: Change)
    ensures MapRun(cs + [c]) == ApplyMap(MapRun(cs), c.price, c.size)
  {
    assert (cs + [c])[..|cs + [c]| - 1] == cs;
  }

  /** A removal of a crowded side does break it: one level kept, two live, the best one goes. */
  lemma RemovalCanUncover()
    ensures var cs := [Change(2.0, 1), Change(1.0, 1), Change(2.0, 0)];
            SideRun(1, true, cs) == [] && MapRun(cs) == map[1.0 := 1]
  {
    var a, b, c := Change(2.0, 1), Change(1.0, 1), Change(2.0, 0);
    assert [a, b, c] == [] + [a] + [b] + [c];
    SideRunAppend(1, true, [], a);
    SideRunAppend(1, true, [] + [a], b);
    SideRunAppend(1, true, [] + [a] + [b], c);
    MapRunAppend([], a);
    MapRunAppend([] + [a], b);
    MapRunAppend([] + [a] + [b], c);
    assert ApplySide(1, true, [], 2.0, 1) == [Level(2.0, 1)];
    assert ApplySide(1, true, [Level(2.0, 1)], 1.0, 1) == [Level(2.0, 1)];
    assert ApplySide(1, true, [Level(2.0, 1)], 2.0, 0) == [];
  }

  ghost predicate NeverCrowded(max: nat, cs: seq<Change>) {
    |MapRun(cs)| <= max && (cs == [] || NeverCrowded(max, cs[..|cs| - 1]))
  }

  /** While the map never outgrows the side, the side is the map. */
  lemma UncrowdedIsMap(max: nat, descending: bool, cs: seq<Change>)
    requires NeverCrowded(max, cs)
    ensures var lv, m := SideRun(max, descending, cs), MapRun(cs);
            IsBest(max, descending, lv, m) && Prices(lv) == m.Keys
  {
    UncrowdedNeverUncovers(max, descending, cs);
    BestIffNeverUncovers(max, descending, cs);
    RoomMeansAll(max, descending, SideRun(max, descending, cs), MapRun(cs));
  }

  lemma {:induction false} UncrowdedNeverUncovers(max: nat, descending: bool, cs: seq<Change>)
    requires NeverCrowded(max, cs)
    ensures NeverUncovers(max, descending, cs)
  {
    if cs != [] {
      UncrowdedNeverUncovers(max, descending, cs[..|cs| - 1]);
    }
  }

  ghost predicate NoRemovals(cs: seq<Change>) {
    forall c | c in cs :: c.size > 0
  }

  /** A run without removals keeps exactly the best levels, however many were crowded out. */
  lemma {:induction false} WithoutRemovalsBest(max: nat, descending: bool, cs: seq<Change>)
    requires NoRemovals(cs)
    ensures NeverUncovers(max, descending, cs)
    ensures IsBest(max, descending, SideRun(max, descending, cs), MapRun(cs))
  {
    if cs != [] {
      WithoutRemovalsBest(max, descending, cs[..|cs| - 1]);
    }
    BestIffNeverUncovers(max, descending, cs);
  }

  // ---- rebuilding from a list of levels -------------------------------------------------

  lemma TailMembers(descending: bool, lv: seq<Level>)
    requires Sorted(descending, lv) && lv != []
    ensures Sorted(descending, lv[1..])
    ensures forall x :: x in lv[1..] <==> x in lv && x != lv[0]
  {
    assert lv == [lv[0]] + lv[1..];
    assert forall x | x in lv[1..] :: Better(descending, lv[0].price, x.price);
  }

  lemma SameHead(descending: bool, a: seq<Level>, b: seq<Level>)
    requires Sorted(descending, a) && Sorted(descending, b) && a != [] && b != []
    requires a[0] in b && b[0] in a
    ensures a[0] == b[0]
  {
    assert forall x | x in a :: x == a[0] || Better(descending, a[0].price, x.price);
    assert forall x | x in b :: x == b[0] || Better(descending, b[0].price, x.price);
  }

  lemma {:induction false} SortedUnique(descending: bool, a: seq<Level>, b: seq<Level>)
    requires Sorted(descending, a) && Sorted(descending, b)
    requires forall x :: x in a <==> x in b
    ensures a == b
  {
    if b != [] {
      assert b[0] in b;
    }
    if a != [] {
      assert a[0] in a;
      SameHead(descending, a, b);
      TailMembers(descending, a);
      TailMembers(descending, b);
      SortedUnique(descending, a[1..], b[1..]);
      assert a == [a[0]] + a[1..] && b == [b[0]] + b[1..];
    }
  }

  /** The levels listed, each at least once, in any order. */
  ghost predicate ListsSide(cs: seq<Change>, lv: seq<Level>) {
    forall p, n :: Change(p, n) in cs <==> Level(p, n) in lv
  }

  lemma {:induction false} MapOfList(cs: seq<Change>)
    requires NoRemovals(cs)
    ensures forall c | c in cs :: c.price in MapRun(cs)
    ensures forall p | p in MapRun(cs) :: Change(p, MapRun(cs)[p]) in cs
  {
    if cs != [] {
      var prefix, last := cs[..|cs| - 1], cs[|cs| - 1];
      assert cs == prefix + [last];
      MapOfList(prefix);
    }
  }

  lemma ListedMap(descending: bool, lv: seq<Level>, cs: seq<Change>)
    requires Sorted(descending, lv) && Positive(lv) && ListsSide(cs, lv)
    ensures NoRemovals(cs)
    ensures MapRun(cs).Keys == Prices(lv) && Within(lv, MapRun(cs))
  {
    forall c | c in cs ensures c.size > 0 {
      assert Change(c.price, c.size) in cs;
    }
    MapOfList(cs);
    SamePrice(descending, lv);
    var m := MapRun(cs);
    forall x | x in lv ensures x.price in m && m[x.price] == x.size {
      assert Change(x.price, x.size) in cs;
      assert Change(x.price, m[x.price]) in cs;
    }
    forall p | p in m ensures p in Prices(lv) {
      assert Level(p, m[p]) in lv;
    }
  }

  /** There is only one list of the best levels of a map. */
  lemma BestUnique(max: nat, descending: bool, a: seq<Level>, b: seq<Level>, m: map<real, nat>)
    requires IsBest(max, descending, a, m) && IsBest(max, descending, b, m)
    ensures a == b
  {
    PricesSize(descending, a);
    PricesSize(descending, b);
    assert Prices(a) <= Prices(b) by {
      BestSubset(max, descending, a, b, m);
    }
    SubsetSize(Prices(a), Prices(b));
    SameMembers(a, b, m);
    SameMembers(b, a, m);
    SortedUnique(descending, a, b);
  }

  lemma BestSubset(max: nat, descending: bool, a: seq<Level>, b: seq<Level>, m: map<real, nat>)
    requires IsBest(max, descending, a, m) && IsBest(max, descending, b, m)
    ensures Prices(a) <= Prices(b)
  {
    PricesSize(descending, a);
    PricesSize(descending, b);
    if p :| p in Prices(a) && p !in Prices(b) {
      var x :| x in a && x.price == p;
      forall q | q in Prices(b) ensures q in Prices(a) {
        var y :| y in b && y.price == q;
      }
      SubsetSize(Prices(b), Prices(a));
    }
  }

  lemma SameMembers(a: seq<Level>, b: seq<Level>, m: map<real, nat>)
    requires Within(a, m) && Within(b, m) && Prices(a) <= Prices(b)
    ensures forall x | x in a :: x in b
  {
    forall x | x in a ensures x in b {
      assert x.price in Prices(b);
      var y :| y in b && y.price == x.price;
    }
  }

  /** Clearing a side and applying its levels in any order rebuilds it. */
  lemma RebuildSide(max: nat, descending: bool, lv: seq<Level>, cs: seq<Change>)
    requires |lv| <= max && Sorted(descending, lv) && Positive(lv) && ListsSide(cs, lv)
    ensures SideRun(max, descending, cs) == lv
  {
    ListedMap(descending, lv, cs);
    WithoutRemovalsBest(max, descending, cs);
    PricesSize(descending, lv);
    BestUnique(max, descending, SideRun(max, descending, cs), lv, MapRun(cs));
  }

  predicate Priced(m: map<real, nat>, p: real, n: nat) {
    p in m && m[p] == n
  }

  lemma {:induction false} MapPositive(cs: seq<Change>)
    ensures forall p | p in MapRun(cs) :: MapRun(cs)[p] > 0
  {
    if cs != [] {
      MapPositive(cs[..|cs| - 1]);
    }
  }

  /** A list of all live prices, in any order, rebuilds the map and so its best levels. */
  lemma RebuildFromMap(max: nat, descending: bool, cs: seq<Change>, list: seq<Change>)
    requires forall p, n :: Change(p, n) in list <==> Priced(MapRun(cs), p, n)
    ensures MapRun(list) == MapRun(cs)
    ensures IsBest(max, descending, SideRun(max, descending, list), MapRun(cs))
  {
    var m := MapRun(cs);
    MapPositive(cs);
    forall c | c in list ensures c.size > 0 {
      assert Priced(m, c.price, c.size);
    }
    MapOfList(list);
    forall p | p in m ensures p in MapRun(list) {
      assert Priced(m, p, m[p]);
      assert Change(p, m[p]) in list;
    }
    forall p | p in MapRun(list) ensures Priced(m, p, MapRun(list)[p]) {
    }
    assert MapRun(list) == m;
    WithoutRemovalsBest(max, descending, list);
  }

  lemma SamePrice(descending: bool, lv: seq<Level>)
    requires Sorted(descending, lv)
    ensures forall x, y | x in lv && y in lv && x.price == y.price :: x == y
  {
    assert forall i, j | 0 <= i < j < |lv| :: lv[i].price != lv[j].price by {
      forall i, j | 0 <= i < j < |lv| ensures lv[i].price != lv[j].price {
        assert Better(descending, lv[i].price, lv[j].price);
      }
    }
    forall x, y | x in lv && y in lv && x.price == y.price ensures x == y {
      var i :| 0 <= i < |lv| && lv[i] == x;
      var j :| 0 <= j < |lv| && lv[j] == y;
    }
  }
}
