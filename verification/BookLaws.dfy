/** What the book shows: which way its sides run, and which prices are the best. */
module BookLaws {
  import opened BookSpec
  import opened BookRuns
  import opened BuilderSpec
  import opened BuilderTheorems

  // ---- which way the sides run -------------------------------------------------------------

  /** Highest bid first, lowest ask first. */
  ghost predicate InOrder(b: Book) {
    && (forall i, j | 0 <= i < j < |b.bids| :: b.bids[i].price > b.bids[j].price)
    && (forall i, j | 0 <= i < j < |b.asks| :: b.asks[i].price < b.asks[j].price)
  }

  lemma ReplayInOrder(max: nat, us: seq<Update>)
    ensures InOrder(Replay(max, EMPTY, us))
  {
    ReplayWellFormed(max, us);
  }

  lemma CommittedBook(max: nat, levels: seq<Update>, more: seq<Update>)
    ensures Replay(max, Replay(max, EMPTY, levels), more) == Replay(max, EMPTY, levels + more)
  {
    ReplayAppend(max, EMPTY, levels, more);
  }

  lemma AppliedBook(max: nat, us: seq<Update>, u: Update)
    ensures Apply(max, Replay(max, EMPTY, us), u) == Replay(max, EMPTY, us + [u])
  {
    assert (us + [u])[..|us + [u]| - 1] == us;
  }

  lemma StepBook(max: nat, capacity: nat, b: Builder, e: Event, us: seq<Update>) returns (vs: seq<Update>)
    requires Sized(max, capacity, b) && b.book == Replay(max, EMPTY, us)
    ensures Step(max, capacity, b, e).book == Replay(max, EMPTY, vs)
  {
    vs := us;
    match e
    case DeltaIn(d) =>
      if b.live && d.seqNo == b.expected {
        vs := us + [d.update];
        AppliedBook(max, us, d.update);
      }
    case SnapshotIn(asOf, levels) =>
      if !(b.live && asOf < b.expected) && CheckBuffer(b.buf, asOf).Ready? {
        vs := levels + Pending(b.buf, asOf);
        CommittedBook(max, levels, Pending(b.buf, asOf));
      }
  }

  /** Every book a builder ever has is the replay of some updates. */
  lemma {:induction false} ReachedBook(max: nat, capacity: nat, evs: seq<Event>) returns (us: seq<Update>)
    ensures Run(max, capacity, evs).book == Replay(max, EMPTY, us)
  {
    if evs == [] {
      us := [];
    } else {
      var before := ReachedBook(max, capacity, evs[..|evs| - 1]);
      us := StepBook(max, capacity, Run(max, capacity, evs[..|evs| - 1]), evs[|evs| - 1], before);
    }
  }

  /** On any input, truthful or not: bids strictly descend and asks strictly ascend. */
  lemma BookStaysInOrder(max: nat, capacity: nat, evs: seq<Event>)
    ensures InOrder(Run(max, capacity, evs).book)
  {
    var us := ReachedBook(max, capacity, evs);
    ReplayInOrder(max, us);
  }

  /** The size last set at the price, 0 if none. */
  function LastSize(us: seq<Update>, side: Side, price: real): nat {
    if us == [] then 0
    else
      var u := us[|us| - 1];
      if u.side == side && u.price == price then u.size else LastSize(us[..|us| - 1], side, price)
  }

  /** A side's map holds exactly the prices whose last size is not 0, with that size. */
  lemma {:induction false} MapIsLastSize(us: seq<Update>, side: Side, price: real)
    ensures price in SideMap(us, side) <==> LastSize(us, side, price) > 0
    ensures price in SideMap(us, side) ==> SideMap(us, side)[price] == LastSize(us, side, price)
  {
    if us != [] {
      var prefix, u := us[..|us| - 1], us[|us| - 1];
      MapIsLastSize(prefix, side, price);
      if u.side == side {
        MapRunAppend(SideChanges(prefix, side), Change(u.price, u.size));
      }
    }
  }

  /** A live level: the size last set at the price is not 0. */
  predicate IsLive(us: seq<Update>, side: Side, price: real) {
    LastSize(us, side, price) > 0
  }

  /**
   The best bid: highest of all live bids, with its size; and whatever live bid is not kept is
   below every kept one.
   */
  lemma BestBid(max: nat, us: seq<Update>, price: real)
    requires NeverUncovers(max, true, SideChanges(us, Bid)) && IsLive(us, Bid, price)
    ensures var bids := Replay(max, EMPTY, us).bids;
            && (max > 0 ==> bids != [] && price <= bids[0].price)
            && (forall i | 0 <= i < |bids| :: bids[i].size == LastSize(us, Bid, bids[i].price) > 0)
            && (Level(price, LastSize(us, Bid, price)) in bids
                || (|bids| == max && forall i | 0 <= i < |bids| :: price < bids[i].price))
  {
    ReplayIsBest(max, us);
    MapIsLastSize(us, Bid, price);
    BestOfSide(max, true, us, Bid, Replay(max, EMPTY, us).bids, price);
  }

  /** The best ask: lowest of all live asks; a live ask not kept is above every kept one. */
  lemma BestAsk(max: nat, us: seq<Update>, price: real)
    requires NeverUncovers(max, false, SideChanges(us, Ask)) && IsLive(us, Ask, price)
    ensures var asks := Replay(max, EMPTY, us).asks;
            && (max > 0 ==> asks != [] && asks[0].price <= price)
            && (forall i | 0 <= i < |asks| :: asks[i].size == LastSize(us, Ask, asks[i].price) > 0)
            && (Level(price, LastSize(us, Ask, price)) in asks
                || (|asks| == max && forall i | 0 <= i < |asks| :: asks[i].price < price))
  {
    ReplayIsBest(max, us);
    MapIsLastSize(us, Ask, price);
    BestOfSide(max, false, us, Ask, Replay(max, EMPTY, us).asks, price);
  }

  lemma BestOfSide(max: nat, descending: bool, us: seq<Update>, side: Side, lv: seq<Level>, price: real)
    requires IsBest(max, descending, lv, SideMap(us, side)) && price in SideMap(us, side)
    requires SideMap(us, side)[price] == LastSize(us, side, price)
    ensures max > 0 ==> lv != [] && (price == lv[0].price || Better(descending, lv[0].price, price))
    ensures forall i | 0 <= i < |lv| :: lv[i].size == LastSize(us, side, lv[i].price) > 0
    ensures Level(price, LastSize(us, side, price)) in lv
            || (|lv| == max && forall i | 0 <= i < |lv| :: Better(descending, lv[i].price, price))
  {
    var m := SideMap(us, side);
    forall i | 0 <= i < |lv| ensures lv[i].size == LastSize(us, side, lv[i].price) > 0 {
      assert lv[i] in lv;
      MapIsLastSize(us, side, lv[i].price);
    }
    PricesSize(descending, lv);
    if price in Prices(lv) {
      var x :| x in lv && x.price == price;
      var i :| 0 <= i < |lv| && lv[i] == x;
      assert i == 0 || Better(descending, lv[0].price, lv[i].price);
    } else {
      CrowdedOut(max, descending, lv, m, price);
      assert forall i | 0 <= i < |lv| :: lv[i] in lv;
    }
  }
}
