/** One side of the order book on values, and the plain price-to-size map it stands for. */
module BookSpec {
  import opened Sets

  datatype Level = Level(price: real, size: nat)

  /** Does price p rank before price q? Bids rank downwards, asks upwards. */
  predicate Better(descending: bool, p: real, q: real) {
    if descending then p > q else p < q
  }

  /** The first level at this price, or the level count. */
  function IndexOf(lv: seq<Level>, price: real): (i: nat)
    ensures i <= |lv|
    ensures i < |lv| ==> lv[i].price == price
  {
    if lv == [] || lv[0].price == price then 0 else 1 + IndexOf(lv[1..], price)
  }

  /** How many leading levels rank before the price. */
  function Position(descending: bool, lv: seq<Level>, price: real): (i: nat)
    ensures i <= |lv|
    ensures i < |lv| ==> !Better(descending, lv[i].price, price)
  {
    if lv == [] || !Better(descending, lv[0].price, price) then 0
    else 1 + Position(descending, lv[1..], price)
  }

  lemma {:induction false} IndexOfFirst(lv: seq<Level>, price: real)
    ensures forall j | 0 <= j < IndexOf(lv, price) :: lv[j].price != price
  {
    if lv != [] && lv[0].price != price {
      IndexOfFirst(lv[1..], price);
      assert forall j | 0 < j < |lv| :: lv[j] == lv[1..][j - 1];
    }
  }

  lemma {:induction false} PositionFirst(descending: bool, lv: seq<Level>, price: real)
    ensures forall j | 0 <= j < Position(descending, lv, price) ::
              Better(descending, lv[j].price, price)
  {
    if lv != [] && Better(descending, lv[0].price, price) {
      PositionFirst(descending, lv[1..], price);
      assert forall j | 0 < j < |lv| :: lv[j] == lv[1..][j - 1];
    }
  }

  function Without(lv: seq<Level>, i: nat): seq<Level>
    requires i < |lv|
  {
    lv[..i] + lv[i + 1..]
  }

  function Inserted(lv: seq<Level>, i: nat, l: Level): seq<Level>
    requires i <= |lv|
  {
    lv[..i] + [l] + lv[i..]
  }

  /** Set the size at a price; size 0 removes the level; only `max` levels are kept. */
  function ApplySide(max: nat, descending: bool, lv: seq<Level>, price: real, size: nat)
      : (r: seq<Level>)
    requires |lv| <= max
    ensures |r| <= max
  {
    var i := IndexOf(lv, price);
    var pos := Position(descending, lv, price);
    if i < |lv| then
      if size == 0 then Without(lv, i) else lv[i := Level(price, size)]
    else if size == 0 then lv
    else if |lv| < max then Inserted(lv, pos, Level(price, size))
    else if pos < max then Inserted(lv, pos, Level(price, size))[..max]
    else lv
  }

  // ---- the map a side stands for ------------------------------------------------

  function ApplyMap(m: map<real, nat>, price: real, size: nat): map<real, nat> {
    if size == 0 then m - {price} else m[price := size]
  }

  ghost predicate Sorted(descending: bool, lv: seq<Level>) {
    forall i, j | 0 <= i < j < |lv| :: Better(descending, lv[i].price, lv[j].price)
  }

  ghost predicate Positive(lv: seq<Level>) {
    forall l | l in lv :: l.size > 0
  }

  ghost function Prices(lv: seq<Level>): set<real> {
    set l | l in lv :: l.price
  }

  /** Every level kept is a level of the map, with its size. */
  ghost predicate Within(lv: seq<Level>, m: map<real, nat>) {
    forall l | l in lv :: l.price in m && m[l.price] == l.size
  }

  ghost predicate Sound(descending: bool, lv: seq<Level>, m: map<real, nat>) {
    Sorted(descending, lv) && Positive(lv) && Within(lv, m)
  }

  /** From the insertion point on, every other level ranks after the price. */
  lemma PositionSplits(descending: bool, lv: seq<Level>, price: real)
    requires Sorted(descending, lv) && IndexOf(lv, price) == |lv|
    ensures forall j | Position(descending, lv, price) <= j < |lv| ::
              Better(descending, price, lv[j].price)
  {
    var pos := Position(descending, lv, price);
    IndexOfFirst(lv, price);
    forall j | pos <= j < |lv| ensures Better(descending, price, lv[j].price) {
      assert lv[pos].price != price;
      assert j == pos || Better(descending, lv[pos].price, lv[j].price);
    }
  }

  lemma InsertedSorted(descending: bool, lv: seq<Level>, l: Level)
    requires Sorted(descending, lv) && IndexOf(lv, l.price) == |lv|
    ensures Sorted(descending, Inserted(lv, Position(descending, lv, l.price), l))
  {
    PositionSplits(descending, lv, l.price);
    PositionFirst(descending, lv, l.price);
  }

  lemma InsertedMembers(lv: seq<Level>, i: nat, l: Level)
    requires i <= |lv|
    ensures forall x :: x in Inserted(lv, i, l) <==> x in lv || x == l
  {
    assert lv == lv[..i] + lv[i..];
  }

  lemma WithoutMembers(descending: bool, lv: seq<Level>, i: nat)
    requires Sorted(descending, lv) && i < |lv|
    ensures Sorted(descending, Without(lv, i))
    ensures forall x :: x in Without(lv, i) <==> x in lv && x.price != lv[i].price
  {
    assert lv == lv[..i] + [lv[i]] + lv[i + 1..];
    assert forall x | x in lv[..i] :: x.price != lv[i].price;
    assert forall x | x in lv[i + 1..] :: x.price != lv[i].price;
  }

  lemma UpdatedMembers(descending: bool, lv: seq<Level>, i: nat, l: Level)
    requires Sorted(descending, lv) && i < |lv| && l.price == lv[i].price
    ensures Sorted(descending, lv[i := l])
    ensures forall x :: x in lv[i := l] <==> (x in lv && x.price != l.price) || x == l
  {
    WithoutMembers(descending, lv, i);
    assert lv[i := l] == lv[..i] + [l] + lv[i + 1..];
  }

  /** What an update leaves behind, level by level, when nothing is crowded out. */
  lemma ApplyMembers(max: nat, descending: bool, lv: seq<Level>, price: real, size: nat)
    requires |lv| <= max && Sorted(descending, lv)
    requires price in Prices(lv) || size == 0 || |lv| < max
    ensures var r := ApplySide(max, descending, lv, price, size);
            && Sorted(descending, r)
            && forall x :: x in r <==> (x in lv && x.price != price)
                                       || (size > 0 && x == Level(price, size))
  {
    var i := IndexOf(lv, price);
    IndexOfFirst(lv, price);
    if i < |lv| {
      WithoutMembers(descending, lv, i);
      UpdatedMembers(descending, lv, i, Level(price, size));
    } else {
      assert price !in Prices(lv);
      InsertedSorted(descending, lv, Level(price, size));
      InsertedMembers(lv, Position(descending, lv, price), Level(price, size));
    }
  }

  /** A full side takes a new level only in place of its worst. */
  lemma EvictMembers(max: nat, descending: bool, lv: seq<Level>, price: real, size: nat)
    requires |lv| == max && Sorted(descending, lv) && size > 0 && price !in Prices(lv)
    ensures var r := ApplySide(max, descending, lv, price, size);
            && Sorted(descending, r)
            && (forall x | x in r :: x in lv || x == Level(price, size))
            && if max > 0 && Better(descending, price, lv[max - 1].price)
               then forall x :: x in r <==> (x in lv[..max - 1] || x == Level(price, size))
               else r == lv
  {
    assert IndexOf(lv, price) == max;
    var l, pos := Level(price, size), Position(descending, lv, price);
    PositionSplits(descending, lv, price);
    PositionFirst(descending, lv, price);
    if pos < max {
      assert Better(descending, price, lv[max - 1].price);
      InsertedSorted(descending, lv, l);
      EvictedMembers(lv, pos, l);
    }
  }

  lemma LastFallsOff(lv: seq<Level>, pos: nat, l: Level)
    requires pos < |lv|
    ensures Inserted(lv, pos, l)[..|lv|] == Inserted(lv[..|lv| - 1], pos, l)
  {
  }

  /** Inserting into a full side pushes the last level out. */
  lemma EvictedMembers(lv: seq<Level>, pos: nat, l: Level)
    requires pos < |lv|
    ensures forall x :: x in Inserted(lv, pos, l)[..|lv|] <==> x in lv[..|lv| - 1] || x == l
  {
    InsertedMembers(lv[..|lv| - 1], pos, l);
    LastFallsOff(lv, pos, l);
  }

  /** Sorted, positive, and never a level the map does not hold: true after every update. */
  lemma SoundStep(max: nat, descending: bool, lv: seq<Level>, m: map<real, nat>,
                  price: real, size: nat)
    requires |lv| <= max && Sound(descending, lv, m)
    ensures Sound(descending, ApplySide(max, descending, lv, price, size), ApplyMap(m, price, size))
  {
    if price in Prices(lv) || size == 0 || |lv| < max {
      ApplyMembers(max, descending, lv, price, size);
    } else {
      EvictMembers(max, descending, lv, price, size);
    }
  }

  /** The kept levels are a best part of the map, in order. */
  ghost predicate Leads(descending: bool, lv: seq<Level>, m: map<real, nat>) {
    && Sorted(descending, lv) && Within(lv, m)
    && forall l, p | l in lv && p in m && p !in Prices(lv) :: Better(descending, l.price, p)
  }

  /** The kept levels are the best `max` of the map, in order. */
  ghost predicate IsBest(max: nat, descending: bool, lv: seq<Level>, m: map<real, nat>) {
    Leads(descending, lv, m) && |lv| == (if |m| < max then |m| else max)
  }

  lemma {:induction false} PricesSize(descending: bool, lv: seq<Level>)
    requires Sorted(descending, lv)
    ensures |Prices(lv)| == |lv|
  {
    if lv != [] {
      var last := |lv| - 1;
      PricesSize(descending, lv[..last]);
      assert Prices(lv) == Prices(lv[..last]) + {lv[last].price};
      assert lv[last].price !in Prices(lv[..last]);
    }
  }

  /** A level that is in the map but not kept was crowded out: the side is full. */
  lemma CrowdedOut(max: nat, descending: bool, lv: seq<Level>, m: map<real, nat>, p: real)
    requires IsBest(max, descending, lv, m) && p in m && p !in Prices(lv)
    ensures |m| > |lv| == max
  {
    PricesSize(descending, lv);
    SubsetSize(Prices(lv), m.Keys);
  }

  /** A side that is not full keeps the whole map. */
  lemma RoomMeansAll(max: nat, descending: bool, lv: seq<Level>, m: map<real, nat>)
    requires IsBest(max, descending, lv, m) && |m| <= max
    ensures Prices(lv) == m.Keys
  {
    PricesSize(descending, lv);
    SubsetSize(Prices(lv), m.Keys);
  }
}
