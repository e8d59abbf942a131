/** The order book as it is built: two fixed arrays of levels, shifted in place. */
module OrderBook {
  import opened BookSpec
  import opened BuilderSpec

  lemma IndexOfUnique(lv: seq<Level>, price: real, i: nat)
    requires i <= |lv| && forall j | 0 <= j < i :: lv[j].price != price
    requires i < |lv| ==> lv[i].price == price
    ensures IndexOf(lv, price) == i
  {
    IndexOfFirst(lv, price);
  }

  lemma PositionUnique(descending: bool, lv: seq<Level>, price: real, i: nat)
    requires i <= |lv| && forall j | 0 <= j < i :: Better(descending, lv[j].price, price)
    requires i < |lv| ==> !Better(descending, lv[i].price, price)
    ensures Position(descending, lv, price) == i
  {
    PositionFirst(descending, lv, price);
  }

  method FindLevel(lv: array<Level>, n: nat, price: real) returns (i: nat)
    requires n <= lv.Length
    ensures i == IndexOf(lv[..n], price)
  {
    i := 0;
    while i < n && lv[i].price != price
      invariant i <= n && forall j | 0 <= j < i :: lv[j].price != price
    {
      i := i + 1;
    }
    IndexOfUnique(lv[..n], price, i);
  }

  method FindPosition(descending: bool, lv: array<Level>, n: nat, price: real) returns (i: nat)
    requires n <= lv.Length
    ensures i == Position(descending, lv[..n], price)
  {
    i := 0;
    while i < n && Better(descending, lv[i].price, price)
      invariant i <= n && forall j | 0 <= j < i :: Better(descending, lv[j].price, price)
    {
      i := i + 1;
    }
    PositionUnique(descending, lv[..n], price, i);
  }

  /** Close the hole at i by moving the tail one down. */
  method ShiftDown(lv: array<Level>, i: nat, n: nat)
    requires i < n <= lv.Length
    modifies lv
    ensures lv[..n - 1] == old(Without(lv[..n], i))
  {
    for j := i + 1 to n
      invariant forall k | 0 <= k < i || j <= k < n :: lv[k] == old(lv[k])
      invariant forall k | i <= k < j - 1 :: lv[k] == old(lv[k + 1])
    {
      lv[j - 1] := lv[j];
    }
    ghost var was := old(lv[..n]);
    assert lv[..i] == was[..i] && lv[i..n - 1] == was[i + 1..];
    assert lv[..n - 1] == lv[..i] + lv[i..n - 1];
  }

  /** Open a hole at i by moving the levels i..n one up. */
  method ShiftUp(lv: array<Level>, i: nat, n: nat)
    requires i <= n < lv.Length
    modifies lv
    ensures lv[..i] == old(lv[..i]) && lv[i + 1..n + 1] == old(lv[i..n])
  {
    for j := n downto i
      invariant forall k | 0 <= k < i || i <= k <= j :: lv[k] == old(lv[k])
      invariant forall k | j < k <= n :: lv[k] == old(lv[k - 1])
    {
      lv[j + 1] := lv[j];
    }
  }

  /** Put a new level at its place; the last level of a full side falls off. */
  method InsertAt(lv: array<Level>, i: nat, n: nat, l: Level)
    requires i <= n < lv.Length
    modifies lv
    ensures lv[..n + 1] == old(Inserted(lv[..n], i, l))
  {
    ShiftUp(lv, i, n);
    lv[i] := l;
    assert lv[..n + 1] == lv[..i] + [lv[i]] + lv[i + 1..n + 1];
    assert old(lv[..n][i..]) == old(lv[i..n]);
  }

  /** The price is in the book: remove the level or change its size. */
  method ChangeLevel(lv: array<Level>, n: nat, i: nat, price: real, size: nat, descending: bool)
      returns (m: nat)
    requires n <= lv.Length && i < n && i == IndexOf(lv[..n], price)
    modifies lv
    ensures m <= lv.Length
    ensures lv[..m] == ApplySide(lv.Length, descending, old(lv[..n]), price, size)
  {
    if size == 0 {
      ShiftDown(lv, i, n);
      m := n - 1;
    } else {
      lv[i] := lv[i].(size := size);
      m := n;
      assert lv[..n] == old(lv[..n])[i := Level(price, size)];
    }
  }

  /** The price is not in the book: insert it, evicting the worst level if the side is full. */
  method AddLevel(lv: array<Level>, n: nat, price: real, size: nat, descending: bool)
      returns (m: nat)
    requires n <= lv.Length && IndexOf(lv[..n], price) == n && size > 0
    modifies lv
    ensures m <= lv.Length
    ensures lv[..m] == ApplySide(lv.Length, descending, old(lv[..n]), price, size)
  {
    ghost var was := lv[..n];
    var pos := FindPosition(descending, lv, n, price);
    if n < lv.Length {
      InsertAt(lv, pos, n, Level(price, size));
      m := n + 1;
    } else if pos < lv.Length {
      assert lv[..n - 1] == was[..n - 1];
      LastFallsOff(was, pos, Level(price, size));
      InsertAt(lv, pos, n - 1, Level(price, size));
      m := n;
    } else {
      m := n;
    }
  }

  /** Apply one update to one side in place; what lies past the level count is never read. */
  method ApplyInPlace(lv: array<Level>, n: nat, price: real, size: nat, descending: bool)
      returns (m: nat)
    requires n <= lv.Length
    modifies lv
    ensures m <= lv.Length
    ensures lv[..m] == ApplySide(lv.Length, descending, old(lv[..n]), price, size)
  {
    var i := FindLevel(lv, n, price);
    if i < n {
      m := ChangeLevel(lv, n, i, price, size, descending);
    } else if size == 0 {
      m := n;
    } else {
      m := AddLevel(lv, n, price, size, descending);
    }
  }

  class LevelBook {
    const max: nat
    const bid: array<Level>
    const ask: array<Level>
    var bids: nat
    var asks: nat

    ghost predicate Valid()
      reads this
    {
      bid != ask && bid.Length == max == ask.Length && bids <= max && asks <= max
    }

    /** The levels in use; array contents past the counts are not part of the book. */
    ghost function View(): (b: Book)
      requires Valid()
      reads this, bid, ask
      ensures Fits(max, b)
    {
      Book(bid[..bids], ask[..asks])
    }

    constructor (max: nat)
      ensures Valid() && this.max == max && View() == EMPTY && fresh(bid) && fresh(ask)
    {
      this.max := max;
      bid := new Level[max](_ => Level(0.0, 0));
      ask := new Level[max](_ => Level(0.0, 0));
      bids, asks := 0, 0;
    }

    method Clear()
      requires Valid()
      modifies this
      ensures Valid() && View() == EMPTY
    {
      bids, asks := 0, 0;
    }

    method ApplyUpdate(u: Update)
      requires Valid()
      modifies this, bid, ask
      ensures Valid() && View() == Apply(max, old(View()), u)
    {
      if u.side == Bid {
        bids := ApplyInPlace(bid, bids, u.price, u.size, true);
      } else {
        asks := ApplyInPlace(ask, asks, u.price, u.size, false);
      }
    }

    /** Book equality compares the levels in use and nothing else. */
    method Equals(other: LevelBook) returns (same: bool)
      requires Valid() && other.Valid()
      ensures same <==> View() == other.View()
    {
      if bids != other.bids || asks != other.asks {
        return false;
      }
      for i := 0 to bids
        invariant forall j | 0 <= j < i :: bid[j] == other.bid[j]
      {
        if bid[i].price != other.bid[i].price || bid[i].size != other.bid[i].size {
          assert View().bids[i] != other.View().bids[i];
          return false;
        }
      }
      for i := 0 to asks
        invariant forall j | 0 <= j < i :: ask[j] == other.ask[j]
      {
        if ask[i].price != other.ask[i].price || ask[i].size != other.ask[i].size {
          assert View().asks[i] != other.View().asks[i];
          return false;
        }
      }
      return true;
    }
  }
}
