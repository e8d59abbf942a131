/** The price band over a symbol's history: where the reference lies and how it recovers. */
module BandTheorems {
  import opened Wire
  import opened ValidatorSpec
  import opened SymbolTheorems

  /** The prices of the valid trades, in order: all the band ever sees. */
  function TradePrices(rs: seq<Record>): seq<real> {
    if rs == [] then []
    else
      var before, r := TradePrices(rs[..|rs| - 1]), rs[|rs| - 1];
      if r.TradeRecord? && ValidTrade(r.trade) then before + [r.trade.price] else before
  }

  /** The band after a list of prices. */
  function BandRun(b: Band, ps: seq<real>): Band {
    if ps == [] then b else Banded(BandRun(b, ps[..|ps| - 1]), ps[|ps| - 1])
  }

  lemma {:induction false} BandRunCompose(b: Band, ps: seq<real>, qs: seq<real>)
    ensures BandRun(b, ps + qs) == BandRun(BandRun(b, ps), qs)
  {
    if qs == [] {
      assert ps + qs == ps;
    } else {
      assert (ps + qs)[..|ps + qs| - 1] == ps + qs[..|qs| - 1];
      BandRunCompose(b, ps, qs[..|qs| - 1]);
    }
  }

  lemma BandRunAppend(b: Band, ps: seq<real>, p: real)
    ensures BandRun(b, ps + [p]) == Banded(BandRun(b, ps), p)
  {
    assert (ps + [p])[..|ps + [p]| - 1] == ps;
  }

  /** Quotes, bars and invalid trades leave no trace in the band. */
  lemma {:induction false} BandSeesTradesOnly(rs: seq<Record>)
    ensures Fold(rs).band == BandRun(NO_BAND, TradePrices(rs))
  {
    if rs != [] {
      var prefix, r := rs[..|rs| - 1], rs[|rs| - 1];
      BandSeesTradesOnly(prefix);
      assert Fold(rs) == After(Fold(prefix), r);
      if r.TradeRecord? && ValidTrade(r.trade) {
        BandRunAppend(NO_BAND, TradePrices(prefix), r.trade.price);
      } else {
        assert TradePrices(rs) == TradePrices(prefix);
      }
    }
  }

  ghost predicate AllWithin(ps: seq<real>, lo: real, hi: real) {
    forall i | 0 <= i < |ps| :: lo <= ps[i] <= hi
  }

  /** The reference never leaves the range of the prices seen, and a run never completes. */
  lemma {:induction false} ReferenceWithinPrices(ps: seq<real>, lo: real, hi: real)
    requires AllWithin(ps, lo, hi)
    ensures var b := BandRun(NO_BAND, ps);
            && b.run < BAND_REANCHOR_RUN
            && (b.init <==> ps != [])
            && (ps != [] ==> lo <= b.ref <= hi)
  {
    if ps != [] {
      ReferenceWithinPrices(ps[..|ps| - 1], lo, hi);
    }
  }

  /** A symbol's reference lies within the range of its valid trade prices so far. */
  lemma ReferenceWithinTrades(rs: seq<Record>, lo: real, hi: real)
    requires TradePrices(rs) != [] && AllWithin(TradePrices(rs), lo, hi)
    ensures Fold(rs).band.init && lo <= Fold(rs).band.ref <= hi
  {
    BandSeesTradesOnly(rs);
    ReferenceWithinPrices(TradePrices(rs), lo, hi);
  }

  // ---- recovery after a sustained move ---------------------------------------------------

  ghost predicate Flagged(b: Band, ps: seq<real>, i: nat)
    requires i < |ps|
  {
    PriceBandBreach in BandFlags(BandRun(b, ps[..i]), ps[i])
  }

  /** The prints still needed to complete a run and move the reference. */
  function Outstanding(b: Band): nat {
    if b.run < BAND_REANCHOR_RUN then BAND_REANCHOR_RUN - b.run else 0
  }

  ghost predicate OutAtFirst(b: Band, ps: seq<real>) {
    forall i | 0 <= i < |ps| && i < Outstanding(b) :: OutOfBand(b.ref, ps[i])
  }

  lemma {:induction false} BreachRunGrows(b: Band, ps: seq<real>)
    requires b.init && b.run < BAND_REANCHOR_RUN && OutAtFirst(b, ps) && |ps| <= Outstanding(b)
    ensures BandRun(b, ps) ==
            if |ps| < Outstanding(b) then b.(run := b.run + |ps|)
            else Band(true, ps[|ps| - 1], 0)
  {
    if ps != [] {
      BreachRunGrows(b, ps[..|ps| - 1]);
    }
  }

  lemma InBandTogether(ref: real, price: real, lo: real, hi: real)
    requires 0.0 < lo <= ref <= hi && lo <= price <= hi <= 1.05 * lo
    ensures !OutOfBand(ref, price)
  {
    assert Abs(price - ref) <= hi - lo <= 0.05 * lo <= 0.05 * ref;
  }

  lemma {:induction false} SettledStays(b: Band, ps: seq<real>, lo: real, hi: real)
    requires b.init && b.run < BAND_REANCHOR_RUN && OutAtFirst(b, ps)
    requires 0.0 < lo && hi <= 1.05 * lo && AllWithin(ps, lo, hi) && |ps| >= Outstanding(b)
    ensures var c := BandRun(b, ps); c.init && c.run == 0 && lo <= c.ref <= hi
  {
    if |ps| == Outstanding(b) {
      BreachRunGrows(b, ps);
    } else {
      var prefix, p := ps[..|ps| - 1], ps[|ps| - 1];
      SettledStays(b, prefix, lo, hi);
      InBandTogether(BandRun(b, prefix).ref, p, lo, hi);
    }
  }

  /**
   A sustained move: if every later price lies in [lo, hi] with hi <= 1.05 lo, and the next
   prints are out of band, then exactly the prints still outstanding are flagged, and none
   after them, ever.
   */
  lemma BandRecovers(b: Band, ps: seq<real>, lo: real, hi: real, i: nat)
    requires b.init && b.run < BAND_REANCHOR_RUN && OutAtFirst(b, ps)
    requires 0.0 < lo && hi <= 1.05 * lo && AllWithin(ps, lo, hi)
    requires i < |ps|
    ensures Flagged(b, ps, i) <==> i < Outstanding(b)
  {
    var prefix := ps[..i];
    if i < Outstanding(b) {
      BreachRunGrows(b, prefix);
    } else {
      SettledStays(b, prefix, lo, hi);
      InBandTogether(BandRun(b, prefix).ref, ps[i], lo, hi);
    }
  }

  lemma {:induction false} TradePricesCompose(rs: seq<Record>, later: seq<Record>)
    ensures TradePrices(rs + later) == TradePrices(rs) + TradePrices(later)
  {
    if later == [] {
      assert rs + later == rs;
    } else {
      assert (rs + later)[..|rs + later| - 1] == rs + later[..|later| - 1];
      TradePricesCompose(rs, later[..|later| - 1]);
    }
  }

  lemma PricesOfPrefix(rs: seq<Record>, j: nat)
    requires j < |rs| && rs[j].TradeRecord? && ValidTrade(rs[j].trade)
    ensures var i, ps := |TradePrices(rs[..j])|, TradePrices(rs);
            i < |ps| && ps[..i] == TradePrices(rs[..j]) && ps[i] == rs[j].trade.price
  {
    assert rs == rs[..j + 1] + rs[j + 1..];
    TradePricesCompose(rs[..j + 1], rs[j + 1..]);
    assert rs[..j + 1][..j] == rs[..j];
  }

  /** Only the band raises the band flag on a trade. */
  lemma BandPart(s: SymbolState, t: Trade)
    requires ValidTrade(t)
    ensures PriceBandBreach in Verdict(s, TradeRecord(t)).flags
            <==> PriceBandBreach in BandFlags(s.band, t.price)
  {
    FlagGroups(s, TradeRecord(t), PriceBandBreach);
  }

  /**
   The same on records: after a history with a reference, records of any kind follow whose
   valid trades make a sustained move. A valid trade is flagged exactly while fewer than
   the outstanding number of valid trades came before it.
   */
  lemma SustainedMoveRecovers(rs: seq<Record>, later: seq<Record>, lo: real, hi: real, j: nat)
    requires TradePrices(rs) != []
    requires OutAtFirst(Fold(rs).band, TradePrices(later))
    requires 0.0 < lo && hi <= 1.05 * lo && AllWithin(TradePrices(later), lo, hi)
    requires j < |later| && later[j].TradeRecord? && ValidTrade(later[j].trade)
    ensures PriceBandBreach in Verdict(Fold(rs + later[..j]), later[j]).flags
            <==> |TradePrices(later[..j])| < Outstanding(Fold(rs).band)
  {
    var b, ps, i := Fold(rs).band, TradePrices(later), |TradePrices(later[..j])|;
    BandSeesTradesOnly(rs);
    HasReference(rs);
    PricesOfPrefix(later, j);
    BandRecovers(b, ps, lo, hi, i);
    BandSeesTradesOnly(rs + later[..j]);
    TradePricesCompose(rs, later[..j]);
    BandRunCompose(NO_BAND, TradePrices(rs), TradePrices(later[..j]));
    BandPart(Fold(rs + later[..j]), later[j].trade);
  }

  /** A symbol has a reference, with no completed run, as soon as it has a valid trade. */
  lemma {:induction false} HasReference(rs: seq<Record>)
    ensures Fold(rs).band.run < BAND_REANCHOR_RUN
    ensures Fold(rs).band.init <==> TradePrices(rs) != []
  {
    if rs != [] {
      HasReference(rs[..|rs| - 1]);
      assert Fold(rs) == After(Fold(rs[..|rs| - 1]), rs[|rs| - 1]);
    }
  }

  // ---- quotes ------------------------------------------------------------------------------

  function WithoutQuotes(rs: seq<Record>): seq<Record> {
    if rs == [] then []
    else if rs[|rs| - 1].QuoteRecord? then WithoutQuotes(rs[..|rs| - 1])
    else WithoutQuotes(rs[..|rs| - 1]) + [rs[|rs| - 1]]
  }

  lemma WithoutQuotesAppend(rs: seq<Record>, r: Record)
    ensures WithoutQuotes(rs + [r])
            == if r.QuoteRecord? then WithoutQuotes(rs) else WithoutQuotes(rs) + [r]
  {
    assert (rs + [r])[..|rs + [r]| - 1] == rs;
  }

  lemma TradePricesAppend(rs: seq<Record>, r: Record)
    ensures TradePrices(rs + [r])
            == if r.TradeRecord? && ValidTrade(r.trade) then TradePrices(rs) + [r.trade.price]
               else TradePrices(rs)
  {
    assert (rs + [r])[..|rs + [r]| - 1] == rs;
  }

  lemma {:induction false} QuotesHaveNoPrices(rs: seq<Record>)
    ensures TradePrices(WithoutQuotes(rs)) == TradePrices(rs)
  {
    if rs != [] {
      var prefix, r := rs[..|rs| - 1], rs[|rs| - 1];
      QuotesHaveNoPrices(prefix);
      WithoutQuotesAppend(prefix, r);
      TradePricesAppend(prefix, r);
      TradePricesAppend(WithoutQuotes(prefix), r);
      assert rs == prefix + [r];
    }
  }

  /** Deleting every quote leaves the band as it was. */
  lemma QuotesDoNotMoveBand(rs: seq<Record>)
    ensures Fold(WithoutQuotes(rs)).band == Fold(rs).band
  {
    QuotesHaveNoPrices(rs);
    BandSeesTradesOnly(rs);
    BandSeesTradesOnly(WithoutQuotes(rs));
  }
}
