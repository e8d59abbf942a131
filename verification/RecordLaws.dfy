/**
 What every flag means. After any mix of records of any symbols, the result of the next
 record is stated in the fields of that record and of its symbol's earlier records.
 */
module RecordLaws {
  import opened Bits
  import opened Wire
  import opened ValidatorSpec
  import opened SymbolTheorems
  import opened BandTheorems
  import opened ValidatorRuns

  /** The result of record r after the records rs, in one run of the validator. */
  function ReportOn(capacity: nat, rs: seq<Record>, r: Record): Result {
    Results(capacity, rs + [r])[|rs|]
  }

  /** The symbol of the next record has, or gets, a place in the table. */
  ghost predicate Placed(capacity: nat, rs: seq<Record>, r: Record) {
    HasPlace(capacity, rs + [r], r.Symbol())
  }

  lemma Report(capacity: nat, rs: seq<Record>, r: Record)
    ensures ReportOn(capacity, rs, r) == Judge(capacity, MapRun(capacity, rs), r)
    ensures ReportOn(capacity, rs, r)
            == if Placed(capacity, rs, r) then Verdict(Fold(Own(rs, r.Symbol())), r)
               else Result(OwnFlags(r), 0)
  {
    ResultsAppend(capacity, rs, r);
    JudgedByOwn(capacity, rs, r);
  }

  // ---- sequencing -------------------------------------------------------------------------

  function TradeTimes(rs: seq<Record>): seq<nat> {
    if rs == [] then []
    else
      var before, r := TradeTimes(rs[..|rs| - 1]), rs[|rs| - 1];
      if r.TradeRecord? then before + [r.trade.ts] else before
  }

  function BarTimes(rs: seq<Record>): seq<nat> {
    if rs == [] then []
    else
      var before, r := BarTimes(rs[..|rs| - 1]), rs[|rs| - 1];
      if r.BarRecord? then before + [r.bar.ts] else before
  }

  function QuoteTimes(rs: seq<Record>): seq<nat> {
    if rs == [] then []
    else
      var before, r := QuoteTimes(rs[..|rs| - 1]), rs[|rs| - 1];
      if r.QuoteRecord? then before + [r.quote.ts] else before
  }

  lemma {:induction false} ClockOfTrades(rs: seq<Record>, t: Trade)
    ensures Clock(rs, TradeRecord(t)) == TradeTimes(rs)
  {
    if rs != [] {
      ClockOfTrades(rs[..|rs| - 1], t);
    }
  }

  lemma {:induction false} ClockOfBars(rs: seq<Record>, b: Bar)
    ensures Clock(rs, BarRecord(b)) == BarTimes(rs)
  {
    if rs != [] {
      ClockOfBars(rs[..|rs| - 1], b);
    }
  }

  lemma {:induction false} ClockOfQuotes(rs: seq<Record>, q: Quote)
    ensures Clock(rs, QuoteRecord(q)) == QuoteTimes(rs)
  {
    if rs != [] {
      ClockOfQuotes(rs[..|rs| - 1], q);
    }
  }

  /** Is the number more than one past the sequence of the last record? */
  predicate Jumps(own: seq<Record>, seqNo: nat) {
    own != [] && seqNo > own[|own| - 1].SeqNo() + 1
  }

  predicate GoesBack(times: seq<nat>, ts: nat) {
    times != [] && ts < times[|times| - 1]
  }

  /** The sequencing part of a result, given the symbol's earlier records and stream times. */
  ghost predicate Sequences(res: Result, placed: bool, own: seq<Record>, seqNo: nat,
                            times: seq<nat>, ts: nat) {
    && (SequenceGap in res.flags <==> placed && Jumps(own, seqNo))
    && res.gap == (if placed && Jumps(own, seqNo) then seqNo - own[|own| - 1].SeqNo() - 1 else 0)
    && (TimestampRegression in res.flags <==> placed && GoesBack(times, ts))
  }

  lemma SequencedAlone(own: seq<Record>, r: Record)
    ensures Sequences(Verdict(Fold(own), r), true, own, r.SeqNo(), Clock(own, r), Ts(r))
  {
    LastSeqIsLast(own);
    LastTsIsLast(own, r);
    GapFlagIffGap(Fold(own), r);
    RegressionFlag(Fold(own), r);
  }

  lemma NotSequenced(own: seq<Record>, r: Record, times: seq<nat>, ts: nat)
    ensures Sequences(Result(OwnFlags(r), 0), false, own, r.SeqNo(), times, ts)
  {
    OwnFlagsGroup(r, SequenceGap);
    OwnFlagsGroup(r, TimestampRegression);
  }

  // ---- trades -----------------------------------------------------------------------------

  function Distance(x: real, y: real): real {
    if x < y then y - x else x - y
  }

  /** More than a twentieth of the reference away from it. */
  predicate FarFrom(ref: real, price: real) {
    20.0 * Distance(price, ref) > ref
  }

  lemma FarIsOutOfBand(ref: real, price: real)
    ensures OutOfBand(ref, price) <==> FarFrom(ref, price)
  {
  }

  /** The symbol's reference price, once it has a valid trade. */
  function ReferenceOf(own: seq<Record>): real {
    Fold(own).band.ref
  }

  /** Every flag a trade can get, and when. */
  ghost predicate TradeExplained(res: Result, placed: bool, own: seq<Record>, t: Trade) {
    && Sequences(res, placed, own, t.seqNo, TradeTimes(own), t.ts)
    && (TradeNonPositivePrice in res.flags <==> t.price <= 0.0)
    && (TradeNonPositiveSize in res.flags <==> t.size == 0)
    && (PriceBandBreach in res.flags
        <==> placed && t.price > 0.0 && t.size > 0
             && TradePrices(own) != [] && FarFrom(ReferenceOf(own), t.price))
    && res.flags <= {TradeNonPositivePrice, TradeNonPositiveSize, SequenceGap,
                     TimestampRegression, PriceBandBreach}
  }

  lemma TradeAlone(own: seq<Record>, t: Trade)
    ensures TradeExplained(Verdict(Fold(own), TradeRecord(t)), true, own, t)
  {
    SequencedAlone(own, TradeRecord(t));
    ClockOfTrades(own, t);
    HasReference(own);
    FarIsOutOfBand(Fold(own).band.ref, t.price);
  }

  lemma TradeUnplaced(own: seq<Record>, t: Trade)
    ensures TradeExplained(Result(OwnFlags(TradeRecord(t)), 0), false, own, t)
  {
    NotSequenced(own, TradeRecord(t), TradeTimes(own), t.ts);
  }

  lemma TradeLaw(capacity: nat, rs: seq<Record>, t: Trade)
    ensures var r := TradeRecord(t);
            TradeExplained(ReportOn(capacity, rs, r), Placed(capacity, rs, r), Own(rs, t.symbol), t)
  {
    Report(capacity, rs, TradeRecord(t));
    TradeAlone(Own(rs, t.symbol), t);
    TradeUnplaced(Own(rs, t.symbol), t);
  }

  // ---- bars -------------------------------------------------------------------------------

  const BAR_CHECKS := {BarLowAboveHigh, BarOpenOutOfRange, BarCloseOutOfRange, BarVwapOutOfRange,
                       BarNonPositivePrice, BarVolumeInconsistent}

  const RECONSTRUCTION := {BarVolumeMismatch, BarTradeCountMismatch, BarVwapMismatch,
                           BarOhlcMismatch}

  /** The flags of the bar's own fields. */
  ghost predicate BarChecked(f: set<Violation>, b: Bar) {
    && (BarLowAboveHigh in f <==> b.low > b.high)
    && (BarOpenOutOfRange in f <==> b.open < b.low || b.high < b.open)
    && (BarCloseOutOfRange in f <==> b.close < b.low || b.high < b.close)
    && (BarVwapOutOfRange in f <==> b.vwap < b.low || b.high < b.vwap)
    && (BarNonPositivePrice in f
        <==> b.open <= 0.0 || b.high <= 0.0 || b.low <= 0.0 || b.close <= 0.0)
    && (BarVolumeInconsistent in f
        <==> (b.tradeCount == 0 && b.volume > 0) || (b.tradeCount > 0 && b.volume == 0))
  }

  lemma BarOwnFlags(b: Bar)
    ensures BarChecked(BarFlags(b), b) && BarFlags(b) <= BAR_CHECKS
  {
  }

  /** Every flag of a bar besides those of reconstruction, and when. */
  ghost predicate BarExplained(res: Result, placed: bool, own: seq<Record>, b: Bar) {
    && Sequences(res, placed, own, b.seqNo, BarTimes(own), b.ts)
    && BarChecked(res.flags, b)
    && res.flags <= BAR_CHECKS + RECONSTRUCTION + {SequenceGap, TimestampRegression}
  }

  lemma BarCheckedAgain(f: set<Violation>, g: set<Violation>, b: Bar)
    requires BarChecked(g, b) && forall v | v in BAR_CHECKS :: v in f <==> v in g
    ensures BarChecked(f, b)
  {
  }

  lemma BarCheck(s: SymbolState, b: Bar, v: Violation)
    requires v in BAR_CHECKS
    ensures v in Verdict(s, BarRecord(b)).flags <==> v in BarFlags(b)
  {
    FlagGroups(s, BarRecord(b), v);
  }

  lemma BarOwnPart(s: SymbolState, b: Bar)
    ensures BarChecked(Verdict(s, BarRecord(b)).flags, b)
  {
    var f := Verdict(s, BarRecord(b)).flags;
    BarOwnFlags(b);
    forall v | v in BAR_CHECKS ensures v in f <==> v in BarFlags(b) {
      BarCheck(s, b, v);
    }
    BarCheckedAgain(f, BarFlags(b), b);
  }

  lemma BarFlagRange(s: SymbolState, b: Bar)
    ensures Verdict(s, BarRecord(b)).flags
            <= BAR_CHECKS + RECONSTRUCTION + {SequenceGap, TimestampRegression}
  {
    forall v | v in Verdict(s, BarRecord(b)).flags
      ensures v in BAR_CHECKS + RECONSTRUCTION + {SequenceGap, TimestampRegression}
    {
      FlagGroups(s, BarRecord(b), v);
      BarOwnFlags(b);
    }
  }

  lemma BarAlone(own: seq<Record>, b: Bar)
    ensures BarExplained(Verdict(Fold(own), BarRecord(b)), true, own, b)
  {
    SequencedAlone(own, BarRecord(b));
    ClockOfBars(own, b);
    BarOwnPart(Fold(own), b);
    BarFlagRange(Fold(own), b);
  }

  lemma BarUnplaced(own: seq<Record>, b: Bar)
    ensures BarExplained(Result(OwnFlags(BarRecord(b)), 0), false, own, b)
  {
    NotSequenced(own, BarRecord(b), BarTimes(own), b.ts);
    BarOwnFlags(b);
  }

  lemma BarLaw(capacity: nat, rs: seq<Record>, b: Bar)
    ensures var r := BarRecord(b);
            BarExplained(ReportOn(capacity, rs, r), Placed(capacity, rs, r), Own(rs, b.symbol), b)
  {
    Report(capacity, rs, BarRecord(b));
    BarAlone(Own(rs, b.symbol), b);
    BarUnplaced(Own(rs, b.symbol), b);
  }

  lemma ReconciledAgain(f: set<Violation>, g: set<Violation>, ts: seq<Trade>, b: Bar,
                        high: real, low: real)
    requires BarReconciled(g, true, ts, b, high, low)
    requires forall v | v in RECONSTRUCTION :: v in f <==> v in g
    ensures BarReconciled(f, true, ts, b, high, low)
  {
  }

  lemma BarReconciledAlone(own: seq<Record>, b: Bar, high: real, low: real)
    requires Window(own) != [] ==> IsHigh(Window(own), high) && IsLow(Window(own), low)
    ensures BarReconciled(Verdict(Fold(own), BarRecord(b)).flags, true, Window(own), b, high, low)
  {
    var f, g := Verdict(Fold(own), BarRecord(b)).flags, ReconcileFlags(Fold(own).acc, b);
    ReconstructionIff(own, b, high, low);
    forall v | v in RECONSTRUCTION ensures v in f <==> v in g {
      FlagGroups(Fold(own), BarRecord(b), v);
    }
    ReconciledAgain(f, g, Window(own), b, high, low);
  }

  lemma BarNotReconciled(own: seq<Record>, b: Bar, high: real, low: real)
    ensures Window(own) != [] ==> Volume(Window(own)) > 0
    ensures BarReconciled(BarFlags(b), false, Window(own), b, high, low)
  {
    BarOwnFlags(b);
    AccumulatorsAreAggregates(own);
    if Window(own) != [] {
      VolumePositive(Window(own));
    }
  }

  /** Reconstruction of a bar, flag by flag, after any mix of records. */
  lemma BarReconstructionLaw(capacity: nat, rs: seq<Record>, b: Bar, high: real, low: real)
    requires var ts := Window(Own(rs, b.symbol)); ts != [] ==> IsHigh(ts, high) && IsLow(ts, low)
    ensures var r := BarRecord(b);
            BarReconciled(ReportOn(capacity, rs, r).flags, Placed(capacity, rs, r),
                          Window(Own(rs, b.symbol)), b, high, low)
  {
    Report(capacity, rs, BarRecord(b));
    BarReconciledAlone(Own(rs, b.symbol), b, high, low);
    BarNotReconciled(Own(rs, b.symbol), b, high, low);
  }

  // ---- quotes -----------------------------------------------------------------------------

  const QUOTE_CHECKS := {QuoteCrossed, QuoteLocked, QuoteNonPositive, QuoteZeroSize}

  ghost predicate QuoteChecked(f: set<Violation>, q: Quote) {
    && (QuoteCrossed in f <==> q.bidPrice > q.askPrice)
    && (QuoteLocked in f <==> q.bidPrice == q.askPrice)
    && (QuoteNonPositive in f <==> q.bidPrice <= 0.0 || q.askPrice <= 0.0)
    && (QuoteZeroSize in f <==> q.bidSize == 0 || q.askSize == 0)
  }

  lemma QuoteOwnFlags(q: Quote)
    ensures QuoteChecked(QuoteFlags(q), q) && QuoteFlags(q) <= QUOTE_CHECKS
  {
  }

  /** Every flag a quote can get, and when. */
  ghost predicate QuoteExplained(res: Result, placed: bool, own: seq<Record>, q: Quote) {
    && Sequences(res, placed, own, q.seqNo, QuoteTimes(own), q.ts)
    && QuoteChecked(res.flags, q)
    && (PriceBandBreach in res.flags
        <==> placed && q.bidPrice > 0.0 && q.askPrice > 0.0 && TradePrices(own) != []
             && FarFrom(ReferenceOf(own), (q.bidPrice + q.askPrice) / 2.0))
    && res.flags <= QUOTE_CHECKS + {SequenceGap, TimestampRegression, PriceBandBreach}
  }

  lemma QuoteOwnPart(s: SymbolState, q: Quote)
    ensures QuoteChecked(Verdict(s, QuoteRecord(q)).flags, q)
    ensures Verdict(s, QuoteRecord(q)).flags
            <= QUOTE_CHECKS + {SequenceGap, TimestampRegression, PriceBandBreach}
  {
    QuoteOwnFlags(q);
  }

  lemma QuoteBandPart(own: seq<Record>, q: Quote)
    ensures PriceBandBreach in Verdict(Fold(own), QuoteRecord(q)).flags
            <==> q.bidPrice > 0.0 && q.askPrice > 0.0 && TradePrices(own) != []
                 && FarFrom(ReferenceOf(own), (q.bidPrice + q.askPrice) / 2.0)
  {
    FlagGroups(Fold(own), QuoteRecord(q), PriceBandBreach);
    HasReference(own);
    assert (q.bidPrice + q.askPrice) * 0.5 == (q.bidPrice + q.askPrice) / 2.0;
    FarIsOutOfBand(Fold(own).band.ref, (q.bidPrice + q.askPrice) / 2.0);
  }

  lemma QuoteAlone(own: seq<Record>, q: Quote)
    ensures QuoteExplained(Verdict(Fold(own), QuoteRecord(q)), true, own, q)
  {
    SequencedAlone(own, QuoteRecord(q));
    ClockOfQuotes(own, q);
    QuoteOwnPart(Fold(own), q);
    QuoteBandPart(own, q);
  }

  lemma QuoteUnplaced(own: seq<Record>, q: Quote)
    ensures QuoteExplained(Result(OwnFlags(QuoteRecord(q)), 0), false, own, q)
  {
    NotSequenced(own, QuoteRecord(q), QuoteTimes(own), q.ts);
    QuoteOwnFlags(q);
  }

  lemma QuoteLaw(capacity: nat, rs: seq<Record>, q: Quote)
    ensures var r := QuoteRecord(q);
            QuoteExplained(ReportOn(capacity, rs, r), Placed(capacity, rs, r), Own(rs, q.symbol), q)
  {
    Report(capacity, rs, QuoteRecord(q));
    QuoteAlone(Own(rs, q.symbol), q);
    QuoteUnplaced(Own(rs, q.symbol), q);
  }

  // ---- the reference price ----------------------------------------------------------------

  /**
   What a valid trade does to the reference. The first one sets it. One within a twentieth of
   it is not flagged, moves it a fifth of the way to its own price and ends a run of
   breaches. One further off is flagged and leaves it alone, but the third in a row sets it.
   */
  lemma TradeMovesReference(own: seq<Record>, t: Trade)
    requires t.price > 0.0 && t.size > 0
    ensures var b, c := Fold(own).band, Fold(own + [TradeRecord(t)]).band;
            var flagged := PriceBandBreach in Verdict(Fold(own), TradeRecord(t)).flags;
            && (TradePrices(own) == [] ==> !flagged && c.ref == t.price && c.run == 0)
            && (TradePrices(own) != [] && !FarFrom(b.ref, t.price) ==>
                  !flagged && 5.0 * c.ref == 4.0 * b.ref + t.price && c.run == 0)
            && (TradePrices(own) != [] && FarFrom(b.ref, t.price) ==>
                  && flagged && b.run <= 2
                  && (b.run < 2 ==> c.ref == b.ref && c.run == b.run + 1)
                  && (b.run == 2 ==> c.ref == t.price && c.run == 0))
  {
    FoldAppend(own, TradeRecord(t));
    HasReference(own);
    NoRunBeforeReference(own);
    BandPart(Fold(own), t);
    FarIsOutOfBand(Fold(own).band.ref, t.price);
  }

  lemma {:induction false} NoRunBeforeReference(own: seq<Record>)
    ensures TradePrices(own) == [] ==> Fold(own).band == NO_BAND
  {
    if own != [] {
      NoRunBeforeReference(own[..|own| - 1]);
      assert Fold(own) == After(Fold(own[..|own| - 1]), own[|own| - 1]);
    }
  }

  /** Nothing but a valid trade moves the reference or the run of breaches. */
  lemma OthersLeaveReference(own: seq<Record>, r: Record)
    requires r.TradeRecord? ==> r.trade.price <= 0.0 || r.trade.size == 0
    ensures Fold(own + [r]).band == Fold(own).band
  {
    FoldAppend(own, r);
  }

  function Power(x: real, n: nat): real {
    if n == 0 then 1.0 else x * Power(x, n - 1)
  }

  /** The sum of 5^i 4^(n - 1 - i) p_i over n prices: later ones weigh more. */
  function Weighted(ps: seq<real>): real {
    if ps == [] then 0.0
    else 4.0 * Weighted(ps[..|ps| - 1]) + Power(5.0, |ps| - 1) * ps[|ps| - 1]
  }

  /** None of the prices is flagged when its turn comes. */
  predicate NoneFlagged(b: Band, ps: seq<real>) {
    ps == []
    || (NoneFlagged(b, ps[..|ps| - 1])
        && PriceBandBreach !in BandFlags(BandRun(b, ps[..|ps| - 1]), ps[|ps| - 1]))
  }

  lemma DriftStep(ref: real, p: real, next: real, a: real, b: real, w: real, start: real)
    requires 5.0 * next == 4.0 * ref + p && b * ref == a * start + w
    ensures 5.0 * b * next == 4.0 * a * start + (4.0 * w + b * p)
  {
    assert 5.0 * b * next == b * (5.0 * next);
    assert b * (4.0 * ref + p) == 4.0 * (b * ref) + b * p;
    assert 4.0 * (a * start + w) == 4.0 * a * start + 4.0 * w;
  }

  /** The prices take the reference from start to ref: 5^n ref == 4^n start + weighted sum. */
  predicate Drifted(start: real, ref: real, ps: seq<real>) {
    Power(5.0, |ps|) * ref == Power(4.0, |ps|) * start + Weighted(ps)
  }

  lemma DriftOn(start: real, ref: real, ps: seq<real>, next: real)
    requires ps != [] && Drifted(start, ref, ps[..|ps| - 1])
    requires 5.0 * next == 4.0 * ref + ps[|ps| - 1]
    ensures Drifted(start, next, ps)
  {
    var n := |ps| - 1;
    DriftStep(ref, ps[n], next, Power(4.0, n), Power(5.0, n), Weighted(ps[..n]), start);
  }

  lemma DriftOneMore(start: real, c: Band, ps: seq<real>)
    requires ps != [] && c.init && PriceBandBreach !in BandFlags(c, ps[|ps| - 1])
    requires Drifted(start, c.ref, ps[..|ps| - 1])
    ensures Banded(c, ps[|ps| - 1]).init && Drifted(start, Banded(c, ps[|ps| - 1]).ref, ps)
  {
    InBandMove(c, ps[|ps| - 1]);
    DriftOn(start, c.ref, ps, Banded(c, ps[|ps| - 1]).ref);
  }

  /** Over prices that are not flagged the reference is their geometrically weighted average. */
  lemma {:induction false} ReferenceDrifts(b: Band, ps: seq<real>)
    requires b.init && NoneFlagged(b, ps)
    ensures BandRun(b, ps).init && Drifted(b.ref, BandRun(b, ps).ref, ps)
  {
    if ps != [] {
      ReferenceDrifts(b, ps[..|ps| - 1]);
      DriftOneMore(b.ref, BandRun(b, ps[..|ps| - 1]), ps);
    }
  }

  lemma InBandMove(b: Band, p: real)
    requires b.init && PriceBandBreach !in BandFlags(b, p)
    ensures Banded(b, p).init && 5.0 * Banded(b, p).ref == 4.0 * b.ref + p
  {
  }

  /** The same on records, whatever quotes, bars and invalid trades come in between. */
  lemma ReferenceDriftsOnRecords(own: seq<Record>, later: seq<Record>)
    requires TradePrices(own) != [] && NoneFlagged(Fold(own).band, TradePrices(later))
    ensures Drifted(ReferenceOf(own), ReferenceOf(own + later), TradePrices(later))
  {
    HasReference(own);
    BandSeesTradesOnly(own);
    BandSeesTradesOnly(own + later);
    TradePricesCompose(own, later);
    BandRunCompose(NO_BAND, TradePrices(own), TradePrices(later));
    ReferenceDrifts(Fold(own).band, TradePrices(later));
  }

  // ---- the bit mask -----------------------------------------------------------------------

  /** The number of each violation's bit. */
  function BitNumber(v: Violation): nat {
    match v
    case BarLowAboveHigh => 0
    case BarOpenOutOfRange => 1
    case BarCloseOutOfRange => 2
    case BarVwapOutOfRange => 3
    case BarNonPositivePrice => 4
    case BarVolumeInconsistent => 5
    case TradeNonPositivePrice => 6
    case TradeNonPositiveSize => 7
    case TimestampRegression => 8
    case SequenceGap => 9
    case BarVolumeMismatch => 10
    case BarTradeCountMismatch => 11
    case BarVwapMismatch => 12
    case BarOhlcMismatch => 13
    case QuoteCrossed => 14
    case QuoteLocked => 15
    case QuoteNonPositive => 16
    case QuoteZeroSize => 17
    case PriceBandBreach => 18
  }

  lemma BitAt(v: Violation)
    ensures BitNumber(v) < |BIT_ORDER| && BIT_ORDER[BitNumber(v)] == v
  {
  }

  lemma NumberOfBit(i: nat)
    requires i < |BIT_ORDER|
    ensures BitNumber(BIT_ORDER[i]) == i
  {
  }

  lemma {:induction false} MaskOfIgnores(f: set<Violation>, v: Violation, order: seq<Violation>)
    requires forall i | 0 <= i < |order| :: order[i] != v
    ensures MaskOf(f + {v}, order) == MaskOf(f, order)
  {
    if order != [] {
      MaskOfIgnores(f, v, order[1..]);
    }
  }

  /** The flag at place i adds 2^i. */
  lemma {:induction false} MaskOfAdds(f: set<Violation>, v: Violation, order: seq<Violation>, i: nat)
    requires v !in f && i < |order| && forall j | 0 <= j < |order| :: order[j] == v <==> j == i
    ensures MaskOf(f + {v}, order) == MaskOf(f, order) + Pow2(i)
  {
    var rest := order[1..];
    assert forall j | 0 <= j < |rest| :: rest[j] == order[j + 1];
    if i == 0 {
      MaskOfIgnores(f, v, rest);
    } else {
      MaskOfAdds(f, v, rest, i - 1);
    }
  }

  lemma {:induction false} EmptyMask(order: seq<Violation>)
    ensures MaskOf({}, order) == 0
  {
    if order != [] {
      EmptyMask(order[1..]);
    }
  }

  /** The mask is 0 without flags, and each flag adds two to the power of its number. */
  lemma MaskAddsBits(f: set<Violation>, v: Violation)
    requires v !in f
    ensures Mask({}) == 0 && Mask(f + {v}) == Mask(f) + Pow2(BitNumber(v))
  {
    var order := BIT_ORDER;
    EmptyMask(order);
    BitAt(v);
    forall j: nat | j < |order| ensures order[j] == v <==> j == BitNumber(v) {
      NumberOfBit(j);
    }
    MaskOfAdds(f, v, order, BitNumber(v));
  }
}
