/** What the validator does with one record of one symbol, on values. */
module ValidatorSpec {
  import opened Wire

  datatype Violation =
    | BarLowAboveHigh | BarOpenOutOfRange | BarCloseOutOfRange | BarVwapOutOfRange
    | BarNonPositivePrice | BarVolumeInconsistent
    | TradeNonPositivePrice | TradeNonPositiveSize
    | TimestampRegression | SequenceGap
    | BarVolumeMismatch | BarTradeCountMismatch | BarVwapMismatch | BarOhlcMismatch
    | QuoteCrossed | QuoteLocked | QuoteNonPositive | QuoteZeroSize
    | PriceBandBreach

  datatype Result = Result(flags: set<Violation>, gap: nat)

  const PRICE_REL_TOL: real := 0.000001
  const PRICE_BAND_FRAC: real := 0.05
  const REF_EWMA_ALPHA: real := 0.2
  const BAND_REANCHOR_RUN: nat := 3

  // The running price reference; `run` counts consecutive out-of-band prints.
  datatype Band = Band(init: bool, ref: real, run: nat)

  // The aggregate of the valid trades since the last bar.
  datatype Acc = Acc(any: bool, count: nat, volume: nat, pv: real,
                     open: real, high: real, low: real, close: real)

  // Everything remembered about one symbol; the timestamps are per stream, 0 if none yet.
  datatype SymbolState = SymbolState(
    seen: bool,
    tradeTs: nat, barTs: nat, quoteTs: nat,
    lastSeq: nat,
    band: Band,
    acc: Acc)

  const NO_BAND := Band(false, 0.0, 0)
  const NO_TRADES := Acc(false, 0, 0, 0.0, 0.0, 0.0, 0.0, 0.0)
  const UNSEEN := SymbolState(false, 0, 0, 0, 0, NO_BAND, NO_TRADES)

  function Abs(x: real): real {
    if x < 0.0 then -x else x
  }

  function MaxReal(a: real, b: real): real {
    if a < b then b else a
  }

  predicate ApproxEqual(a: real, b: real) {
    Abs(a - b) <= PRICE_REL_TOL * MaxReal(MaxReal(Abs(a), Abs(b)), 1.0)
  }

  function When(condition: bool, v: Violation): set<Violation> {
    if condition then {v} else {}
  }

  predicate IsSequencing(v: Violation) {
    v.TimestampRegression? || v.SequenceGap?
  }

  predicate IsReconstruction(v: Violation) {
    v.BarVolumeMismatch? || v.BarTradeCountMismatch? || v.BarVwapMismatch? || v.BarOhlcMismatch?
  }

  // ---- sequencing ---------------------------------------------------------------

  /** The last timestamp of the stream this record belongs to. */
  function StreamTs(s: SymbolState, r: Record): nat {
    match r
    case TradeRecord(_) => s.tradeTs
    case BarRecord(_) => s.barTs
    case QuoteRecord(_) => s.quoteTs
  }

  function Ts(r: Record): nat {
    match r
    case TradeRecord(t) => t.ts
    case BarRecord(b) => b.ts
    case QuoteRecord(q) => q.ts
  }

  function SequencingFlags(s: SymbolState, r: Record): set<Violation> {
    When(StreamTs(s, r) != 0 && Ts(r) < StreamTs(s, r), TimestampRegression) +
    When(s.seen && r.SeqNo() > s.lastSeq + 1, SequenceGap)
  }

  function SequencingGap(s: SymbolState, r: Record): nat {
    if s.seen && r.SeqNo() > s.lastSeq + 1 then r.SeqNo() - s.lastSeq - 1 else 0
  }

  function Sequenced(s: SymbolState, r: Record): SymbolState {
    var t := s.(seen := true, lastSeq := r.SeqNo());
    match r
    case TradeRecord(_) => t.(tradeTs := Ts(r))
    case BarRecord(_) => t.(barTs := Ts(r))
    case QuoteRecord(_) => t.(quoteTs := Ts(r))
  }

  // ---- price band ------------------------------------------------------------------

  predicate OutOfBand(ref: real, price: real) {
    Abs(price - ref) > PRICE_BAND_FRAC * ref
  }

  function BandFlags(b: Band, price: real): set<Violation> {
    When(b.init && OutOfBand(b.ref, price), PriceBandBreach)
  }

  function Banded(b: Band, price: real): Band {
    if !b.init then b.(ref := price, init := true)
    else if OutOfBand(b.ref, price) then
      if b.run + 1 >= BAND_REANCHOR_RUN then b.(ref := price, run := 0)
      else b.(run := b.run + 1)
    else
      b.(run := 0, ref := REF_EWMA_ALPHA * price + (1.0 - REF_EWMA_ALPHA) * b.ref)
  }

  // ---- bar reconstruction -------------------------------------------------------------

  function Accumulated(a: Acc, price: real, size: nat): Acc {
    Acc(true, a.count + 1, a.volume + size, a.pv + price * size as real,
        if a.any then a.open else price,
        if a.any && price <= a.high then a.high else price,
        if a.any && a.low <= price then a.low else price,
        price)
  }

  function ReconcileFlags(a: Acc, b: Bar): set<Violation> {
    if !a.any then {}
    else
      When(a.volume != b.volume, BarVolumeMismatch) +
      When(a.count != b.tradeCount, BarTradeCountMismatch) +
      When(a.volume != 0 && !ApproxEqual(a.pv / a.volume as real, b.vwap), BarVwapMismatch) +
      When(!ApproxEqual(a.open, b.open) || !ApproxEqual(a.high, b.high)
           || !ApproxEqual(a.low, b.low) || !ApproxEqual(a.close, b.close),
           BarOhlcMismatch)
  }

  function Reconciled(a: Acc): Acc {
    if !a.any then a else a.(any := false, count := 0, volume := 0, pv := 0.0)
  }

  // ---- one record ------------------------------------------------------------------------

  predicate ValidTrade(t: Trade) {
    t.price > 0.0 && t.size != 0
  }

  function TradeFlags(t: Trade): set<Violation> {
    When(t.price <= 0.0, TradeNonPositivePrice) + When(t.size == 0, TradeNonPositiveSize)
  }

  function BarFlags(b: Bar): set<Violation> {
    When(b.low > b.high, BarLowAboveHigh) +
    When(b.open < b.low || b.open > b.high, BarOpenOutOfRange) +
    When(b.close < b.low || b.close > b.high, BarCloseOutOfRange) +
    When(b.vwap < b.low || b.vwap > b.high, BarVwapOutOfRange) +
    When(b.open <= 0.0 || b.high <= 0.0 || b.low <= 0.0 || b.close <= 0.0, BarNonPositivePrice) +
    When((b.tradeCount == 0) != (b.volume == 0), BarVolumeInconsistent)
  }

  function QuoteFlags(q: Quote): set<Violation> {
    When(q.bidPrice <= 0.0 || q.askPrice <= 0.0, QuoteNonPositive) +
    When(q.bidSize == 0 || q.askSize == 0, QuoteZeroSize) +
    When(q.bidPrice > q.askPrice, QuoteCrossed) +
    When(q.bidPrice == q.askPrice, QuoteLocked)
  }

  /** The checks that need no memory. */
  function OwnFlags(r: Record): set<Violation> {
    match r
    case TradeRecord(t) => TradeFlags(t)
    case BarRecord(b) => BarFlags(b)
    case QuoteRecord(q) => QuoteFlags(q)
  }

  predicate QuoteOutOfBand(s: SymbolState, q: Quote) {
    s.band.init && q.bidPrice > 0.0 && q.askPrice > 0.0
    && OutOfBand(s.band.ref, (q.bidPrice + q.askPrice) * 0.5)
  }

  /** The checks against what is remembered of the symbol, besides sequencing. */
  function HistoryFlags(s: SymbolState, r: Record): set<Violation> {
    match r
    case TradeRecord(t) => if ValidTrade(t) then BandFlags(s.band, t.price) else {}
    case BarRecord(b) => ReconcileFlags(s.acc, b)
    case QuoteRecord(q) => When(QuoteOutOfBand(s, q), PriceBandBreach)
  }

  lemma OwnFlagsGroup(r: Record, v: Violation)
    ensures v in OwnFlags(r) ==> !IsSequencing(v) && !IsReconstruction(v) && v != PriceBandBreach
  {
    match r
    case TradeRecord(_) =>
    case BarRecord(_) =>
    case QuoteRecord(_) =>
  }

  lemma HistoryFlagsGroup(s: SymbolState, r: Record, v: Violation)
    ensures v in HistoryFlags(s, r) ==> IsReconstruction(v) || v == PriceBandBreach
  {
    match r
    case TradeRecord(_) =>
    case BarRecord(_) =>
    case QuoteRecord(_) =>
  }

  /** Each flag is raised by one group of checks only. */
  lemma FlagGroups(s: SymbolState, r: Record, v: Violation)
    ensures v in OwnFlags(r) ==> !IsSequencing(v) && !IsReconstruction(v) && v != PriceBandBreach
    ensures v in SequencingFlags(s, r) ==> IsSequencing(v)
    ensures v in HistoryFlags(s, r) ==> IsReconstruction(v) || v == PriceBandBreach
  {
    OwnFlagsGroup(r, v);
    HistoryFlagsGroup(s, r, v);
  }

  function Verdict(s: SymbolState, r: Record): Result {
    Result(OwnFlags(r) + SequencingFlags(s, r) + HistoryFlags(s, r), SequencingGap(s, r))
  }

  function After(s: SymbolState, r: Record): (t: SymbolState)
    ensures t.seen
  {
    var q := Sequenced(s, r);
    match r
    case TradeRecord(t) =>
      if ValidTrade(t) then
        q.(acc := Accumulated(q.acc, t.price, t.size), band := Banded(q.band, t.price))
      else q
    case BarRecord(_) => q.(acc := Reconciled(q.acc))
    case QuoteRecord(_) => q
  }

  /** A symbol's state after its own records. */
  function Fold(rs: seq<Record>): SymbolState {
    if rs == [] then UNSEEN else After(Fold(rs[..|rs| - 1]), rs[|rs| - 1])
  }

  // The violations in the order of their bits, lowest first.
  const BIT_ORDER: seq<Violation> := [
    BarLowAboveHigh, BarOpenOutOfRange, BarCloseOutOfRange, BarVwapOutOfRange,
    BarNonPositivePrice, BarVolumeInconsistent, TradeNonPositivePrice, TradeNonPositiveSize,
    TimestampRegression, SequenceGap, BarVolumeMismatch, BarTradeCountMismatch,
    BarVwapMismatch, BarOhlcMismatch, QuoteCrossed, QuoteLocked,
    QuoteNonPositive, QuoteZeroSize, PriceBandBreach]

  function MaskOf(flags: set<Violation>, order: seq<Violation>): nat {
    if order == [] then 0
    else (if order[0] in flags then 1 else 0) + 2 * MaskOf(flags, order[1..])
  }

  /** The flags as the bit mask the original reports. */
  function Mask(flags: set<Violation>): nat {
    MaskOf(flags, BIT_ORDER)
  }

  lemma LowBit(x: nat, a: nat, y: nat, b: nat)
    requires x <= 1 && y <= 1 && x + 2 * a == y + 2 * b
    ensures x == y && a == b
  {
  }

  lemma {:induction false} MaskOfInjective(f: set<Violation>, g: set<Violation>, order: seq<Violation>)
    requires MaskOf(f, order) == MaskOf(g, order)
    ensures forall v | v in order :: v in f <==> v in g
  {
    if order != [] {
      LowBit(if order[0] in f then 1 else 0, MaskOf(f, order[1..]),
             if order[0] in g then 1 else 0, MaskOf(g, order[1..]));
      MaskOfInjective(f, g, order[1..]);
      assert order == [order[0]] + order[1..];
    }
  }

  lemma EveryViolationHasABit(v: Violation)
    ensures v in BIT_ORDER
  {
    var i := match v
      case BarLowAboveHigh => 0 case BarOpenOutOfRange => 1 case BarCloseOutOfRange => 2
      case BarVwapOutOfRange => 3 case BarNonPositivePrice => 4 case BarVolumeInconsistent => 5
      case TradeNonPositivePrice => 6 case TradeNonPositiveSize => 7
      case TimestampRegression => 8 case SequenceGap => 9
      case BarVolumeMismatch => 10 case BarTradeCountMismatch => 11
      case BarVwapMismatch => 12 case BarOhlcMismatch => 13
      case QuoteCrossed => 14 case QuoteLocked => 15
      case QuoteNonPositive => 16 case QuoteZeroSize => 17 case PriceBandBreach => 18;
    assert BIT_ORDER[i] == v;
  }

  /** The mask loses nothing: two results with the same mask carry the same flags. */
  lemma MaskIsFaithful(f: set<Violation>, g: set<Violation>)
    requires Mask(f) == Mask(g)
    ensures f == g
  {
    MaskOfInjective(f, g, BIT_ORDER);
    forall v: Violation ensures v in f <==> v in g {
      EveryViolationHasABit(v);
    }
  }
}
