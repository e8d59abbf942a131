/** What the per-symbol checks mean over a symbol's whole history. */
module SymbolTheorems {
  import opened Wire
  import opened ValidatorSpec

  /** The verdicts on a symbol's records, in order. */
  function Verdicts(rs: seq<Record>): (v: seq<Result>)
    ensures |v| == |rs|
  {
    if rs == [] then []
    else Verdicts(rs[..|rs| - 1]) + [Verdict(Fold(rs[..|rs| - 1]), rs[|rs| - 1])]
  }

  // ---- gap accounting ---------------------------------------------------------------

  function TotalGap(v: seq<Result>): nat {
    if v == [] then 0 else TotalGap(v[..|v| - 1]) + v[|v| - 1].gap
  }

  ghost predicate StrictlyIncreasing(rs: seq<Record>) {
    forall i, j | 0 <= i < j < |rs| :: rs[i].SeqNo() < rs[j].SeqNo()
  }

  lemma {:induction false} LastSeqIsLast(rs: seq<Record>)
    ensures Fold(rs).seen <==> rs != []
    ensures rs != [] ==> Fold(rs).lastSeq == rs[|rs| - 1].SeqNo()
  {
    if rs != [] {
      var prefix, r := rs[..|rs| - 1], rs[|rs| - 1];
      assert Fold(rs) == After(Fold(prefix), r);
    }
  }

  /** Reported gaps add up to the sequences missing between the first and the last record. */
  lemma {:induction false} GapsTelescope(rs: seq<Record>)
    requires rs != [] && StrictlyIncreasing(rs)
    ensures TotalGap(Verdicts(rs)) == rs[|rs| - 1].SeqNo() - rs[0].SeqNo() - (|rs| - 1)
  {
    var prefix, r := rs[..|rs| - 1], rs[|rs| - 1];
    var v := Verdicts(rs);
    assert v[..|v| - 1] == Verdicts(prefix);
    LastSeqIsLast(prefix);
    if prefix != [] {
      GapsTelescope(prefix);
      assert prefix[|prefix| - 1].SeqNo() < r.SeqNo();
    }
  }

  /** The gap flag is raised exactly when a gap is reported. */
  lemma GapFlagIffGap(s: SymbolState, r: Record)
    ensures SequenceGap in Verdict(s, r).flags <==> Verdict(s, r).gap > 0
  {
    SequencingPart(s, r, SequenceGap);
  }

  /** No record is more than one past the record before it. */
  ghost predicate Continuous(rs: seq<Record>) {
    forall i, j | 0 <= i && i + 1 == j < |rs| :: rs[j].SeqNo() <= rs[i].SeqNo() + 1
  }

  ghost predicate NoGapFlag(v: seq<Result>) {
    forall i | 0 <= i < |v| :: SequenceGap !in v[i].flags
  }

  lemma ContinuousAppend(rs: seq<Record>, r: Record)
    ensures Continuous(rs + [r])
            <==> Continuous(rs) && (rs == [] || r.SeqNo() <= rs[|rs| - 1].SeqNo() + 1)
  {
    var all := rs + [r];
    assert forall i | 0 <= i < |rs| :: all[i] == rs[i];
    assert all[|rs|] == r;
  }

  lemma NoGapFlagAppend(v: seq<Result>, x: Result)
    ensures NoGapFlag(v + [x]) <==> NoGapFlag(v) && SequenceGap !in x.flags
    ensures TotalGap(v + [x]) == TotalGap(v) + x.gap
  {
    var w := v + [x];
    assert w[..|w| - 1] == v && w[|v|] == x;
    assert forall i | 0 <= i < |v| :: w[i] == v[i];
  }

  /**
   A symbol is never flagged for a gap exactly when no record jumps ahead of the one before
   it, and exactly when its reported gaps add up to nothing; sequences may repeat or go back.
   */
  lemma {:induction false} UnflaggedIffContinuous(rs: seq<Record>)
    ensures NoGapFlag(Verdicts(rs)) <==> Continuous(rs)
    ensures NoGapFlag(Verdicts(rs)) <==> TotalGap(Verdicts(rs)) == 0
  {
    if rs != [] {
      var prefix, r := rs[..|rs| - 1], rs[|rs| - 1];
      assert rs == prefix + [r];
      UnflaggedIffContinuous(prefix);
      ContinuityStep(prefix, r);
    }
  }

  lemma GapOfVerdict(rs: seq<Record>, r: Record)
    ensures var x := Verdict(Fold(rs), r);
            && (SequenceGap in x.flags <==> x.gap > 0)
            && (x.gap > 0 <==> rs != [] && r.SeqNo() > rs[|rs| - 1].SeqNo() + 1)
  {
    GapFlagIffGap(Fold(rs), r);
    LastSeqIsLast(rs);
  }

  lemma ContinuityStep(rs: seq<Record>, r: Record)
    requires NoGapFlag(Verdicts(rs)) <==> Continuous(rs)
    requires NoGapFlag(Verdicts(rs)) <==> TotalGap(Verdicts(rs)) == 0
    ensures NoGapFlag(Verdicts(rs + [r])) <==> Continuous(rs + [r])
    ensures NoGapFlag(Verdicts(rs + [r])) <==> TotalGap(Verdicts(rs + [r])) == 0
  {
    VerdictsAppend(rs, r);
    NoGapFlagAppend(Verdicts(rs), Verdict(Fold(rs), r));
    ContinuousAppend(rs, r);
    GapOfVerdict(rs, r);
  }

  /** Only sequencing raises a sequencing flag. */
  lemma SequencingPart(s: SymbolState, r: Record, v: Violation)
    requires IsSequencing(v)
    ensures v in Verdict(s, r).flags <==> v in SequencingFlags(s, r)
  {
    FlagGroups(s, r, v);
  }

  // ---- timestamps -----------------------------------------------------------------------

  predicate SameStream(a: Record, b: Record) {
    (a.TradeRecord? && b.TradeRecord?) || (a.BarRecord? && b.BarRecord?)
    || (a.QuoteRecord? && b.QuoteRecord?)
  }

  /** The timestamps of one stream, in order. */
  function Clock(rs: seq<Record>, like: Record): seq<nat> {
    if rs == [] then []
    else if SameStream(rs[|rs| - 1], like) then
      Clock(rs[..|rs| - 1], like) + [Ts(rs[|rs| - 1])]
    else Clock(rs[..|rs| - 1], like)
  }

  ghost predicate NonDecreasing(ts: seq<nat>) {
    forall i, j | 0 <= i < j < |ts| :: ts[i] <= ts[j]
  }

  /** No verdict on a record of this stream carries the regression flag. */
  ghost predicate Unflagged(rs: seq<Record>, v: seq<Result>, like: Record)
    requires |v| == |rs|
  {
    forall i | 0 <= i < |rs| && SameStream(rs[i], like) :: TimestampRegression !in v[i].flags
  }

  ghost predicate NeverRegresses(rs: seq<Record>, like: Record) {
    Unflagged(rs, Verdicts(rs), like)
  }

  lemma {:induction false} LastTsIsLast(rs: seq<Record>, like: Record)
    ensures var c := Clock(rs, like);
            StreamTs(Fold(rs), like) == if c == [] then 0 else c[|c| - 1]
  {
    if rs != [] {
      var prefix, r := rs[..|rs| - 1], rs[|rs| - 1];
      LastTsIsLast(prefix, like);
      assert Fold(rs) == After(Fold(prefix), r);
      assert StreamTs(Fold(rs), like)
          == if SameStream(r, like) then Ts(r) else StreamTs(Fold(prefix), like);
    }
  }

  lemma RegressionFlag(s: SymbolState, r: Record)
    ensures TimestampRegression in Verdict(s, r).flags <==> Ts(r) < StreamTs(s, r)
  {
    SequencingPart(s, r, TimestampRegression);
  }

  lemma ClockStep(c: seq<nat>, t: nat)
    ensures NonDecreasing(c + [t]) <==> NonDecreasing(c) && (c == [] || c[|c| - 1] <= t)
  {
    var d := c + [t];
    if NonDecreasing(d) {
      assert forall i | 0 <= i < |c| :: c[i] == d[i];
      assert c == [] || d[|c| - 1] <= d[|c|];
    }
  }

  lemma UnflaggedStep(rs: seq<Record>, v: seq<Result>, r: Record, x: Result, like: Record)
    requires |v| == |rs|
    ensures Unflagged(rs + [r], v + [x], like) <==>
              Unflagged(rs, v, like)
              && (SameStream(r, like) ==> TimestampRegression !in x.flags)
  {
    var rs', v' := rs + [r], v + [x];
    assert rs'[|rs|] == r && v'[|rs|] == x;
    assert forall i | 0 <= i < |rs| :: rs'[i] == rs[i] && v'[i] == v[i];
  }

  lemma VerdictsAppend(rs: seq<Record>, r: Record)
    ensures Verdicts(rs + [r]) == Verdicts(rs) + [Verdict(Fold(rs), r)]
  {
    assert (rs + [r])[..|rs + [r]| - 1] == rs;
  }

  lemma ClockAppend(rs: seq<Record>, r: Record, like: Record)
    ensures Clock(rs + [r], like)
            == if SameStream(r, like) then Clock(rs, like) + [Ts(r)] else Clock(rs, like)
  {
    assert (rs + [r])[..|rs + [r]| - 1] == rs;
  }

  lemma RegressionStep(rs: seq<Record>, r: Record, like: Record)
    requires NeverRegresses(rs, like) <==> NonDecreasing(Clock(rs, like))
    ensures NeverRegresses(rs + [r], like) <==> NonDecreasing(Clock(rs + [r], like))
  {
    var x := Verdict(Fold(rs), r);
    VerdictsAppend(rs, r);
    ClockAppend(rs, r, like);
    UnflaggedStep(rs, Verdicts(rs), r, x, like);
    ClockStep(Clock(rs, like), Ts(r));
    assert SameStream(r, like) ==>
        (TimestampRegression in x.flags <==> Ts(r) < StreamTs(Fold(rs), like)) by {
      RegressionFlag(Fold(rs), r);
    }
    LastTsIsLast(rs, like);
  }

  /**
   A stream is never flagged for regression exactly when its own timestamps never go back,
   whatever the other streams of the symbol do.
   */
  lemma {:induction false} RegressionIsPerStream(rs: seq<Record>, like: Record)
    ensures NeverRegresses(rs, like) <==> NonDecreasing(Clock(rs, like))
  {
    if rs != [] {
      var prefix, r := rs[..|rs| - 1], rs[|rs| - 1];
      assert rs == prefix + [r];
      RegressionIsPerStream(prefix, like);
      RegressionStep(prefix, r, like);
    }
  }

  // ---- bar reconstruction ----------------------------------------------------------------

  function NextWindow(ts: seq<Trade>, r: Record): seq<Trade> {
    match r
    case TradeRecord(t) => if ValidTrade(t) then ts + [t] else ts
    case BarRecord(_) => []
    case QuoteRecord(_) => ts
  }

  /** The valid trades since the last bar. */
  function Window(rs: seq<Record>): seq<Trade> {
    if rs == [] then [] else NextWindow(Window(rs[..|rs| - 1]), rs[|rs| - 1])
  }

  function Volume(ts: seq<Trade>): nat {
    if ts == [] then 0 else Volume(ts[..|ts| - 1]) + ts[|ts| - 1].size
  }

  function Turnover(ts: seq<Trade>): real {
    if ts == [] then 0.0
    else Turnover(ts[..|ts| - 1]) + ts[|ts| - 1].price * ts[|ts| - 1].size as real
  }

  ghost predicate IsHigh(ts: seq<Trade>, high: real) {
    (exists i | 0 <= i < |ts| :: ts[i].price == high)
    && forall i | 0 <= i < |ts| :: ts[i].price <= high
  }

  ghost predicate IsLow(ts: seq<Trade>, low: real) {
    (exists i | 0 <= i < |ts| :: ts[i].price == low)
    && forall i | 0 <= i < |ts| :: low <= ts[i].price
  }

  ghost predicate AllValid(ts: seq<Trade>) {
    forall i | 0 <= i < |ts| :: ValidTrade(ts[i])
  }

  ghost predicate Sums(a: Acc, ts: seq<Trade>) {
    a.count == |ts| && a.volume == Volume(ts) && a.pv == Turnover(ts)
  }

  ghost predicate Extremes(a: Acc, ts: seq<Trade>) {
    && (a.any <==> ts != [])
    && (ts != [] ==>
          && a.open == ts[0].price && a.close == ts[|ts| - 1].price
          && IsHigh(ts, a.high) && IsLow(ts, a.low))
  }

  /** The accumulator holds the aggregates of these trades. */
  ghost predicate Aggregates(a: Acc, ts: seq<Trade>) {
    Sums(a, ts) && Extremes(a, ts)
  }

  lemma HighStep(ts: seq<Trade>, t: Trade, high: real)
    requires ts != [] ==> IsHigh(ts, high)
    ensures IsHigh(ts + [t], if ts == [] || t.price > high then t.price else high)
  {
    var r := ts + [t];
    assert r[|ts|] == t;
    if ts != [] && t.price <= high {
      var i :| 0 <= i < |ts| && ts[i].price == high;
      assert r[i] == ts[i];
    }
  }

  lemma LowStep(ts: seq<Trade>, t: Trade, low: real)
    requires ts != [] ==> IsLow(ts, low)
    ensures IsLow(ts + [t], if ts == [] || t.price < low then t.price else low)
  {
    var r := ts + [t];
    assert r[|ts|] == t;
    if ts != [] && low <= t.price {
      var i :| 0 <= i < |ts| && ts[i].price == low;
      assert r[i] == ts[i];
    }
  }

  lemma SumsStep(a: Acc, ts: seq<Trade>, t: Trade)
    requires Sums(a, ts)
    ensures Sums(Accumulated(a, t.price, t.size), ts + [t])
  {
    assert (ts + [t])[..|ts + [t]| - 1] == ts;
  }

  lemma ExtremesStep(a: Acc, ts: seq<Trade>, t: Trade)
    requires Extremes(a, ts)
    ensures Extremes(Accumulated(a, t.price, t.size), ts + [t])
  {
    HighStep(ts, t, a.high);
    LowStep(ts, t, a.low);
  }

  lemma AccumulateStep(a: Acc, ts: seq<Trade>, t: Trade)
    requires Aggregates(a, ts)
    ensures Aggregates(Accumulated(a, t.price, t.size), ts + [t])
  {
    SumsStep(a, ts, t);
    ExtremesStep(a, ts, t);
  }

  /** Between bars the accumulators are exactly those of the valid trades since the last bar. */
  lemma {:induction false} AccumulatorsAreAggregates(rs: seq<Record>)
    ensures Aggregates(Fold(rs).acc, Window(rs)) && AllValid(Window(rs))
  {
    if rs != [] {
      var prefix, r := rs[..|rs| - 1], rs[|rs| - 1];
      AccumulatorsAreAggregates(prefix);
      if r.TradeRecord? && ValidTrade(r.trade) {
        AccumulateStep(Fold(prefix).acc, Window(prefix), r.trade);
      }
    }
  }

  lemma BoundStep(lo: real, p: real, hi: real, v: real, n: real, x: real)
    requires lo * v <= x <= hi * v && lo <= p <= hi && n >= 0.0
    ensures lo * (v + n) <= x + p * n <= hi * (v + n)
  {
    assert lo * (v + n) == lo * v + lo * n && hi * (v + n) == hi * v + hi * n;
    assert (p - lo) * n >= 0.0 && (hi - p) * n >= 0.0;
  }

  /** Every price bound on the trades is a bound on their volume-weighted sum. */
  lemma {:induction false} TurnoverBounds(ts: seq<Trade>, lo: real, hi: real)
    requires forall i | 0 <= i < |ts| :: lo <= ts[i].price <= hi
    ensures lo * Volume(ts) as real <= Turnover(ts) <= hi * Volume(ts) as real
  {
    if ts == [] {
      assert lo * 0.0 == 0.0 && hi * 0.0 == 0.0;
    } else {
      var last := |ts| - 1;
      TurnoverBounds(ts[..last], lo, hi);
      var v, n := Volume(ts[..last]) as real, ts[last].size as real;
      BoundStep(lo, ts[last].price, hi, v, n, Turnover(ts[..last]));
      assert Volume(ts) as real == v + n;
      assert Turnover(ts) == Turnover(ts[..last]) + ts[last].price * n;
    }
  }

  lemma {:induction false} VolumePositive(ts: seq<Trade>)
    requires AllValid(ts) && ts != []
    ensures Volume(ts) > 0
  {
  }

  lemma QuotientBounds(lo: real, x: real, hi: real, n: real)
    requires n > 0.0 && lo * n <= x <= hi * n
    ensures lo <= x / n <= hi
  {
    var q := x / n;
    assert q * n == x;
    assert (q - lo) * n >= 0.0 && (hi - q) * n >= 0.0;
    SignOfProduct(q - lo, n);
    SignOfProduct(hi - q, n);
  }

  lemma SignOfProduct(a: real, n: real)
    requires n > 0.0 && a * n >= 0.0
    ensures a >= 0.0
  {
  }

  lemma WindowVwap(a: Acc, ts: seq<Trade>)
    requires ts != [] && AllValid(ts) && Aggregates(a, ts)
    ensures a.volume > 0 && a.low <= a.pv / a.volume as real <= a.high
  {
    assert a.volume > 0 by {
      VolumePositive(ts);
    }
    assert a.low * a.volume as real <= a.pv <= a.high * a.volume as real by {
      TurnoverBounds(ts, a.low, a.high);
    }
    QuotientBounds(a.low, a.pv, a.high, a.volume as real);
  }

  /** The reconstructed volume-weighted price lies between the low and the high. */
  lemma VwapInRange(rs: seq<Record>)
    requires Window(rs) != []
    ensures var a := Fold(rs).acc; a.volume > 0 && a.low <= a.pv / a.volume as real <= a.high
  {
    AccumulatorsAreAggregates(rs);
    WindowVwap(Fold(rs).acc, Window(rs));
  }

  /** A bar that carries exactly the aggregates of its window. */
  ghost predicate Faithful(b: Bar, ts: seq<Trade>) {
    && ts != [] && Volume(ts) > 0
    && b.volume == Volume(ts) && b.tradeCount == |ts|
    && b.vwap == Turnover(ts) / Volume(ts) as real
    && b.open == ts[0].price && b.close == ts[|ts| - 1].price
    && IsHigh(ts, b.high) && IsLow(ts, b.low)
  }

  lemma HighUnique(ts: seq<Trade>, a: real, b: real)
    requires IsHigh(ts, a) && IsHigh(ts, b)
    ensures a == b
  {
  }

  lemma LowUnique(ts: seq<Trade>, a: real, b: real)
    requires IsLow(ts, a) && IsLow(ts, b)
    ensures a == b
  {
  }

  lemma FaithfulBarMatches(rs: seq<Record>, b: Bar)
    requires Faithful(b, Window(rs))
    ensures ReconcileFlags(Fold(rs).acc, b) == {}
    ensures BarFlags(b) == {}
  {
    AccumulatorsAreAggregates(rs);
    VwapInRange(rs);
    HighUnique(Window(rs), Fold(rs).acc.high, b.high);
    LowUnique(Window(rs), Fold(rs).acc.low, b.low);
  }

  /** A faithful bar raises no flag other than those of sequencing. */
  lemma FaithfulBarPasses(rs: seq<Record>, b: Bar)
    requires Faithful(b, Window(rs))
    ensures forall v | v in Verdict(Fold(rs), BarRecord(b)).flags :: IsSequencing(v)
  {
    FaithfulBarMatches(rs, b);
    forall v | v in Verdict(Fold(rs), BarRecord(b)).flags ensures IsSequencing(v) {
      FlagGroups(Fold(rs), BarRecord(b), v);
    }
  }

  /** Apart by at most a millionth of the larger absolute value, or of 1 if both are smaller. */
  predicate WithinTolerance(x: real, y: real) {
    var d := 1000000.0 * (if x < y then y - x else x - y);
    d <= 1.0 || d <= x || d <= -x || d <= y || d <= -y
  }

  lemma ToleranceIsApproxEqual(x: real, y: real)
    ensures ApproxEqual(x, y) <==> WithinTolerance(x, y)
  {
    var m := MaxReal(MaxReal(Abs(x), Abs(y)), 1.0);
    assert ApproxEqual(x, y) <==> 1000000.0 * Abs(x - y) <= m;
  }

  lemma ReconcileFlagsApart(a: Acc, b: Bar)
    requires a.any && a.volume > 0
    ensures var f := ReconcileFlags(a, b);
            && (BarVolumeMismatch in f <==> b.volume != a.volume)
            && (BarTradeCountMismatch in f <==> b.tradeCount != a.count)
            && (BarVwapMismatch in f <==> !WithinTolerance(a.pv / a.volume as real, b.vwap))
            && (BarOhlcMismatch in f
                <==> !(WithinTolerance(a.open, b.open) && WithinTolerance(a.high, b.high)
                       && WithinTolerance(a.low, b.low) && WithinTolerance(a.close, b.close)))
  {
    ToleranceIsApproxEqual(a.pv / a.volume as real, b.vwap);
    ToleranceIsApproxEqual(a.open, b.open);
    ToleranceIsApproxEqual(a.high, b.high);
    ToleranceIsApproxEqual(a.low, b.low);
    ToleranceIsApproxEqual(a.close, b.close);
  }

  /**
   Reconstruction, flag by flag: the bar is compared with these trades, if there are any and
   the symbol has a place. Volume and trade count must agree, prices within a millionth.
   */
  ghost predicate BarReconciled(f: set<Violation>, placed: bool, ts: seq<Trade>, b: Bar,
                                high: real, low: real) {
    && (ts != [] ==> Volume(ts) > 0)
    && var compared := placed && ts != [];
       && (BarVolumeMismatch in f <==> compared && b.volume != Volume(ts))
       && (BarTradeCountMismatch in f <==> compared && b.tradeCount != |ts|)
       && (BarVwapMismatch in f
           <==> compared && !WithinTolerance(Turnover(ts) / Volume(ts) as real, b.vwap))
       && (BarOhlcMismatch in f
           <==> compared && !(WithinTolerance(ts[0].price, b.open) && WithinTolerance(high, b.high)
                              && WithinTolerance(low, b.low)
                              && WithinTolerance(ts[|ts| - 1].price, b.close)))
  }

  lemma ReconstructionIff(rs: seq<Record>, b: Bar, high: real, low: real)
    requires Window(rs) != [] ==> IsHigh(Window(rs), high) && IsLow(Window(rs), low)
    ensures BarReconciled(ReconcileFlags(Fold(rs).acc, b), true, Window(rs), b, high, low)
  {
    AccumulatorsAreAggregates(rs);
    var ts, a := Window(rs), Fold(rs).acc;
    if ts != [] {
      VolumePositive(ts);
      HighUnique(ts, a.high, high);
      LowUnique(ts, a.low, low);
      ReconcileFlagsApart(a, b);
    }
  }
}
