/** What the recovery buffer holds, on events, and where a recovery therefore ends. */
module BuilderBuffer {
  import opened BuilderSpec
  import opened BuilderTheorems

  // ---- the check of a snapshot ---------------------------------------------------------------

  /** The deltas past the snapshot, in order. */
  function Past(buf: seq<Delta>, asOf: nat): seq<Delta> {
    if buf == [] then []
    else
      var before, d := Past(buf[..|buf| - 1], asOf), buf[|buf| - 1];
      if d.seqNo > asOf then before + [d] else before
  }

  /** They are asOf + 1, asOf + 2, ... in this order. */
  ghost predicate Contiguous(past: seq<Delta>, asOf: nat) {
    forall i | 0 <= i < |past| :: past[i].seqNo == asOf + 1 + i
  }

  lemma ContiguousAppend(past: seq<Delta>, d: Delta, asOf: nat)
    ensures Contiguous(past + [d], asOf)
            <==> Contiguous(past, asOf) && d.seqNo == asOf + 1 + |past|
  {
    var all := past + [d];
    assert forall i | 0 <= i < |past| :: all[i] == past[i];
    assert all[|past|] == d;
  }

  /** A snapshot passes exactly if the buffered deltas past it continue it without a hole. */
  lemma {:induction false} CheckMeaning(buf: seq<Delta>, asOf: nat)
    ensures var past := Past(buf, asOf);
            && (CheckBuffer(buf, asOf).Ready? <==> Contiguous(past, asOf))
            && (CheckBuffer(buf, asOf).Ready? ==> CheckBuffer(buf, asOf).next == asOf + 1 + |past|)
  {
    if buf != [] {
      var prefix := buf[..|buf| - 1];
      CheckMeaning(prefix, asOf);
      ContiguousAppend(Past(prefix, asOf), buf[|buf| - 1], asOf);
    }
  }

  // ---- the buffer ----------------------------------------------------------------------------

  function Deltas(evs: seq<Event>): seq<Delta> {
    if evs == [] then []
    else
      var before, e := Deltas(evs[..|evs| - 1]), evs[|evs| - 1];
      if e.DeltaIn? then before + [e.delta] else before
  }

  /** After k events the builder was live, or nothing had happened; since then it is not. */
  ghost predicate LiveLast(max: nat, capacity: nat, evs: seq<Event>, k: nat) {
    && k <= |evs|
    && (k == 0 || Run(max, capacity, evs[..k]).live)
    && forall j | k < j <= |evs| :: !Run(max, capacity, evs[..j]).live
  }

  function FirstOf(capacity: nat, ds: seq<Delta>): seq<Delta> {
    if |ds| <= capacity then ds else ds[..capacity]
  }

  function Beyond(capacity: nat, ds: seq<Delta>): nat {
    if |ds| <= capacity then 0 else |ds| - capacity
  }

  lemma {:induction false} LiveMeansEmpty(max: nat, capacity: nat, evs: seq<Event>)
    ensures Run(max, capacity, evs).live ==> Run(max, capacity, evs).buf == []
  {
    if evs != [] {
      LiveMeansEmpty(max, capacity, evs[..|evs| - 1]);
    }
  }

  /** The builder has held what a list of deltas leaves in a buffer that was empty before it. */
  ghost predicate Holding(capacity: nat, b: Builder, ds: seq<Delta>, overflow: nat) {
    b.buf == FirstOf(capacity, ds) && b.stats.overflow == overflow + Beyond(capacity, ds)
  }

  lemma HoldOne(capacity: nat, b: Builder, ds: seq<Delta>, overflow: nat, d: Delta)
    requires Holding(capacity, b, ds, overflow)
    ensures Holding(capacity, Hold(capacity, b, d), ds + [d], overflow)
  {
    var all := ds + [d];
    if |ds| >= capacity {
      assert all[..capacity] == ds[..capacity];
      assert ds[..|ds|] == ds;
    }
  }

  /** A step that does not end live holds a delta, and leaves the buffer alone otherwise. */
  lemma HoldingStep(max: nat, capacity: nat, b: Builder, e: Event, ds: seq<Delta>, overflow: nat)
    requires Sized(max, capacity, b) && (b.live ==> b.buf == [] && ds == [])
    requires Holding(capacity, b, ds, overflow) && !Step(max, capacity, b, e).live
    ensures Holding(capacity, Step(max, capacity, b, e),
                    if e.DeltaIn? then ds + [e.delta] else ds, overflow)
  {
    match e
    case DeltaIn(d) =>
      if b.live {
        var c := b.(live := false, buf := [], stats := b.stats.(gaps := b.stats.gaps + 1));
        HoldOne(capacity, c, ds, overflow, d);
      } else {
        HoldOne(capacity, b, ds, overflow, d);
      }
    case SnapshotIn(asOf, levels) =>
      Kept(max, capacity, b, asOf, levels);
  }

  lemma Kept(max: nat, capacity: nat, b: Builder, asOf: nat, levels: seq<Update>)
    requires Sized(max, capacity, b) && !OnSnapshot(max, capacity, b, asOf, levels).live
    ensures var r := OnSnapshot(max, capacity, b, asOf, levels);
            r.buf == b.buf && r.stats.overflow == b.stats.overflow
  {
  }

  lemma LiveLastBefore(max: nat, capacity: nat, evs: seq<Event>, k: nat)
    requires LiveLast(max, capacity, evs, k) && k < |evs|
    ensures LiveLast(max, capacity, evs[..|evs| - 1], k)
    ensures Run(max, capacity, evs[..|evs| - 1]).live ==> k == |evs| - 1
  {
    var prefix := evs[..|evs| - 1];
    assert forall j | 0 <= j < |evs| :: prefix[..j] == evs[..j];
  }

  lemma DeltasGrow(evs: seq<Event>, k: nat)
    requires k < |evs|
    ensures var n, e := |evs| - 1, evs[|evs| - 1];
            Deltas(evs[k..])
            == if e.DeltaIn? then Deltas(evs[..n][k..]) + [e.delta] else Deltas(evs[..n][k..])
  {
    var n := |evs| - 1;
    assert evs[k..][..|evs[k..]| - 1] == evs[..n][k..];
  }

  /**
   While the builder is not live, its buffer is the first `capacity` deltas received since it
   last was, the one that made the gap included, and every further one is counted as overflow.
   */
  lemma {:induction false} BufferIsFirstDeltas(max: nat, capacity: nat, evs: seq<Event>, k: nat)
    requires LiveLast(max, capacity, evs, k)
    ensures Holding(capacity, Run(max, capacity, evs), Deltas(evs[k..]),
                    Run(max, capacity, evs[..k]).stats.overflow)
  {
    LiveMeansEmpty(max, capacity, evs[..k]);
    if k == |evs| {
      assert evs[..k] == evs && evs[k..] == [];
    } else {
      var prefix := evs[..|evs| - 1];
      assert prefix[..k] == evs[..k];
      LiveLastBefore(max, capacity, evs, k);
      BufferIsFirstDeltas(max, capacity, prefix, k);
      DeltasGrow(evs, k);
      LiveMeansEmpty(max, capacity, prefix);
      assert evs[..|evs|] == evs;
      assert k == |prefix| ==> prefix[k..] == [];
      HoldingStep(max, capacity, Run(max, capacity, prefix), evs[|evs| - 1], Deltas(prefix[k..]),
                  Run(max, capacity, evs[..k]).stats.overflow);
    }
  }

  /** While it is live, nothing overflows. */
  lemma NoOverflowLive(max: nat, capacity: nat, evs: seq<Event>, e: Event)
    requires Run(max, capacity, evs + [e]).live
    ensures Run(max, capacity, evs + [e]).stats.overflow == Run(max, capacity, evs).stats.overflow
  {
    RunAppend(max, capacity, evs, e);
  }

  // ---- where a recovery ends -----------------------------------------------------------------

  lemma SnapshotChecked(max: nat, capacity: nat, evs: seq<Event>, asOf: nat, levels: seq<Update>)
    requires !Run(max, capacity, evs).live
    ensures var b, r := Run(max, capacity, evs), Run(max, capacity, evs + [SnapshotIn(asOf, levels)]);
            && (r.live <==> CheckBuffer(b.buf, asOf).Ready?)
            && (r.live ==> r.expected == CheckBuffer(b.buf, asOf).next)
  {
    RunAppend(max, capacity, evs, SnapshotIn(asOf, levels));
  }

  /**
   On in-order input, a recovering builder goes live on exactly the snapshots from one before
   the last unbroken run of the deltas it holds, and then expects the sequence after the last
   of them, or after the snapshot if that is later. With at most `capacity` deltas since it
   was live the last held is the last received.
   */
  lemma RecoveryReachesLast(max: nat, capacity: nat, evs: seq<Event>, k: nat,
                            asOf: nat, levels: seq<Update>)
    requires LiveLast(max, capacity, evs, k) && !Run(max, capacity, evs).live && DeltasAscend(evs)
    requires capacity >= 1 && Deltas(evs[k..]) != []
    ensures var r, held := Run(max, capacity, evs + [SnapshotIn(asOf, levels)]),
                           FirstOf(capacity, Deltas(evs[k..]));
            var last := held[|held| - 1].seqNo;
            && (r.live <==> asOf + 1 >= TailStart(held))
            && (r.live ==> r.expected == (if asOf <= last then last else asOf) + 1)
  {
    BufferIsFirstDeltas(max, capacity, evs, k);
    BufferAscends(max, capacity, evs);
    SnapshotChecked(max, capacity, evs, asOf, levels);
    AcceptableFrom(Run(max, capacity, evs).buf, asOf);
  }

  // ---- the statistics --------------------------------------------------------------------------

  // What an event is to a builder in some state.
  datatype Kind = Applied | GapMade | Stale | Held | Ignored | TooOld | Accepted

  ghost function KindOf(b: Builder, e: Event): Kind {
    match e
    case DeltaIn(d) =>
      if !b.live then Held
      else if d.seqNo == b.expected then Applied
      else if d.seqNo > b.expected then GapMade
      else Stale
    case SnapshotIn(asOf, _) =>
      if b.live && asOf < b.expected then Ignored
      else if Contiguous(Past(b.buf, asOf), asOf) then Accepted
      else TooOld
  }

  /** How many events of the run were of this kind when they came. */
  ghost function Tally(max: nat, capacity: nat, evs: seq<Event>, kind: Kind): nat {
    if evs == [] then 0
    else
      var prefix := evs[..|evs| - 1];
      Tally(max, capacity, prefix, kind)
      + (if KindOf(Run(max, capacity, prefix), evs[|evs| - 1]) == kind then 1 else 0)
  }

  /** A delta that has to be held finds no room. */
  ghost predicate Overflows(capacity: nat, b: Builder, e: Event) {
    (KindOf(b, e) == Held && |b.buf| == capacity) || (KindOf(b, e) == GapMade && capacity == 0)
  }

  /** How many deltas of the run found no room. */
  ghost function Overflowed(max: nat, capacity: nat, evs: seq<Event>): nat {
    if evs == [] then 0
    else
      var prefix := evs[..|evs| - 1];
      Overflowed(max, capacity, prefix)
      + (if Overflows(capacity, Run(max, capacity, prefix), evs[|evs| - 1]) then 1 else 0)
  }

  function Bump(n: nat, kind: Kind, counted: Kind): nat {
    if kind == counted then n + 1 else n
  }

  lemma StepCounts(max: nat, capacity: nat, b: Builder, e: Event)
    requires Sized(max, capacity, b)
    ensures var r, kind := Step(max, capacity, b, e), KindOf(b, e);
            && r.stats.applied == Bump(b.stats.applied, kind, Applied)
            && r.stats.gaps == Bump(b.stats.gaps, kind, GapMade)
            && r.stats.staleDropped == Bump(b.stats.staleDropped, kind, Stale)
            && r.stats.tooOld == Bump(b.stats.tooOld, kind, TooOld)
            && r.stats.recovered == Bump(b.stats.recovered, kind, Accepted)
            && r.stats.overflow == b.stats.overflow + (if Overflows(capacity, b, e) then 1 else 0)
            && (r.live <==> kind == Applied || kind == Stale || kind == Ignored || kind == Accepted
                            || (kind == TooOld && b.live))
            && r.expected == (if kind == Applied then b.expected + 1
                              else if kind == Accepted then e.asOf + 1 + |Past(b.buf, e.asOf)|
                              else b.expected)
  {
    if e.SnapshotIn? {
      CheckMeaning(b.buf, e.asOf);
    }
  }

  /**
   Every counter counts its kind of event, every event is of one kind, and the expected
   sequence moves on exactly those that are applied or accepted.
   */
  lemma {:induction false} CountersAreTallies(max: nat, capacity: nat, evs: seq<Event>)
    ensures var s := Run(max, capacity, evs).stats;
            && s.applied == Tally(max, capacity, evs, Applied)
            && s.gaps == Tally(max, capacity, evs, GapMade)
            && s.staleDropped == Tally(max, capacity, evs, Stale)
            && s.tooOld == Tally(max, capacity, evs, TooOld)
            && s.recovered == Tally(max, capacity, evs, Accepted)
            && s.overflow == Overflowed(max, capacity, evs)
  {
    if evs != [] {
      var prefix := evs[..|evs| - 1];
      CountersAreTallies(max, capacity, prefix);
      StepCounts(max, capacity, Run(max, capacity, prefix), evs[|evs| - 1]);
    }
  }
}
