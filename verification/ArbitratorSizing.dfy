/** The statistics the arbitrator reports, and what they say about the window and the lines. */
module ArbitratorSizing {
  import opened Holes
  import opened ArbitratorSpec
  import opened ArbitratorRuns
  import opened ArbitratorTheorems
  import opened ArbitratorWindows

  // ---- max_reorder ------------------------------------------------------------------

  lemma StoredDepth(s: State, p: Packet)
    ensures Stored(s, p).maxReorder == s.maxReorder
  {
    if p.seqNo !in s.buf {
      var u := s.(buf := s.buf[p.seqNo := p.record]);
      ReleaseIsPassTo(u);
      PassToFields(u, FirstHole(u.buf.Keys, u.frontier));
    }
  }

  lemma OfferDepth(window: nat, s: State, p: Packet)
    requires window >= 1 && s.started && !Rejects(s, p) && p.seqNo < s.frontier + window
    ensures OfferPacket(window, s, p).maxReorder
            == if p.seqNo < s.frontier then s.maxReorder
               else Max(s.maxReorder, p.seqNo - s.frontier)
  {
    if s.frontier <= p.seqNo {
      StoredDepth(Deepened(s, p.seqNo), p);
    }
  }

  lemma FirstDepth(window: nat, evs: seq<Event>)
    requires window >= 1 && |evs| == 1 && evs[0].Offer?
    ensures Run(window, evs).maxReorder == 0
  {
    assert evs[..0] == [];
    StoredDepth(Anchored(INITIAL, evs[0].packet), evs[0].packet);
  }

  /**
   How far ahead of the frontier a packet is once the frontier has been forced on: up to the
   first sequence not offered so far from which the packet fits the window.
   */
  function Depth(window: nat, h: History, s: State, e: Event): nat {
    if e.Flush? || !s.started || Rejects(s, e.packet) || e.packet.seqNo < s.frontier then 0
    else if e.packet.seqNo < s.frontier + window then e.packet.seqNo - s.frontier
    else
      var f := FirstHole(h.kept, e.packet.seqNo - window + 1);
      if f <= e.packet.seqNo then e.packet.seqNo - f else 0
  }

  /** The largest depth of any packet of the run. */
  function Deepest(window: nat, evs: seq<Event>): nat
    requires window >= 1
  {
    if evs == [] then 0
    else
      var prefix := evs[..|evs| - 1];
      Max(Deepest(window, prefix),
          Depth(window, Track(window, prefix), Run(window, prefix), evs[|evs| - 1]))
  }

  lemma SameHoles(window: nat, h: History, s: State, from: nat)
    requires Core(window, h, s) && h.floor <= from
    ensures FirstHole(h.kept, from) == FirstHole(h.accepted.Keys, from)
  {
    FirstHoleLocal(h.kept, h.accepted.Keys, from);
  }

  lemma DepthFrom(window: nat, s: State, p: Packet, g: nat)
    requires window >= 1 && s.started && s.frontier <= g <= p.seqNo && !Rejects(s, p)
    requires Force(window, s, p.seqNo) == PassTo(s, g)
    ensures OfferPacket(window, s, p).maxReorder == Max(s.maxReorder, p.seqNo - g)
  {
    PassToFields(s, g);
    StoredDepth(Deepened(PassTo(s, g), p.seqNo), p);
  }

  lemma ForcedDepth(window: nat, h: History, s: State, p: Packet)
    requires window >= 1 && Core(window, h, s) && !Rejects(s, p)
    requires s.frontier + window <= p.seqNo
    ensures OfferPacket(window, s, p).maxReorder
            == Max(s.maxReorder, Depth(window, h, s, Offer(p)))
  {
    var goal := p.seqNo - window + 1;
    SameHoles(window, h, s, goal);
    ForceGoal(window, h, s, p.seqNo);
    DepthFrom(window, s, p, FirstHole(h.accepted.Keys, goal));
  }

  lemma StepDepth(window: nat, h: History, s: State, e: Event)
    requires window >= 1 && Explained(window, h, s) && Settled(s)
    ensures Step(window, s, e).maxReorder == Max(s.maxReorder, Depth(window, h, s, e))
  {
    match e
    case Flush =>
      if s.buf != map[] {
        var k :| k in s.buf;
        FlushIsPassTo(s, Highest(s.buf.Keys));
        PassToFields(s, Highest(s.buf.Keys) + 1);
      }
    case Offer(p) =>
      if !s.started {
        StoredDepth(Anchored(s, p), p);
      } else if !Rejects(s, p) {
        if p.seqNo < s.frontier + window {
          OfferDepth(window, s, p);
        } else {
          ForcedDepth(window, h, s, p);
        }
      }
  }

  /** On every run the reported depth is the largest there was, forced packets included. */
  lemma {:induction false} MaxReorderIsDeepest(window: nat, evs: seq<Event>)
    requires window >= 1
    ensures Run(window, evs).maxReorder == Deepest(window, evs)
  {
    if evs != [] {
      var prefix := evs[..|evs| - 1];
      MaxReorderIsDeepest(window, prefix);
      RunExplained(window, prefix);
      StepDepth(window, Track(window, prefix), Run(window, prefix), evs[|evs| - 1]);
    }
  }

  /**
   The statistic to size the window by: on a stream that lost nothing, any other window
   would have held every packet exactly when it is larger than the reported maximum depth.
   */
  lemma {:induction false} MaxReorderIsDepth(window: nat, evs: seq<Event>, other: nat)
    requires window >= 1 && other >= 1 && FromLowest(evs) && NothingLost(window, evs)
    requires InWindow(Allowance(window), evs)
    ensures InWindow(other, evs) <==> Run(window, evs).maxReorder < other
  {
    var last := |evs| - 1;
    if last == 0 {
      FirstDepth(window, evs);
    } else {
      var prefix := evs[..last];
      assert evs == prefix + [evs[last]];
      NothingLostBefore(window, prefix, evs[last].packet);
      MaxReorderIsDepth(window, prefix, other);
      SolidFrontier(window, prefix);
      OfferDepth(window, Run(window, prefix), evs[last].packet);
    }
  }

  lemma NothingLostBefore(window: nat, evs: seq<Event>, p: Packet)
    requires window >= 1 && FromLowest(evs)
    requires NothingLost(window, evs + [Offer(p)])
    ensures NothingLost(window, evs)
  {
    var all := evs + [Offer(p)];
    assert all[..|all| - 1] == evs;
    assert NoRejects(window, evs);
    PlainHistory(window, evs);
    StartedStays(window, Run(window, evs), Offer(p));
    LostIsSolid(window, evs);
    LostIsSolid(window, all);
    SolidStep(window, evs, p);
  }

  /** So the window can be cut down to one more than the reported depth, and no further. */
  lemma WindowMustExceedMaxReorder(window: nat, evs: seq<Event>, other: nat)
    requires window >= 1 && other >= 1 && FromLowest(evs) && NothingLost(window, evs)
    ensures NothingLost(other, evs) <==> Run(window, evs).maxReorder < other
  {
    WindowSufficiency(window, evs);
    WindowSufficiency(other, evs);
    MaxReorderIsDepth(window, evs, Allowance(window));
    MaxReorderIsDepth(window, evs, Allowance(other));
  }

  // ---- duplicates are charged to the line that carried them -------------------------------

  predicate CarriedOn(e: Event, lineB: bool) {
    e.Offer? && (e.packet.line == 1) == lineB
  }

  function OffersOn(evs: seq<Event>, lineB: bool): nat {
    if evs == [] then 0
    else
      OffersOn(evs[..|evs| - 1], lineB) + (if CarriedOn(evs[|evs| - 1], lineB) then 1 else 0)
  }

  /** Event i carries a copy that is not rejected, and is late or not the first of its sequence. */
  ghost predicate Redundant(window: nat, evs: seq<Event>, i: nat)
    requires window >= 1 && i < |evs| && evs[i].Offer?
  {
    var n := evs[i].packet.seqNo;
    KeptCopy(window, evs, i, n) && !(FirstCopy(window, evs, i, n) && InTime(window, evs, i, n))
  }

  /** How many of the line's copies were redundant. */
  ghost function RedundantOn(window: nat, evs: seq<Event>, lineB: bool): (r: nat)
    requires window >= 1
    ensures r <= OffersOn(evs, lineB)
  {
    if evs == [] then 0
    else
      var last := |evs| - 1;
      RedundantOn(window, evs[..last], lineB)
      + (if CarriedOn(evs[last], lineB) && Redundant(window, evs, last) then 1 else 0)
  }

  function Charged(dups: nat, s: State, e: Event, lineB: bool): nat {
    if CarriedOn(e, lineB) && !Rejects(s, e.packet) && !Takes(s, e.packet) then dups + 1 else dups
  }

  lemma StoredDuplicates(s: State, p: Packet)
    ensures Stored(s, p).dupA == s.dupA + (if p.seqNo in s.buf && p.line != 1 then 1 else 0)
    ensures Stored(s, p).dupB == s.dupB + (if p.seqNo in s.buf && p.line == 1 then 1 else 0)
  {
    if p.seqNo !in s.buf {
      var u := s.(buf := s.buf[p.seqNo := p.record]);
      ReleaseIsPassTo(u);
      PassToFields(u, FirstHole(u.buf.Keys, u.frontier));
    }
  }

  lemma ForceDuplicates(window: nat, s: State, seqNo: nat)
    requires window >= 1 && Windowed(window, s)
    ensures var t := Force(window, s, seqNo);
            t.dupA == s.dupA && t.dupB == s.dupB && (seqNo in t.buf <==> seqNo in s.buf)
  {
    ForceIsPassTo(window, s, seqNo);
    if s.frontier + window <= seqNo {
      PassToFields(s, FirstHole(s.buf.Keys, seqNo - window + 1));
      PassToBuffer(s, FirstHole(s.buf.Keys, seqNo - window + 1));
    }
  }

  lemma StepDuplicates(window: nat, s: State, e: Event)
    requires window >= 1 && Settled(s) && Windowed(window, s)
    ensures Step(window, s, e).dupA == Charged(s.dupA, s, e, false)
    ensures Step(window, s, e).dupB == Charged(s.dupB, s, e, true)
  {
    match e
    case Flush =>
      if s.buf != map[] {
        var k :| k in s.buf;
        FlushIsPassTo(s, Highest(s.buf.Keys));
        PassToFields(s, Highest(s.buf.Keys) + 1);
      }
    case Offer(p) =>
      var a := Anchored(s, p);
      if a.frontier <= p.seqNo <= a.frontier + MAX_GAP {
        ForceDuplicates(window, a, p.seqNo);
        StoredDuplicates(Deepened(Force(window, a, p.seqNo), p.seqNo), p);
      }
  }

  /** The guard the code branches on says exactly that the copy is the first and in time. */
  lemma TakesIffUseful(window: nat, evs: seq<Event>, p: Packet)
    requires window >= 1
    ensures var all, n := evs + [Offer(p)], p.seqNo;
            Takes(Run(window, evs), p)
            <==> FirstCopy(window, all, |evs|, n) && InTime(window, all, |evs|, n)
  {
    var all, n := evs + [Offer(p)], p.seqNo;
    assert all[..|evs|] == evs;
    RunExplained(window, evs);
    forall j: nat | j < |evs| ensures KeptCopy(window, all, j, n) == KeptCopy(window, evs, j, n) {
      KeptCopyExtends(window, all, j, n);
    }
    if Run(window, evs).started {
      KeptIsOffered(window, evs, n);
    } else {
      NothingBefore(window, evs);
    }
  }

  /**
   Duplicates are counted exactly, and charged to the line that carried them: a copy counts
   if it is not rejected and either comes after the frontier has passed its sequence or is
   not the first copy of it.
   */
  lemma {:induction false} DuplicatesPerLine(window: nat, evs: seq<Event>)
    requires window >= 1
    ensures Run(window, evs).dupA == RedundantOn(window, evs, false)
    ensures Run(window, evs).dupB == RedundantOn(window, evs, true)
  {
    if evs != [] {
      var last := |evs| - 1;
      var prefix, e := evs[..last], evs[last];
      assert evs == prefix + [e];
      DuplicatesPerLine(window, prefix);
      RunExplained(window, prefix);
      StepDuplicates(window, Run(window, prefix), e);
      if e.Offer? {
        TakesIffUseful(window, prefix, e.packet);
      }
    }
  }
}
