/** How the size of the reorder window decides what is delivered and what is lost. */
module ArbitratorWindows {
  import opened Wire
  import opened Sets
  import opened Holes
  import opened ArbitratorSpec
  import opened ArbitratorRuns
  import opened ArbitratorTheorems

  /** No packet of the run is dropped as corrupt. */
  ghost predicate NoRejects(window: nat, evs: seq<Event>)
    requires window >= 1
  {
    evs == [] ||
    (var last := |evs| - 1;
     && NoRejects(window, evs[..last])
     && (evs[last].Offer? ==> !Rejects(Run(window, evs[..last]), evs[last].packet)))
  }

  // ---- a larger window never hurts -------------------------------------------

  /** The packet is new to the arbitrator and will be kept. */
  predicate Takes(s: State, p: Packet) {
    !Rejects(s, p) && (s.started ==> s.frontier <= p.seqNo && p.seqNo !in s.buf)
  }

  /** The narrow window would keep the packet, the wide one drops it as corrupt. */
  ghost predicate WideRefuses(w: nat, w': nat, evs: seq<Event>, e: Event)
    requires 1 <= w <= w'
  {
    e.Offer? && Rejects(Run(w', evs), e.packet) && Takes(Run(w, evs), e.packet)
  }

  /** At no point does the wide window refuse what the narrow one keeps. */
  ghost predicate NoWideRefusal(w: nat, w': nat, evs: seq<Event>)
    requires 1 <= w <= w'
  {
    evs == [] ||
    (var last := |evs| - 1;
     NoWideRefusal(w, w', evs[..last]) && !WideRefuses(w, w', evs[..last], evs[last]))
  }

  /** The history under the wider window accepts at least as much and waits at least as long. */
  ghost predicate Wider(narrow: History, wide: History) {
    && wide.anchor == narrow.anchor
    && wide.top == narrow.top
    && wide.floor <= narrow.floor
    && (forall n | narrow.floor <= n :: n in narrow.kept <==> n in wide.kept)
    && (forall n | n in narrow.accepted ::
          n in wide.accepted && wide.accepted[n] == narrow.accepted[n])
  }

  /** What the two runs have in common while no packet is refused by the wide one alone. */
  ghost predicate Compares(w: nat, w': nat, evs: seq<Event>)
    requires 1 <= w <= w'
  {
    && Run(w, evs).started == Run(w', evs).started
    && Wider(Track(w, evs), Track(w', evs))
    && Run(w', evs).frontier <= Run(w, evs).frontier
  }

  lemma {:induction false} WiderRuns(w: nat, w': nat, evs: seq<Event>)
    requires 1 <= w <= w' && NoWideRefusal(w, w', evs)
    ensures Compares(w, w', evs)
  {
    if evs != [] {
      var last := |evs| - 1;
      WiderRuns(w, w', evs[..last]);
      StartedStays(w, Run(w, evs[..last]), evs[last]);
      StartedStays(w', Run(w', evs[..last]), evs[last]);
      WiderStep(w, w', evs[..last], evs[last]);
      WiderFrontier(w, w', evs);
    }
  }

  lemma WiderFrontier(w: nat, w': nat, evs: seq<Event>)
    requires 1 <= w <= w' && Run(w, evs).started == Run(w', evs).started
    requires Wider(Track(w, evs), Track(w', evs))
    ensures Run(w', evs).frontier <= Run(w, evs).frontier
  {
    if Run(w, evs).started {
      var h, h' := Track(w, evs), Track(w', evs);
      FrontierClosedForm(w, evs);
      FrontierClosedForm(w', evs);
      FirstHoleLocal(h.kept, h'.kept, h.floor);
      FirstHoleMonotone(h'.kept, h'.floor, h.floor);
    } else {
      RunExplained(w, evs);
      RunExplained(w', evs);
    }
  }

  lemma WiderStep(w: nat, w': nat, evs: seq<Event>, e: Event)
    requires 1 <= w <= w' && Compares(w, w', evs) && !WideRefuses(w, w', evs, e)
    ensures Wider(Note(w, Track(w, evs), Run(w, evs), e), Note(w', Track(w', evs), Run(w', evs), e))
  {
    RunExplained(w, evs);
    RunExplained(w', evs);
    if e.Offer? && Run(w, evs).started {
      var p := e.packet;
      if Rejects(Run(w', evs), p) {
        if !Rejects(Run(w, evs), p) {
          HarmlessReject(w, Track(w, evs), Track(w', evs), Run(w, evs), p);
        }
      } else {
        WiderOffer(w, w', Track(w, evs), Track(w', evs), Run(w, evs), Run(w', evs), p);
      }
    }
  }

  /** A copy the narrow window drops anyway leaves the comparison as it is. */
  lemma HarmlessReject(w: nat, h: History, h': History, s: State, p: Packet)
    requires w >= 1 && Explained(w, h, s) && s.started && Wider(h, h')
    requires forall n | n in h'.accepted :: n in h'.kept
    requires !Rejects(s, p) && (p.seqNo < s.frontier || p.seqNo in s.buf)
    ensures Wider(Note(w, h, s, Offer(p)), h')
  {
    var k := Note(w, h, s, Offer(p));
    assert p.seqNo <= h.top;
    assert p.seqNo in h.accepted || p.seqNo < h.floor;
    assert k.accepted == h.accepted;
  }

  lemma WiderOffer(w: nat, w': nat, h: History, h': History, s: State, s': State, p: Packet)
    requires 1 <= w <= w' && Explained(w, h, s) && Explained(w', h', s')
    requires s.started && s'.started && Wider(h, h') && s'.frontier <= s.frontier
    requires !Rejects(s', p)
    ensures Wider(Note(w, h, s, Offer(p)), Note(w', h', s', Offer(p)))
  {
    var n := p.seqNo;
    if s.frontier <= n && n !in h.accepted {
      assert n !in h.kept && n !in h'.kept && n !in h'.accepted;
    }
  }

  ghost function Elements(s: seq<nat>): set<nat> {
    set n | n in s
  }

  lemma {:induction false} IncreasingSize(s: seq<nat>)
    requires Increasing(s)
    ensures |s| == |Elements(s)|
  {
    if s != [] {
      var x, rest := s[|s| - 1], s[..|s| - 1];
      IncreasingSize(rest);
      assert s == rest + [x];
      assert Elements(s) == Elements(rest) + {x};
      assert x !in rest;
    }
  }

  /**
   Enlarging the window never hurts as long as the wide window refuses nothing the narrow
   one keeps: the wider frontier is never ahead, and everything it has lost the narrow run
   has lost too.
   */
  lemma WiderWindowNeverHurts(w: nat, w': nat, evs: seq<Event>)
    requires 1 <= w <= w' && NoWideRefusal(w, w', evs) && Run(w', evs).started
    ensures Run(w, evs).started
    ensures Run(w', evs).frontier <= Run(w, evs).frontier
    ensures forall n | n in Run(w', evs).lost :: n in Run(w, evs).lost
    ensures |Run(w', evs).lost| <= |Run(w, evs).lost|
  {
    WiderRuns(w, w', evs);
    LostInNarrow(w, w', evs);
    ExactlyOnceInOrder(w, evs);
    ExactlyOnceInOrder(w', evs);
    FewerLost(Run(w', evs).lost, Run(w, evs).lost);
  }

  lemma FewerLost(l: seq<nat>, m: seq<nat>)
    requires Increasing(l) && Increasing(m) && forall n | n in l :: n in m
    ensures |l| <= |m|
  {
    IncreasingSize(l);
    IncreasingSize(m);
    SubsetSize(Elements(l), Elements(m));
  }

  lemma LostInNarrow(w: nat, w': nat, evs: seq<Event>)
    requires 1 <= w <= w' && NoWideRefusal(w, w', evs) && Run(w', evs).started
    ensures forall n | n in Run(w', evs).lost :: n in Run(w, evs).lost
  {
    WiderRuns(w, w', evs);
    RunExplained(w, evs);
    RunExplained(w', evs);
    var h, h' := Track(w, evs), Track(w', evs);
    MissingMeaning(h.accepted, h.anchor, Run(w, evs).frontier);
    MissingMeaning(h'.accepted, h'.anchor, Run(w', evs).frontier);
  }

  /** A wide run without rejects refuses nothing, and then the narrow run rejects nothing either. */
  lemma {:induction false} NoRejectsNoRefusal(w: nat, w': nat, evs: seq<Event>)
    requires 1 <= w <= w' && NoRejects(w', evs)
    ensures NoWideRefusal(w, w', evs) && NoRejects(w, evs)
  {
    if evs != [] {
      var last := |evs| - 1;
      NoRejectsNoRefusal(w, w', evs[..last]);
      WiderRuns(w, w', evs[..last]);
    }
  }

  /** What a run delivers once it is flushed: every accepted copy. */
  lemma FlushDelivers(window: nat, evs: seq<Event>)
    requires window >= 1 && Run(window, evs).started
    ensures forall x :: x in Run(window, evs + [Flush]).out
                        <==> x.0 in Track(window, evs).accepted
                             && Track(window, evs).accepted[x.0] == x.1
  {
    var all := evs + [Flush];
    assert all[..|all| - 1] == evs;
    StartedStays(window, Run(window, evs), Flush);
    FlushDrains(window, evs);
    RunExplained(window, evs);
    RunExplained(window, all);
    var h := Track(window, all);
    DeliveredMembers(h.accepted, h.anchor, Run(window, all).frontier);
    assert forall n | n in h.accepted :: h.anchor <= n < Run(window, all).frontier;
  }

  /** Flushed now, the wider window has delivered everything the narrow one has. */
  ghost predicate Covers(w: nat, w': nat, evs: seq<Event>)
    requires 1 <= w <= w'
  {
    forall x | x in Run(w, evs + [Flush]).out :: x in Run(w', evs + [Flush]).out
  }

  /** After a flush the wider window has delivered everything the narrow one has, same payloads. */
  lemma WiderWindowDeliversMore(w: nat, w': nat, evs: seq<Event>)
    requires 1 <= w <= w' && NoWideRefusal(w, w', evs) && Run(w', evs).started
    ensures Covers(w, w', evs)
    ensures |Run(w', evs + [Flush]).lost| <= |Run(w, evs + [Flush]).lost|
  {
    var all := evs + [Flush];
    assert all[..|all| - 1] == evs;
    WiderRuns(w, w', evs);
    FlushDelivers(w, evs);
    FlushDelivers(w', evs);
    StartedStays(w', Run(w', evs), Flush);
    WiderWindowNeverHurts(w, w', all);
  }

  /** At no point, if flushed there, has the narrow window delivered more. */
  ghost predicate AlwaysCovers(w: nat, w': nat, evs: seq<Event>)
    requires 1 <= w <= w'
  {
    Covers(w, w', evs) && (evs == [] || AlwaysCovers(w, w', evs[..|evs| - 1]))
  }

  lemma UnstartedDeliversNothing(window: nat, evs: seq<Event>)
    requires window >= 1 && !Run(window, evs).started
    ensures Run(window, evs + [Flush]).out == []
  {
    RunExplained(window, evs);
    RunAppend(window, evs, Flush);
  }

  /** A refused packet is delivered by the narrow window and not by the wide one. */
  lemma RefusalUncovers(w: nat, w': nat, evs: seq<Event>, e: Event)
    requires 1 <= w <= w' && Compares(w, w', evs) && WideRefuses(w, w', evs, e)
    ensures !Covers(w, w', evs + [e])
  {
    var more, p := evs + [e], e.packet;
    assert more[..|more| - 1] == evs;
    RunExplained(w, evs);
    RunExplained(w', evs);
    StartedStays(w, Run(w, evs), e);
    StartedStays(w', Run(w', evs), e);
    var h, h' := Track(w, evs), Track(w', evs);
    assert p.seqNo !in Remaining(h.accepted, Run(w, evs).frontier);
    assert p.seqNo !in h.accepted && p.seqNo !in h.kept;
    assert p.seqNo !in h'.kept && p.seqNo !in h'.accepted;
    FlushDelivers(w, more);
    FlushDelivers(w', more);
    assert Track(w, more).accepted == h.accepted[p.seqNo := p.record];
    assert (p.seqNo, p.record) in Run(w, more + [Flush]).out;
    assert Track(w', more).accepted == h'.accepted;
  }

  /**
   The exact condition, for any two window sizes: however long the stream runs, a flush
   always leaves the wider window with everything the narrow one has delivered, if and only
   if the wider window never drops as corrupt a packet that the narrow one keeps.
   */
  lemma {:induction false} WiderCoversIff(w: nat, w': nat, evs: seq<Event>)
    requires 1 <= w <= w'
    ensures AlwaysCovers(w, w', evs) <==> NoWideRefusal(w, w', evs)
  {
    if evs != [] {
      var last := |evs| - 1;
      WiderCoversIff(w, w', evs[..last]);
      if NoWideRefusal(w, w', evs[..last]) && WideRefuses(w, w', evs[..last], evs[last]) {
        WiderRuns(w, w', evs[..last]);
        RefusalUncovers(w, w', evs[..last], evs[last]);
        assert evs == evs[..last] + [evs[last]];
      }
    }
    if NoWideRefusal(w, w', evs) {
      WiderRuns(w, w', evs);
      if Run(w', evs).started {
        WiderWindowDeliversMore(w, w', evs);
      } else {
        UnstartedDeliversNothing(w, evs);
      }
    }
  }

  /**
   Up to the reject distance the condition is simply that both windows reject the same
   packets: a packet only the wide one rejects lies past everything offered so far, and the
   narrow one keeps it.
   */
  lemma OnlyWideRejectIsRefusal(w: nat, w': nat, evs: seq<Event>, e: Event)
    requires 1 <= w <= w' <= MAX_GAP + 1 && NoWideRefusal(w, w', evs) && e.Offer?
    ensures WideRefuses(w, w', evs, e)
            <==> Rejects(Run(w', evs), e.packet) && !Rejects(Run(w, evs), e.packet)
  {
    WiderRuns(w, w', evs);
    RunExplained(w, evs);
    RunExplained(w', evs);
    if Rejects(Run(w', evs), e.packet) {
      var h' := Track(w', evs);
      assert h'.top in h'.accepted;
      assert e.packet.seqNo > h'.top;
    }
  }

  lemma DeliveredMembers(c: map<nat, Record>, a: nat, f: nat)
    ensures forall x :: x in Delivered(c, a, f)
                        <==> a <= x.0 < f && x.0 in c && c[x.0] == x.1
  {
    DeliveredMeaning(c, a, f);
    var d := Delivered(c, a, f);
    forall x: (nat, Record) | a <= x.0 < f && x.0 in c && c[x.0] == x.1
      ensures x in d
    {
      assert x.0 in Seqs(d);
      var i :| 0 <= i < |d| && Seqs(d)[i] == x.0;
      assert d[i] in d;
    }
    forall x | x in d ensures a <= x.0 < f {
      var i :| 0 <= i < |d| && d[i] == x;
    }
  }

  // ---- order of arrival does not move the frontier -----------------------------

  function Offered(evs: seq<Event>): set<nat> {
    if evs == [] then {}
    else
      Offered(evs[..|evs| - 1]) +
      (if evs[|evs| - 1].Offer? then {evs[|evs| - 1].packet.seqNo} else {})
  }

  ghost predicate AllOffers(evs: seq<Event>) {
    forall i | 0 <= i < |evs| :: evs[i].Offer?
  }

  /** Without rejects or flushes, history is the set of offered sequences and the first one. */
  ghost predicate Plain(window: nat, h: History, offered: set<nat>, first: nat) {
    && h.kept == offered && h.anchor == first && IsHighest(offered, h.top)
    && h.floor == Max(first, Max(h.top + 1, window) - window)
  }

  lemma PlainNote(window: nat, h: History, s: State, p: Packet, offered: set<nat>, first: nat)
    requires window >= 1 && s.started && !Rejects(s, p) && Plain(window, h, offered, first)
    ensures Plain(window, Note(window, h, s, Offer(p)), offered + {p.seqNo}, first)
  {
  }

  lemma {:induction false} PlainHistory(window: nat, evs: seq<Event>)
    requires window >= 1 && NoRejects(window, evs) && AllOffers(evs) && evs != []
    ensures Run(window, evs).started
    ensures Plain(window, Track(window, evs), Offered(evs), evs[0].packet.seqNo)
  {
    var last := |evs| - 1;
    var prefix := evs[..last];
    StartedStays(window, Run(window, prefix), evs[last]);
    if last == 0 {
      assert prefix == [];
    } else {
      PlainHistory(window, prefix);
      PlainNote(window, Track(window, prefix), Run(window, prefix), evs[last].packet,
                Offered(prefix), evs[0].packet.seqNo);
    }
  }

  /** Where the frontier comes to rest: a function of the offered set and the first sequence. */
  ghost function RestingPoint(window: nat, offered: set<nat>, first: nat): nat
    requires offered != {}
  {
    FirstHole(offered, Max(first, Max(Highest(offered) + 1, window) - window))
  }

  lemma PlainFrontier(window: nat, evs: seq<Event>)
    requires window >= 1 && NoRejects(window, evs) && AllOffers(evs) && evs != []
    ensures Offered(evs) != {}
    ensures Run(window, evs).frontier
            == RestingPoint(window, Offered(evs), evs[0].packet.seqNo)
  {
    PlainHistory(window, evs);
    FrontierClosedForm(window, evs);
    PlainRest(window, Track(window, evs), Offered(evs), evs[0].packet.seqNo);
  }

  lemma PlainRest(window: nat, h: History, offered: set<nat>, first: nat)
    requires Plain(window, h, offered, first)
    ensures offered != {} && RestingPoint(window, offered, first) == FirstHole(h.kept, h.floor)
  {
    assert Highest(offered) == h.top;
  }

  /** The frontier depends on which sequences were offered, not on their order or payload. */
  lemma FrontierIgnoresOrder(window: nat, evs: seq<Event>, evs': seq<Event>)
    requires window >= 1 && evs != [] && evs' != []
    requires AllOffers(evs) && AllOffers(evs')
    requires NoRejects(window, evs) && NoRejects(window, evs')
    requires Offered(evs) == Offered(evs')
    requires evs[0].packet.seqNo == evs'[0].packet.seqNo
    ensures Run(window, evs).frontier == Run(window, evs').frontier
  {
    var o, a := Offered(evs), evs[0].packet.seqNo;
    assert Run(window, evs).frontier == RestingPoint(window, o, a) by {
      PlainFrontier(window, evs);
    }
    assert Run(window, evs').frontier == RestingPoint(window, o, a) by {
      PlainFrontier(window, evs');
    }
  }

  // ---- when the window is large enough -----------------------------------------

  /** The stream starts at its lowest sequence. */
  ghost predicate FromLowest(evs: seq<Event>) {
    && evs != [] && AllOffers(evs)
    && forall i | 0 <= i < |evs| :: evs[0].packet.seqNo <= evs[i].packet.seqNo
  }

  /** Every packet arrives less than a window ahead of the lowest sequence still missing. */
  ghost predicate InWindow(window: nat, evs: seq<Event>)
    requires FromLowest(evs)
  {
    |evs| == 1 ||
    (var last := |evs| - 1;
     && InWindow(window, evs[..last])
     && evs[last].packet.seqNo
        < FirstHole(Offered(evs[..last]), evs[0].packet.seqNo) + window)
  }

  ghost predicate NothingLost(window: nat, evs: seq<Event>)
    requires window >= 1
  {
    NoRejects(window, evs) && Run(window, evs).lost == []
  }

  ghost predicate Solid(h: History, s: State) {
    forall n | h.anchor <= n < s.frontier :: n in h.accepted
  }

  lemma LostIsSolid(window: nat, evs: seq<Event>)
    requires window >= 1 && Run(window, evs).started
    ensures Run(window, evs).lost == [] <==> Solid(Track(window, evs), Run(window, evs))
  {
    RunExplained(window, evs);
    var h, s := Track(window, evs), Run(window, evs);
    MissingMeaning(h.accepted, h.anchor, s.frontier);
    if s.lost != [] {
      assert s.lost[0] in s.lost;
    }
  }

  lemma SolidFrontier(window: nat, evs: seq<Event>)
    requires window >= 1 && FromLowest(evs) && NothingLost(window, evs)
    ensures Run(window, evs).started
    ensures Run(window, evs).frontier == FirstHole(Offered(evs), evs[0].packet.seqNo)
  {
    PlainHistory(window, evs);
    LostIsSolid(window, evs);
    RunExplained(window, evs);
    FirstHoleUnique(Offered(evs), evs[0].packet.seqNo, Run(window, evs).frontier);
  }

  lemma SolidStep(window: nat, evs: seq<Event>, p: Packet)
    requires window >= 1 && Run(window, evs).started && !Rejects(Run(window, evs), p)
    ensures Solid(Track(window, evs + [Offer(p)]), Run(window, evs + [Offer(p)]))
            <==> Solid(Track(window, evs), Run(window, evs))
                 && p.seqNo < Run(window, evs).frontier + window
  {
    var all := evs + [Offer(p)];
    assert all[..|all| - 1] == evs;
    RunExplained(window, evs);
    RunExplained(window, all);
    StartedStays(window, Run(window, evs), Offer(p));
    var h, h', s, s' := Track(window, evs), Track(window, all), Run(window, evs), Run(window, all);
    FrontierGrows(window, evs, Offer(p));
    if p.seqNo >= s.frontier + window {
      assert s.frontier !in h'.accepted;
      assert s.frontier < s'.frontier;
    } else if Solid(h, s) {
      assert h'.floor <= s.frontier;
    } else {
      var n :| h.anchor <= n < s.frontier && n !in h.accepted;
      assert n !in h'.accepted;
    }
  }

  lemma FrontierGrows(window: nat, evs: seq<Event>, e: Event)
    requires window >= 1 && Run(window, evs).started
    ensures Run(window, evs).frontier <= Run(window, evs + [e]).frontier
  {
    var all := evs + [e];
    assert all[..|all| - 1] == evs;
    StartedStays(window, Run(window, evs), e);
    FrontierClosedForm(window, evs);
    FrontierClosedForm(window, all);
    var h, h' := Track(window, evs), Track(window, all);
    FirstHoleGrows(h.kept, h'.kept, h.floor, h'.floor);
  }

  lemma FirstHoleGrows(s: set<nat>, t: set<nat>, from: nat, from': nat)
    requires s <= t && from <= from'
    ensures FirstHole(s, from) <= FirstHole(t, from')
  {
    FirstHoleMonotone(t, from, from');
    var h := FirstHole(t, from);
    assert h !in s;
  }

  /** How far ahead of the lowest missing sequence a packet may be: window and reject distance. */
  function Allowance(window: nat): nat {
    if window < MAX_GAP + 1 then window else MAX_GAP + 1
  }

  /**
   The window is large enough exactly when every packet arrives within it: a stream that
   starts at its lowest sequence loses nothing if and only if no packet is ever a full
   window, or more than the reject distance, ahead of the lowest missing sequence.
   */
  lemma {:induction false} WindowSufficiency(window: nat, evs: seq<Event>)
    requires window >= 1 && FromLowest(evs)
    ensures InWindow(Allowance(window), evs) <==> NothingLost(window, evs)
  {
    var last := |evs| - 1;
    var prefix := evs[..last];
    assert evs == prefix + [evs[last]];
    StartedStays(window, Run(window, prefix), evs[last]);
    if last == 0 {
      assert prefix == [];
      RunExplained(window, evs);
      LostIsSolid(window, evs);
      assert Track(window, evs).floor == Track(window, evs).anchor;
      assert NoRejects(window, prefix);
    } else {
      WindowSufficiency(window, prefix);
      SufficiencyStep(window, prefix, evs[last].packet);
    }
  }

  lemma SufficiencyStep(window: nat, evs: seq<Event>, p: Packet)
    requires window >= 1 && FromLowest(evs) && FromLowest(evs + [Offer(p)])
    ensures NothingLost(window, evs + [Offer(p)])
            <==> NothingLost(window, evs)
                 && p.seqNo < FirstHole(Offered(evs), evs[0].packet.seqNo) + Allowance(window)
  {
    var all := evs + [Offer(p)];
    assert all[..|all| - 1] == evs;
    StartedStays(window, Run(window, evs[..|evs| - 1]), evs[|evs| - 1]);
    StartedStays(window, Run(window, evs), Offer(p));
    LostIsSolid(window, evs);
    LostIsSolid(window, all);
    if NothingLost(window, evs) {
      SolidFrontier(window, evs);
    }
    if !Rejects(Run(window, evs), p) {
      SolidStep(window, evs, p);
    }
  }

  /** A complete stream within the window comes out whole, in order, with nothing left over. */
  lemma CompleteDelivery(window: nat, evs: seq<Event>, b: nat)
    requires window >= 1 && FromLowest(evs) && InWindow(Allowance(window), evs)
    requires forall n :: n in Offered(evs) <==> evs[0].packet.seqNo <= n < b
    ensures var s, a := Run(window, evs), evs[0].packet.seqNo;
            && s.lost == [] && s.buf == map[] && s.frontier == b
            && s.rejected == 0
            && Seqs(s.out) == seq(b - a, i => a + i)
  {
    var a := evs[0].packet.seqNo;
    WindowSufficiency(window, evs);
    assert Run(window, evs).frontier == b by {
      SolidFrontier(window, evs);
      assert a in Offered(evs);
      FirstHoleUnique(Offered(evs), a, b);
    }
    PlainHistory(window, evs);
    RunExplained(window, evs);
    LostIsSolid(window, evs);
    NeverRejected(window, evs);
    SolidDelivery(window, Track(window, evs), Run(window, evs), a, b);
  }

  lemma SolidDelivery(window: nat, h: History, s: State, a: nat, b: nat)
    requires Explained(window, h, s) && s.started && Solid(h, s)
    requires h.anchor == a && s.frontier == b && forall n | n in h.kept :: n < b
    ensures s.buf == map[] && Seqs(s.out) == seq(b - a, i => a + i)
  {
    assert s.buf.Keys == {};
    WholeDelivery(h.accepted, a, b);
  }

  lemma {:induction false} WholeDelivery(c: map<nat, Record>, a: nat, b: nat)
    requires a <= b && forall n | a <= n < b :: n in c
    ensures Seqs(Delivered(c, a, b)) == seq(b - a, i => a + i)
  {
    if a < b {
      WholeDelivery(c, a, b - 1);
      assert Seqs(Delivered(c, a, b)) == Seqs(Delivered(c, a, b - 1)) + [b - 1];
    }
  }

  lemma {:induction false} NeverRejected(window: nat, evs: seq<Event>)
    requires window >= 1 && NoRejects(window, evs)
    ensures Run(window, evs).rejected == 0
  {
    if evs != [] {
      var last := |evs| - 1;
      NeverRejected(window, evs[..last]);
      RejectedStep(window, Run(window, evs[..last]), evs[last]);
    }
  }

  lemma RejectedStep(window: nat, s: State, e: Event)
    requires window >= 1 && Settled(s)
    ensures Step(window, s, e).rejected
            == s.rejected + (if e.Offer? && Rejects(s, e.packet) then 1 else 0)
  {
    match e
    case Flush =>
      if s.buf != map[] {
        var k :| k in s.buf;
        FlushIsPassTo(s, Highest(s.buf.Keys));
        PassToFields(s, Highest(s.buf.Keys) + 1);
      }
    case Offer(p) =>
      var a := Anchored(s, p);
      if a.frontier <= p.seqNo <= a.frontier + MAX_GAP {
        ForceRejectsNothing(window, a, p.seqNo);
        StoreRejectsNothing(Deepened(Force(window, a, p.seqNo), p.seqNo), p);
      }
  }

  lemma ForceRejectsNothing(window: nat, s: State, seqNo: nat)
    requires window >= 1
    ensures Force(window, s, seqNo).rejected == s.rejected
  {
    ForceIsPassTo(window, s, seqNo);
    if s.frontier + window <= seqNo {
      PassToFields(s, FirstHole(s.buf.Keys, seqNo - window + 1));
    }
  }

  lemma StoreRejectsNothing(s: State, p: Packet)
    ensures Stored(s, p).rejected == s.rejected
  {
    if p.seqNo !in s.buf {
      var u := s.(buf := s.buf[p.seqNo := p.record]);
      ReleaseIsPassTo(u);
      PassToFields(u, FirstHole(u.buf.Keys, u.frontier));
    }
  }
}
