/** Where the window laws stop: the corrupt-sequence reject and the width of a machine word. */
module ArbitratorLimits {
  import opened Wire
  import opened Holes
  import opened ArbitratorSpec
  import opened ArbitratorRuns
  import opened ArbitratorTheorems
  import opened ArbitratorWindows

  function Sent(n: nat, r: Record): Event {
    Offer(Packet(n, 0, r))
  }

  lemma FirstPacket(window: nat, n: nat, r: Record)
    requires window >= 1
    ensures var s := Run(window, [Sent(n, r)]);
            s.started && s.frontier == n + 1 && s.buf == map[]
    ensures NoRejects(window, [Sent(n, r)]) && Offered([Sent(n, r)]) == {n}
    ensures Track(window, [Sent(n, r)]).kept == {n}
  {
    var evs := [Sent(n, r)];
    assert evs[..0] == [];
    StartedStays(window, INITIAL, evs[0]);
    RunExplained(window, evs);
    assert NoRejects(window, evs[..0]);
    var s := Run(window, evs);
    assert s.frontier !in Track(window, evs).accepted;
    assert s.buf.Keys == {};
  }

  /**
   The reject distance caps the window: past MAX_GAP + 1, a packet well inside the window is
   dropped as corrupt.
   */
  lemma OversizedWindowRejects(window: nat, r: Record)
    requires window > MAX_GAP + 1
    ensures var evs := [Sent(0, r), Sent(MAX_GAP + 2, r)];
            FromLowest(evs) && InWindow(window, evs) && !NothingLost(window, evs)
  {
    var evs := [Sent(0, r), Sent(MAX_GAP + 2, r)];
    assert evs[..1] == [Sent(0, r)];
    FirstPacket(window, 0, r);
    FirstHoleUnique({0}, 0, 1);
    assert InWindow(window, evs[..1]);
  }

  lemma TwoPackets(window: nat, r: Record)
    requires 2 <= window <= MAX_GAP
    ensures var s := Run(window, [Sent(0, r), Sent(MAX_GAP, r)]);
            s.started && s.frontier == MAX_GAP + 1 - window
    ensures Track(window, [Sent(0, r), Sent(MAX_GAP, r)]).kept == {0, MAX_GAP}
  {
    var evs := [Sent(0, r), Sent(MAX_GAP, r)];
    assert evs[..1] == [Sent(0, r)];
    FirstPacket(window, 0, r);
    StartedStays(window, Run(window, evs[..1]), evs[1]);
    FrontierClosedForm(window, evs);
    FirstHoleUnique({0, MAX_GAP}, MAX_GAP + 1 - window, MAX_GAP + 1 - window);
  }

  /**
   For any two window sizes there is a stream, with a packet rejected under the wider
   window only, of which the narrow window delivers a message that the wider one never does.
   */
  lemma RejectsCanHurt(w: nat, w': nat, r: Record)
    requires 2 <= w < w' <= MAX_GAP
    ensures var x := MAX_GAP + 1 - w + MAX_GAP;
            var evs := [Sent(0, r), Sent(MAX_GAP, r), Sent(x, r), Flush];
            x in Seqs(Run(w, evs).out) && x !in Seqs(Run(w', evs).out)
  {
    var x := MAX_GAP + 1 - w + MAX_GAP;
    var two := [Sent(0, r), Sent(MAX_GAP, r)];
    var three := two + [Sent(x, r)];
    var evs := [Sent(0, r), Sent(MAX_GAP, r), Sent(x, r), Flush];
    assert evs == three + [Flush] && three[..2] == two;
    TwoPackets(w, r);
    TwoPackets(w', r);
    Delivers(w, two, x, r);
    NeverDelivers(w', two, x, r);
  }

  lemma Delivers(window: nat, evs: seq<Event>, x: nat, r: Record)
    requires window >= 1 && Run(window, evs).started
    requires Run(window, evs).frontier <= x <= Run(window, evs).frontier + MAX_GAP
    ensures x in Seqs(Run(window, evs + [Sent(x, r)] + [Flush]).out)
  {
    var more := evs + [Sent(x, r)];
    var all := more + [Flush];
    assert more[..|evs|] == evs && all[..|more|] == more;
    StartedStays(window, Run(window, evs), Sent(x, r));
    assert x in Track(window, more).accepted;
    RunExplained(window, more);
    FlushDrains(window, more);
    StartedStays(window, Run(window, more), Flush);
    RunExplained(window, all);
    DeliveredMeaning(Track(window, all).accepted, Track(window, all).anchor,
                     Run(window, all).frontier);
  }

  lemma NeverDelivers(window: nat, evs: seq<Event>, x: nat, r: Record)
    requires window >= 1 && Run(window, evs).started
    requires Run(window, evs).frontier + MAX_GAP < x && x !in Track(window, evs).kept
    ensures x !in Seqs(Run(window, evs + [Sent(x, r)] + [Flush]).out)
  {
    var more := evs + [Sent(x, r)];
    var all := more + [Flush];
    assert more[..|evs|] == evs && all[..|more|] == more;
    StartedStays(window, Run(window, evs), Sent(x, r));
    StartedStays(window, Run(window, more), Flush);
    RunExplained(window, all);
    DeliveredMeaning(Track(window, all).accepted, Track(window, all).anchor,
                     Run(window, all).frontier);
  }

  // ---- the reject distance ---------------------------------------------------------------

  /**
   A packet is rejected, and then changes nothing but the count, exactly when it is more than
   1048576 ahead of the frontier; any other leaves the frontier within a window of it.
   */
  lemma RejectIff(window: nat, evs: seq<Event>, p: Packet)
    requires window >= 1
    ensures var s, r := Run(window, evs), Run(window, evs + [Offer(p)]);
            var far := s.started && p.seqNo > s.frontier + 1048576;
            && r.rejected == s.rejected + (if far then 1 else 0)
            && (far ==> r == s.(rejected := s.rejected + 1))
            && (!far ==> r.started && p.seqNo < r.frontier + window)
  {
    RunAppend(window, evs, Offer(p));
    var s := Run(window, evs);
    RunExplained(window, evs);
    RejectedStep(window, s, Offer(p));
    if !Rejects(s, p) {
      NotRejected(window, evs, p);
    }
  }

  lemma NotRejected(window: nat, evs: seq<Event>, p: Packet)
    requires window >= 1 && !Rejects(Run(window, evs), p)
    ensures var r := Run(window, evs + [Offer(p)]); r.started && p.seqNo < r.frontier + window
  {
    var all := evs + [Offer(p)];
    assert all[..|evs|] == evs;
    RunExplained(window, evs);
    RunExplained(window, all);
    StartedStays(window, Run(window, evs), Offer(p));
    if Run(window, evs).started && p.seqNo < Run(window, evs).frontier {
      assert Run(window, all).frontier == Run(window, evs).frontier;
    } else {
      assert p.seqNo in Track(window, all).accepted;
    }
  }

  // ---- machine words ---------------------------------------------------------------

  ghost predicate Below(limit: nat, evs: seq<Event>) {
    forall i | 0 <= i < |evs| :: evs[i].Offer? ==> evs[i].packet.seqNo < limit
  }

  /**
   If no packet carries `limit` or more, the frontier, every buffered sequence and the counts
   of delivered and lost messages stay within it; the duplicate and reject counts together
   never exceed the number of packets offered. So with limit = 2^64 - 1, and no more packets
   than that, no 64-bit field of the original wraps.
   */
  lemma FrontierFits(window: nat, evs: seq<Event>, limit: nat)
    requires window >= 1 && Run(window, evs).started && Below(limit, evs)
    ensures Track(window, evs).top < limit
    ensures Run(window, evs).frontier <= limit
    ensures forall n | n in Run(window, evs).buf :: n < limit
    ensures |Run(window, evs).out| + |Run(window, evs).lost| <= limit
    ensures Run(window, evs).dupA + Run(window, evs).dupB + Run(window, evs).rejected <= Offers(evs)
  {
    TopFits(window, evs, limit);
    RunExplained(window, evs);
    CountsTile(window, evs);
    Conservation(window, evs);
  }

  lemma {:induction false} TopFits(window: nat, evs: seq<Event>, limit: nat)
    requires window >= 1 && Run(window, evs).started && Below(limit, evs)
    ensures Track(window, evs).top < limit
  {
    var last := |evs| - 1;
    var prefix := evs[..last];
    StartedStays(window, Run(window, prefix), evs[last]);
    if Run(window, prefix).started {
      TopFits(window, prefix, limit);
    }
  }
}
