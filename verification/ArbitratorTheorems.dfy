/** What the arbitrator promises over whole runs. */
module ArbitratorTheorems {
  import opened Wire
  import opened Holes
  import opened ArbitratorSpec
  import opened ArbitratorRuns

  // ---- exactly once, in order, exact gaps ---------------------------------------

  ghost predicate Increasing(s: seq<nat>) {
    forall i, j | 0 <= i < j < |s| :: s[i] < s[j]
  }

  function Seqs(out: seq<(nat, Record)>): (r: seq<nat>)
    ensures |r| == |out| && forall i | 0 <= i < |r| :: r[i] == out[i].0
  {
    seq(|out|, i requires 0 <= i < |out| => out[i].0)
  }

  lemma SeqsAppend(d: seq<(nat, Record)>, x: (nat, Record))
    ensures Seqs(d + [x]) == Seqs(d) + [x.0]
  {
  }

  lemma IncreasingAppend(s: seq<nat>, n: nat)
    requires Increasing(s) && forall m | m in s :: m < n
    ensures Increasing(s + [n])
  {
    assert forall i | 0 <= i < |s| :: s[i] in s;
  }

  lemma {:induction false} DeliveredOrder(c: map<nat, Record>, a: nat, f: nat)
    ensures Increasing(Seqs(Delivered(c, a, f)))
    ensures forall n :: n in Seqs(Delivered(c, a, f)) <==> a <= n < f && n in c
  {
    if a < f {
      DeliveredOrder(c, a, f - 1);
      var d := Delivered(c, a, f - 1);
      if f - 1 in c {
        SeqsAppend(d, (f - 1, c[f - 1]));
        IncreasingAppend(Seqs(d), f - 1);
      }
    }
  }

  lemma {:induction false} DeliveredPayloads(c: map<nat, Record>, a: nat, f: nat)
    ensures forall x | x in Delivered(c, a, f) :: a <= x.0 < f && x.0 in c && c[x.0] == x.1
  {
    if a < f {
      DeliveredPayloads(c, a, f - 1);
    }
  }

  lemma DeliveredMeaning(c: map<nat, Record>, a: nat, f: nat)
    ensures Increasing(Seqs(Delivered(c, a, f)))
    ensures forall i | 0 <= i < |Delivered(c, a, f)| :: a <= Delivered(c, a, f)[i].0 < f
    ensures forall n :: n in Seqs(Delivered(c, a, f)) <==> a <= n < f && n in c
    ensures forall x | x in Delivered(c, a, f) :: x.0 in c && c[x.0] == x.1
  {
    DeliveredOrder(c, a, f);
    DeliveredPayloads(c, a, f);
    var d := Delivered(c, a, f);
    assert forall i | 0 <= i < |d| :: d[i] in d;
  }

  lemma AppendMembers(s: seq<nat>, x: nat, n: int)
    ensures n in s + [x] <==> n in s || n == x
  {
  }

  lemma {:induction false} MissingMember(c: map<nat, Record>, a: nat, f: nat, n: int)
    ensures n in Missing(c, a, f) <==> a <= n < f && n !in c
  {
    if a < f {
      MissingMember(c, a, f - 1, n);
      AppendMembers(Missing(c, a, f - 1), f - 1, n);
    }
  }

  lemma {:induction false} MissingMeaning(c: map<nat, Record>, a: nat, f: nat)
    ensures Increasing(Missing(c, a, f))
    ensures forall n :: n in Missing(c, a, f) <==> a <= n < f && n !in c
  {
    forall n ensures n in Missing(c, a, f) <==> a <= n < f && n !in c {
      MissingMember(c, a, f, n);
    }
    if a < f {
      MissingMeaning(c, a, f - 1);
      if f - 1 !in c {
        IncreasingAppend(Missing(c, a, f - 1), f - 1);
      }
    }
  }

  /** Delivered and lost sequences each come in order and together tile [anchor, frontier). */
  lemma ExactlyOnceInOrder(window: nat, evs: seq<Event>)
    requires window >= 1 && Run(window, evs).started
    ensures var s, a := Run(window, evs), Track(window, evs).anchor;
            && Increasing(Seqs(s.out)) && Increasing(s.lost)
            && (forall n :: a <= n < s.frontier <==> n in Seqs(s.out) || n in s.lost)
            && (forall n | n in s.lost :: n !in Seqs(s.out))
  {
    RunExplained(window, evs);
    var s, h := Run(window, evs), Track(window, evs);
    DeliveredMeaning(h.accepted, h.anchor, s.frontier);
    MissingMeaning(h.accepted, h.anchor, s.frontier);
  }

  lemma {:induction false} LedgerSize(c: map<nat, Record>, a: nat, f: nat)
    requires a <= f
    ensures |Delivered(c, a, f)| + |Missing(c, a, f)| == f - a
  {
    if a < f {
      LedgerSize(c, a, f - 1);
    }
  }

  /** The delivered and the gap count add up to the distance the frontier has come. */
  lemma CountsTile(window: nat, evs: seq<Event>)
    requires window >= 1 && Run(window, evs).started
    ensures var s := Run(window, evs);
            |s.out| + |s.lost| == s.frontier - Track(window, evs).anchor
  {
    RunExplained(window, evs);
    var s, h := Run(window, evs), Track(window, evs);
    LedgerSize(h.accepted, h.anchor, s.frontier);
  }

  /** Event i carries a copy of n that the arbitrator does not reject. */
  ghost predicate KeptCopy(window: nat, evs: seq<Event>, i: nat, n: nat)
    requires window >= 1
  {
    && i < |evs| && evs[i].Offer? && evs[i].packet.seqNo == n
    && !Rejects(Run(window, evs[..i]), evs[i].packet)
  }

  /** ... and it arrives before the frontier has passed n. */
  ghost predicate InTime(window: nat, evs: seq<Event>, i: nat, n: nat)
    requires window >= 1
  {
    && KeptCopy(window, evs, i, n)
    && (Run(window, evs[..i]).started ==> Run(window, evs[..i]).frontier <= n)
  }

  lemma KeptCopyExtends(window: nat, evs: seq<Event>, i: nat, n: nat)
    requires window >= 1 && i + 1 < |evs|
    ensures KeptCopy(window, evs, i, n) == KeptCopy(window, evs[..|evs| - 1], i, n)
    ensures InTime(window, evs, i, n) == InTime(window, evs[..|evs| - 1], i, n)
  {
    assert evs[..|evs| - 1][..i] == evs[..i];
  }

  lemma {:induction false} KeptIsOffered(window: nat, evs: seq<Event>, n: nat)
    requires window >= 1 && Run(window, evs).started
    ensures n in Track(window, evs).kept <==> exists i :: KeptCopy(window, evs, i, n)
  {
    var last := |evs| - 1;
    var prefix := evs[..last];
    forall i: nat | i < last
      ensures KeptCopy(window, evs, i, n) == KeptCopy(window, prefix, i, n)
    {
      KeptCopyExtends(window, evs, i, n);
    }
    if Run(window, prefix).started {
      KeptIsOffered(window, prefix, n);
      if n in Track(window, prefix).kept {
        var i :| KeptCopy(window, prefix, i, n);
        assert KeptCopy(window, evs, i, n);
      } else if n in Track(window, evs).kept {
        assert KeptCopy(window, evs, last, n);
      }
    } else {
      NothingBefore(window, prefix);
      if n in Track(window, evs).kept {
        assert KeptCopy(window, evs, last, n);
      }
    }
  }

  lemma {:induction false} NothingBefore(window: nat, evs: seq<Event>)
    requires window >= 1 && !Run(window, evs).started
    ensures forall i | 0 <= i < |evs| :: evs[i].Flush?
  {
    if evs != [] {
      var last := |evs| - 1;
      RunExplained(window, evs[..last]);
      RunExplained(window, evs);
      StartedStays(window, Run(window, evs[..last]), evs[last]);
      NothingBefore(window, evs[..last]);
      assert forall i | 0 <= i < last :: evs[i] == evs[..last][i];
    }
  }

  lemma StartedStays(window: nat, s: State, e: Event)
    requires window >= 1 && Settled(s) && Windowed(window, s)
    ensures Step(window, s, e).started == (s.started || e.Offer?)
  {
    match e
    case Flush =>
      if s.buf != map[] {
        assert s.buf.Keys != {} by {
          var k :| k in s.buf;
        }
        FlushIsPassTo(s, Highest(s.buf.Keys));
        PassToFields(s, Highest(s.buf.Keys) + 1);
      }
    case Offer(p) =>
      var a := Anchored(s, p);
      if a.frontier <= p.seqNo <= a.frontier + MAX_GAP {
        ForceSettles(window, a, p.seqNo);
        var t := Deepened(Force(window, a, p.seqNo), p.seqNo);
        if p.seqNo !in t.buf {
          ReleaseSettles(window, t.(buf := t.buf[p.seqNo := p.record]));
        }
      }
  }

  /** A sequence is accepted exactly when some copy of it came in time. */
  lemma {:induction false} AcceptedIffInTime(window: nat, evs: seq<Event>, n: nat)
    requires window >= 1 && Run(window, evs).started
    ensures n in Track(window, evs).accepted <==> exists i :: InTime(window, evs, i, n)
  {
    var last := |evs| - 1;
    var prefix := evs[..last];
    forall i: nat | i < last
      ensures InTime(window, evs, i, n) == InTime(window, prefix, i, n)
    {
      KeptCopyExtends(window, evs, i, n);
    }
    if Run(window, prefix).started {
      AcceptedIffInTime(window, prefix, n);
      if n in Track(window, prefix).accepted {
        var i :| InTime(window, prefix, i, n);
        assert InTime(window, evs, i, n);
      } else if n in Track(window, evs).accepted {
        assert InTime(window, evs, last, n);
      }
    } else {
      NothingBefore(window, prefix);
      if n in Track(window, evs).accepted {
        assert InTime(window, evs, last, n);
      }
    }
  }

  /** Gaps are exact: lost means that no copy arrived before the frontier went by. */
  lemma LostIffNeverInTime(window: nat, evs: seq<Event>, n: nat)
    requires window >= 1 && Run(window, evs).started
    ensures n in Run(window, evs).lost
            <==> Track(window, evs).anchor <= n < Run(window, evs).frontier
                 && !exists i :: InTime(window, evs, i, n)
  {
    RunExplained(window, evs);
    AcceptedIffInTime(window, evs, n);
    MissingMeaning(Track(window, evs).accepted, Track(window, evs).anchor,
                   Run(window, evs).frontier);
  }

  /** Event i is the first copy of n that is not rejected. */
  ghost predicate FirstCopy(window: nat, evs: seq<Event>, i: nat, n: nat)
    requires window >= 1
  {
    KeptCopy(window, evs, i, n) && forall j: nat | j < i :: !KeptCopy(window, evs, j, n)
  }

  lemma NotKeptBefore(window: nat, evs: seq<Event>, n: nat)
    requires window >= 1
    requires var s, h := Run(window, evs), Track(window, evs);
             s.started ==> s.frontier <= n && n !in h.accepted
    ensures forall i: nat :: !KeptCopy(window, evs, i, n)
  {
    RunExplained(window, evs);
    if Run(window, evs).started {
      KeptIsOffered(window, evs, n);
    } else {
      NothingBefore(window, evs);
    }
  }

  lemma {:induction false} AcceptedIsFirstCopy(window: nat, evs: seq<Event>, n: nat)
      returns (i: nat)
    requires window >= 1 && Run(window, evs).started && n in Track(window, evs).accepted
    ensures FirstCopy(window, evs, i, n)
    ensures Track(window, evs).accepted[n] == evs[i].packet.record
  {
    var last := |evs| - 1;
    var prefix := evs[..last];
    forall j: nat | j < last
      ensures KeptCopy(window, evs, j, n) == KeptCopy(window, prefix, j, n)
    {
      KeptCopyExtends(window, evs, j, n);
    }
    if Run(window, prefix).started && n in Track(window, prefix).accepted {
      i := AcceptedIsFirstCopy(window, prefix, n);
    } else {
      i := last;
      NotKeptBefore(window, prefix, n);
    }
  }

  /** Every delivered payload is the first copy of its sequence that was not rejected. */
  lemma DeliversFirstCopy(window: nat, evs: seq<Event>, k: nat) returns (i: nat)
    requires window >= 1 && Run(window, evs).started && k < |Run(window, evs).out|
    ensures FirstCopy(window, evs, i, Run(window, evs).out[k].0)
    ensures Run(window, evs).out[k].1 == evs[i].packet.record
  {
    RunExplained(window, evs);
    var s, h := Run(window, evs), Track(window, evs);
    DeliveredMeaning(h.accepted, h.anchor, s.frontier);
    assert s.out[k] in s.out;
    i := AcceptedIsFirstCopy(window, evs, s.out[k].0);
  }

  // ---- conservation ------------------------------------------------------------

  function Offers(evs: seq<Event>): nat {
    if evs == [] then 0
    else Offers(evs[..|evs| - 1]) + (if evs[|evs| - 1].Offer? then 1 else 0)
  }

  function Accounted(s: State): nat {
    |s.out| + |s.buf| + s.dupA + s.dupB + s.rejected
  }

  lemma FlushConserves(s: State)
    requires Settled(s)
    ensures Accounted(FlushAll(s)) == Accounted(s)
  {
    if s.buf != map[] {
      var k :| k in s.buf;
      FlushIsPassTo(s, Highest(s.buf.Keys));
      PassToFields(s, Highest(s.buf.Keys) + 1);
    }
  }

  lemma StoreConserves(s: State, p: Packet)
    ensures Accounted(Stored(s, p)) == Accounted(s) + 1
  {
    if p.seqNo !in s.buf {
      var u := s.(buf := s.buf[p.seqNo := p.record]);
      assert u.buf.Keys == s.buf.Keys + {p.seqNo};
      ReleaseIsPassTo(u);
      PassToFields(u, FirstHole(u.buf.Keys, u.frontier));
    }
  }

  lemma StepConserves(window: nat, s: State, e: Event)
    requires window >= 1 && Settled(s)
    ensures Accounted(Step(window, s, e)) == Accounted(s) + (if e.Offer? then 1 else 0)
  {
    match e
    case Flush =>
      FlushConserves(s);
    case Offer(p) =>
      var a := Anchored(s, p);
      if a.frontier <= p.seqNo <= a.frontier + MAX_GAP {
        ForceConserves(window, a, p.seqNo);
        StoreConserves(Deepened(Force(window, a, p.seqNo), p.seqNo), p);
      }
  }

  lemma ForceConserves(window: nat, s: State, seqNo: nat)
    requires window >= 1
    ensures Accounted(Force(window, s, seqNo)) == Accounted(s)
  {
    ForceIsPassTo(window, s, seqNo);
    if s.frontier + window <= seqNo {
      PassToFields(s, FirstHole(s.buf.Keys, seqNo - window + 1));
    }
  }

  /** Every offered packet is delivered, buffered, a counted duplicate, or rejected. */
  lemma {:induction false} Conservation(window: nat, evs: seq<Event>)
    requires window >= 1
    ensures Accounted(Run(window, evs)) == Offers(evs)
  {
    if evs != [] {
      var prefix := evs[..|evs| - 1];
      Conservation(window, prefix);
      StepConserves(window, Run(window, prefix), evs[|evs| - 1]);
    }
  }

  /** After a flush nothing is stranded and the frontier is one past the highest sequence. */
  lemma FlushDrains(window: nat, evs: seq<Event>)
    requires window >= 1 && Run(window, evs).started
    ensures var s, r := Run(window, evs), Run(window, evs + [Flush]);
            && r.buf == map[]
            && r.frontier == Track(window, evs).top + 1
            && (s.buf.Keys != {} ==> r.frontier == Highest(s.buf.Keys) + 1)
  {
    var all := evs + [Flush];
    assert all[..|all| - 1] == evs;
    RunExplained(window, evs);
    FlushExplained(window, Track(window, evs), Run(window, evs));
    BufferTop(window, Track(window, evs), Run(window, evs));
  }

  // ---- the forced-advance loop ----------------------------------------------------

  /** How often the forced-advance loop runs. */
  function ForceSteps(window: nat, s: State, seqNo: nat): nat
    requires window >= 1
    decreases seqNo - s.frontier
  {
    if seqNo < s.frontier + window then 0 else 1 + ForceSteps(window, Advance(s), seqNo)
  }

  lemma {:induction false} ForceStepsBound(window: nat, s: State, seqNo: nat)
    requires window >= 1 && s.frontier <= seqNo
    ensures ForceSteps(window, s, seqNo) <= Max(seqNo - s.frontier + 1, window) - window
    decreases seqNo - s.frontier
  {
    if s.frontier + window <= seqNo {
      if Advance(s).frontier <= seqNo {
        ForceStepsBound(window, Advance(s), seqNo);
      }
    }
  }

  /** A packet that is not rejected costs at most MAX_GAP - window + 1 forced steps. */
  lemma ForcedAdvanceIsBounded(window: nat, evs: seq<Event>, p: Packet)
    requires 1 <= window <= MAX_GAP
    requires var s := Run(window, evs); s.started && s.frontier <= p.seqNo && !Rejects(s, p)
    ensures ForceSteps(window, Run(window, evs), p.seqNo) <= MAX_GAP - window + 1
    ensures Run(window, evs).frontier
            <= Force(window, Run(window, evs), p.seqNo).frontier
            <= p.seqNo
            < Force(window, Run(window, evs), p.seqNo).frontier + window
  {
    ForceStepsBound(window, Run(window, evs), p.seqNo);
    RunExplained(window, evs);
    ForceCore(window, Track(window, evs), Run(window, evs), p.seqNo);
  }
}
