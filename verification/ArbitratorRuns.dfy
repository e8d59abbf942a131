/**
 Whole runs of the arbitrator. A run is explained by a short history: which copies were
 accepted, which sequences were offered at all, and the floor below which waiting is over.
 The state, the delivery log and the gap log are functions of that history.
 */
module ArbitratorRuns {
  import opened Wire
  import opened Holes
  import opened ArbitratorSpec

  datatype Event = Offer(packet: Packet) | Flush

  // ---- the ledger: what a set of accepted copies delivers and misses --------

  /** The accepted copies of [a, f), in order. */
  function Delivered(c: map<nat, Record>, a: nat, f: nat): seq<(nat, Record)> {
    if f <= a then []
    else if f - 1 in c then Delivered(c, a, f - 1) + [(f - 1, c[f - 1])]
    else Delivered(c, a, f - 1)
  }

  /** The sequences of [a, f) without an accepted copy, in order. */
  function Missing(c: map<nat, Record>, a: nat, f: nat): seq<nat> {
    if f <= a then []
    else if f - 1 in c then Missing(c, a, f - 1)
    else Missing(c, a, f - 1) + [f - 1]
  }

  function Remaining(c: map<nat, Record>, f: nat): map<nat, Record> {
    map n | n in c && f <= n :: c[n]
  }

  ghost predicate Ledger(c: map<nat, Record>, a: nat, s: State) {
    && a <= s.frontier
    && s.out == Delivered(c, a, s.frontier)
    && s.lost == Missing(c, a, s.frontier)
    && s.buf == Remaining(c, s.frontier)
  }

  lemma {:induction false} LedgerPassTo(c: map<nat, Record>, a: nat, s: State, n: nat)
    requires Ledger(c, a, s) && s.frontier <= n
    ensures Ledger(c, a, PassTo(s, n))
    decreases n - s.frontier
  {
    if s.frontier < n {
      var f := s.frontier;
      if f in s.buf {
        assert s.buf - {f} == Remaining(c, f + 1);
      } else {
        assert f !in c;
        assert s.buf == Remaining(c, f + 1);
      }
      LedgerPassTo(c, a, Pass(s), n);
    }
  }

  /** What lies at or above the frontier has not been counted yet. */
  lemma {:induction false} LedgerLocal(c: map<nat, Record>, c': map<nat, Record>, a: nat, f: nat)
    requires forall n | a <= n < f :: (n in c <==> n in c') && (n in c ==> c[n] == c'[n])
    ensures Delivered(c, a, f) == Delivered(c', a, f)
    ensures Missing(c, a, f) == Missing(c', a, f)
  {
    if a < f {
      LedgerLocal(c, c', a, f - 1);
    }
  }

  lemma LedgerInsert(c: map<nat, Record>, a: nat, s: State, n: nat, r: Record)
    requires Ledger(c, a, s) && s.frontier <= n
    ensures Ledger(c[n := r], a, s.(buf := s.buf[n := r]))
  {
    LedgerLocal(c, c[n := r], a, s.frontier);
    assert s.buf[n := r] == Remaining(c[n := r], s.frontier);
  }

  // ---- history ---------------------------------------------------------------

  datatype History = History(
    anchor: nat,                  // first sequence of the session
    accepted: map<nat, Record>,   // the copy kept for each accepted sequence
    kept: set<nat>,               // every sequence offered and not rejected
    top: nat,                     // the highest of them
    floor: nat)                   // nothing below this is waited for

  const NOTHING := History(0, map[], {}, 0, 0)

  predicate Rejects(s: State, p: Packet) {
    s.started && p.seqNo > s.frontier + MAX_GAP
  }

  function Note(window: nat, h: History, s: State, e: Event): History {
    match e
    case Flush => if s.started then h.(floor := Max(h.floor, h.top + 1)) else h
    case Offer(p) =>
      if Rejects(s, p) then h
      else if !s.started then
        History(p.seqNo, map[p.seqNo := p.record], {p.seqNo}, p.seqNo, p.seqNo)
      else
        History(h.anchor,
                if p.seqNo < s.frontier || p.seqNo in h.accepted then h.accepted
                else h.accepted[p.seqNo := p.record],
                h.kept + {p.seqNo},
                Max(h.top, p.seqNo),
                if p.seqNo + 1 > h.floor + window then p.seqNo + 1 - window else h.floor)
  }

  function Step(window: nat, s: State, e: Event): State
    requires window >= 1 && Settled(s)
  {
    match e
    case Flush => FlushAll(s)
    case Offer(p) => OfferPacket(window, s, p)
  }

  /** The part of the explanation that survives in the middle of an offer. */
  ghost predicate Core(window: nat, h: History, s: State) {
    && s.started
    && Ledger(h.accepted, h.anchor, s)
    && h.anchor <= h.floor <= s.frontier
    && s.frontier !in h.accepted
    && (forall n | n in h.accepted :: h.anchor <= n < s.frontier + window && n in h.kept)
    && (forall n | h.floor <= n < s.frontier :: n in h.accepted)
    && (forall n | n in h.kept && h.floor <= n :: n in h.accepted)
    && s.maxReorder < window
  }

  ghost predicate Explained(window: nat, h: History, s: State) {
    if !s.started then s == INITIAL
    else
      && Core(window, h, s)
      && h.top in h.accepted
      && (forall n | n in h.kept :: n <= h.top)
      && h.floor <= s.frontier <= h.top + 1
  }

  function Raised(window: nat, h: History, seqNo: nat): History {
    if seqNo + 1 > h.floor + window then h.(floor := seqNo + 1 - window) else h
  }

  lemma HolesOfRemaining(c: map<nat, Record>, f: nat, from: nat)
    requires f <= from
    ensures FirstHole(Remaining(c, f).Keys, from) == FirstHole(c.Keys, from)
  {
    FirstHoleLocal(Remaining(c, f).Keys, c.Keys, from);
  }

  /** Moving the frontier to a hole, with everything from the new floor on accepted. */
  lemma CoreMove(window: nat, h: History, s: State, floor: nat, g: nat)
    requires Core(window, h, s) && s.frontier <= g && h.floor <= floor <= g
    requires g == FirstHole(h.accepted.Keys, floor)
    ensures Core(window, h.(floor := floor), PassTo(s, g))
  {
    LedgerPassTo(h.accepted, h.anchor, s, g);
    PassToFields(s, g);
    var k := h.accepted.Keys;
    assert forall n | floor <= n < g :: n in k;
    assert g !in k;
  }

  /** Forcing stops at or before the incoming sequence, with room for it in the window. */
  lemma ForceCore(window: nat, h: History, s: State, seqNo: nat)
    requires window >= 1 && Core(window, h, s) && s.frontier <= seqNo
    ensures var t := Force(window, s, seqNo);
            && s.frontier <= t.frontier <= seqNo < t.frontier + window
            && Core(window, Raised(window, h, seqNo), t)
  {
    if s.frontier + window <= seqNo {
      var goal := seqNo - window + 1;
      ForceGoal(window, h, s, seqNo);
      CoreMove(window, h, s, goal, FirstHole(h.accepted.Keys, goal));
    }
  }

  /** Forcing stops at the first sequence, from the goal on, without an accepted copy. */
  lemma ForceGoal(window: nat, h: History, s: State, seqNo: nat)
    requires window >= 1 && Core(window, h, s) && s.frontier + window <= seqNo
    ensures var g := FirstHole(h.accepted.Keys, seqNo - window + 1);
            g <= seqNo && Force(window, s, seqNo) == PassTo(s, g)
  {
    ForceIsPassTo(window, s, seqNo);
    HolesOfRemaining(h.accepted, s.frontier, seqNo - window + 1);
    assert seqNo !in h.accepted.Keys;
  }

  lemma InsertCore(window: nat, h: History, s: State, p: Packet)
    requires window >= 1 && Core(window, h, s)
    requires s.frontier < p.seqNo < s.frontier + window && p.seqNo !in h.accepted
    ensures Core(window,
                 h.(accepted := h.accepted[p.seqNo := p.record], kept := h.kept + {p.seqNo}),
                 s.(buf := s.buf[p.seqNo := p.record]))
  {
    LedgerInsert(h.accepted, h.anchor, s, p.seqNo, p.record);
  }

  /** The packet that lands on the frontier is delivered at once. */
  lemma LandCore(window: nat, h: History, s: State, r: Record)
    requires window >= 1 && Core(window, h, s)
    ensures var c := h.accepted[s.frontier := r];
            Core(window,
                 h.(accepted := c, kept := h.kept + {s.frontier}),
                 PassTo(s.(buf := s.buf[s.frontier := r]), FirstHole(c.Keys, s.frontier)))
  {
    var c := h.accepted[s.frontier := r];
    var t := s.(buf := s.buf[s.frontier := r]);
    var g := FirstHole(c.Keys, s.frontier);
    LedgerInsert(h.accepted, h.anchor, s, s.frontier, r);
    LedgerPassTo(c, h.anchor, t, g);
    PassToFields(t, g);
    var k := c.Keys;
    assert forall n | s.frontier <= n < g :: n in k;
    assert g !in k;
  }

  lemma StoreCore(window: nat, h: History, s: State, p: Packet)
    requires window >= 1 && Core(window, h, s)
    requires s.frontier <= p.seqNo < s.frontier + window && p.seqNo !in h.accepted
    ensures Core(window,
                 h.(accepted := h.accepted[p.seqNo := p.record], kept := h.kept + {p.seqNo}),
                 Release(s.(buf := s.buf[p.seqNo := p.record])))
  {
    var t := s.(buf := s.buf[p.seqNo := p.record]);
    if p.seqNo == s.frontier {
      var c := h.accepted[p.seqNo := p.record];
      LandCore(window, h, s, p.record);
      ReleaseIsPassTo(t);
      LedgerInsert(h.accepted, h.anchor, s, p.seqNo, p.record);
      HolesOfRemaining(c, s.frontier, s.frontier);
    } else {
      InsertCore(window, h, s, p);
      assert s.frontier !in t.buf;
    }
  }

  lemma CoreBound(window: nat, h: History, s: State)
    requires Core(window, h, s) && h.floor <= h.top + 1
    requires forall n | n in h.kept :: n <= h.top
    ensures s.frontier <= h.top + 1
  {
    if h.floor < s.frontier {
      assert s.frontier - 1 in h.accepted;
    }
  }

  lemma LateExplained(window: nat, h: History, s: State, p: Packet)
    requires window >= 1 && Explained(window, h, s) && s.started && p.seqNo < s.frontier
    ensures Explained(window, Note(window, h, s, Offer(p)), Duplicate(s, p.line))
  {
    var h' := Note(window, h, s, Offer(p));
    assert h'.accepted == h.accepted;
    assert p.seqNo <= h.top;
  }

  lemma OnTimeCore(window: nat, h: History, s: State, p: Packet)
    requires window >= 1 && Core(window, h, s)
    requires s.frontier <= p.seqNo && !Rejects(s, p)
    ensures Core(window, Note(window, h, s, Offer(p)).(top := h.top), OfferPacket(window, s, p))
  {
    var u := Raised(window, h, p.seqNo);
    assert Note(window, h, s, Offer(p)).(top := h.top)
        == u.(accepted := if p.seqNo in u.accepted then u.accepted
                          else u.accepted[p.seqNo := p.record],
              kept := u.kept + {p.seqNo});
    ForceCore(window, h, s, p.seqNo);
    StoredCore(window, u, Force(window, s, p.seqNo), p);
  }

  lemma StoredCore(window: nat, h: History, s: State, p: Packet)
    requires window >= 1 && Core(window, h, s)
    requires s.frontier <= p.seqNo < s.frontier + window
    ensures var c := if p.seqNo in h.accepted then h.accepted
                     else h.accepted[p.seqNo := p.record];
            Core(window, h.(accepted := c, kept := h.kept + {p.seqNo}),
                 Stored(Deepened(s, p.seqNo), p))
  {
    var t := Deepened(s, p.seqNo);
    assert Core(window, h, t);
    assert p.seqNo in Remaining(h.accepted, t.frontier) <==> p.seqNo in h.accepted;
    if p.seqNo in h.accepted {
      assert h.kept + {p.seqNo} == h.kept;
    } else {
      StoreCore(window, h, t, p);
    }
  }

  lemma OnTimeExplained(window: nat, h: History, s: State, p: Packet)
    requires window >= 1 && Explained(window, h, s) && s.started
    requires s.frontier <= p.seqNo && !Rejects(s, p)
    ensures Explained(window, Note(window, h, s, Offer(p)), OfferPacket(window, s, p))
  {
    var h' := Note(window, h, s, Offer(p));
    var s' := OfferPacket(window, s, p);
    OnTimeCore(window, h, s, p);
    assert Core(window, h', s');
    CoreBound(window, h', s');
  }

  lemma OfferExplained(window: nat, h: History, s: State, p: Packet)
    requires window >= 1 && Explained(window, h, s)
    ensures Explained(window, Note(window, h, s, Offer(p)), OfferPacket(window, s, p))
  {
    if !s.started {
      FirstOffer(window, s, p);
    } else if p.seqNo < s.frontier {
      LateExplained(window, h, s, p);
    } else if !Rejects(s, p) {
      OnTimeExplained(window, h, s, p);
    }
  }

  lemma FirstOffer(window: nat, s: State, p: Packet)
    requires window >= 1 && s == INITIAL
    ensures Explained(window, Note(window, NOTHING, s, Offer(p)), OfferPacket(window, s, p))
  {
    var t := Stored(Anchored(s, p), p);
    assert OfferPacket(window, s, p) == t;
    var a := Anchored(s, p).(buf := map[p.seqNo := p.record]);
    assert map[][p.seqNo := p.record] == a.buf;
    assert Release(a) == Pass(a);
    assert Pass(a).buf == map[];
    var c := map[p.seqNo := p.record];
    assert Delivered(c, p.seqNo, p.seqNo + 1) == [(p.seqNo, p.record)];
    assert Missing(c, p.seqNo, p.seqNo + 1) == [];
    assert Remaining(c, p.seqNo + 1) == map[];
  }

  lemma BufferTop(window: nat, h: History, s: State)
    requires Explained(window, h, s) && s.started
    ensures s.buf == map[] ==> s.frontier == h.top + 1
    ensures s.buf != map[] ==> IsHighest(s.buf.Keys, h.top)
  {
    if s.buf == map[] {
      assert h.top !in Remaining(h.accepted, s.frontier);
    } else {
      var k :| k in s.buf;
      assert h.top in s.buf;
    }
  }

  lemma FlushTarget(window: nat, h: History, s: State)
    requires Explained(window, h, s) && s.started && Settled(s)
    ensures s.frontier <= h.top + 1 && FlushAll(s) == PassTo(s, h.top + 1)
  {
    BufferTop(window, h, s);
    FlushTo(s, h.top);
  }

  lemma FlushTo(s: State, top: nat)
    requires Settled(s)
    requires s.buf == map[] ==> s.frontier == top + 1
    requires s.buf != map[] ==> IsHighest(s.buf.Keys, top)
    ensures s.frontier <= top + 1 && FlushAll(s) == PassTo(s, top + 1)
  {
    if s.buf != map[] {
      FlushIsPassTo(s, top);
    }
  }

  lemma NothingAbove(h: History)
    requires forall n | n in h.accepted :: n <= h.top
    ensures FirstHole(h.accepted.Keys, h.top + 1) == h.top + 1
    ensures Remaining(h.accepted, h.top + 1) == map[]
  {
    assert h.top + 1 !in h.accepted.Keys;
    FirstHoleUnique(h.accepted.Keys, h.top + 1, h.top + 1);
    assert Remaining(h.accepted, h.top + 1).Keys == {};
  }

  lemma FlushCore(window: nat, h: History, s: State)
    requires Explained(window, h, s) && s.started
    ensures s.frontier <= h.top + 1
    ensures Core(window, h.(floor := h.top + 1), PassTo(s, h.top + 1))
    ensures PassTo(s, h.top + 1).buf == map[]
  {
    assert forall n | n in h.accepted :: n in h.kept && n <= h.top;
    NothingAbove(h);
    CoreMove(window, h, s, h.top + 1, h.top + 1);
  }

  /** Flushing leaves nothing buffered and the frontier one past the highest sequence. */
  lemma FlushExplained(window: nat, h: History, s: State)
    requires window >= 1 && Explained(window, h, s) && s.started
    ensures Settled(s)
    ensures FlushAll(s).frontier == h.top + 1 && FlushAll(s).buf == map[]
    ensures Explained(window, Note(window, h, s, Flush), FlushAll(s))
  {
    FlushTarget(window, h, s);
    FlushCore(window, h, s);
    assert Note(window, h, s, Flush) == h.(floor := h.top + 1);
  }

  lemma StepExplained(window: nat, h: History, s: State, e: Event)
    requires window >= 1 && Explained(window, h, s)
    ensures Settled(s)
    ensures Explained(window, Note(window, h, s, e), Step(window, s, e))
  {
    match e
    case Offer(p) => OfferExplained(window, h, s, p);
    case Flush =>
      if s.started {
        FlushExplained(window, h, s);
      }
  }

  // ---- runs --------------------------------------------------------------------

  /** The arbitrator after a list of events, from a fresh start. */
  function Run(window: nat, evs: seq<Event>): (s: State)
    requires window >= 1
    ensures Settled(s) && Windowed(window, s)
  {
    if evs == [] then INITIAL
    else
      var before := Run(window, evs[..|evs| - 1]);
      StepSettled(window, before, evs[|evs| - 1]);
      Step(window, before, evs[|evs| - 1])
  }

  lemma RunAppend(window: nat, evs: seq<Event>, e: Event)
    requires window >= 1
    ensures Run(window, evs + [e]) == Step(window, Run(window, evs), e)
  {
    assert (evs + [e])[..|evs + [e]| - 1] == evs;
  }

  /** The history the same events leave behind. */
  function Track(window: nat, evs: seq<Event>): History
    requires window >= 1
  {
    if evs == [] then NOTHING
    else
      var prefix := evs[..|evs| - 1];
      Note(window, Track(window, prefix), Run(window, prefix), evs[|evs| - 1])
  }

  lemma StepSettled(window: nat, s: State, e: Event)
    requires window >= 1 && Settled(s) && Windowed(window, s)
    ensures Settled(Step(window, s, e)) && Windowed(window, Step(window, s, e))
  {
    match e
    case Offer(p) => OfferSettled(window, s, p);
    case Flush => FlushSettled(s);
  }

  /** Every reachable state is explained by its history. */
  lemma {:induction false} RunExplained(window: nat, evs: seq<Event>)
    requires window >= 1
    ensures Explained(window, Track(window, evs), Run(window, evs))
  {
    if evs != [] {
      var prefix := evs[..|evs| - 1];
      RunExplained(window, prefix);
      StepExplained(window, Track(window, prefix), Run(window, prefix), evs[|evs| - 1]);
    }
  }

  /**
   The closed form: the frontier is the first sequence never offered at or above the
   floor, whatever order the packets came in.
   */
  lemma FrontierClosedForm(window: nat, evs: seq<Event>)
    requires window >= 1 && Run(window, evs).started
    ensures Run(window, evs).frontier
            == FirstHole(Track(window, evs).kept, Track(window, evs).floor)
  {
    RunExplained(window, evs);
    var h, s := Track(window, evs), Run(window, evs);
    assert s.frontier !in h.kept;
    FirstHoleUnique(h.kept, h.floor, s.frontier);
  }
}
