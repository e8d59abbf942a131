/** The feed arbitrator on values: what one packet and one flush do. */
module ArbitratorSpec {
  import opened Wire
  import opened Holes

  // A sequence further ahead of the frontier than this is treated as corrupt.
  const MAX_GAP: nat := 0x10_0000

  // Line 1 is line B; every other value is counted as line A.
  datatype Packet = Packet(seqNo: nat, line: nat, record: Record)

  datatype State = State(
    started: bool,
    frontier: nat,
    buf: map<nat, Record>,     // held back, keyed by sequence
    out: seq<(nat, Record)>,   // what the sink received, in order
    lost: seq<nat>,            // sequences declared gaps, in order
    dupA: nat, dupB: nat,
    maxReorder: nat,
    rejected: nat)

  const INITIAL := State(false, 0, map[], [], [], 0, 0, 0, 0)

  /** Between calls nothing is held at or below the frontier. */
  predicate Settled(s: State) {
    && (!s.started ==> s.buf == map[])
    && forall n | n in s.buf :: s.frontier < n
  }

  /** Everything held back fits the reorder window. */
  predicate Windowed(window: nat, s: State) {
    forall n | n in s.buf :: n < s.frontier + window
  }

  /** Move the frontier past one sequence: deliver it, or declare it lost. */
  function Pass(s: State): (r: State)
    ensures r.frontier == s.frontier + 1
  {
    if s.frontier in s.buf then
      s.(out := s.out + [(s.frontier, s.buf[s.frontier])],
         buf := s.buf - {s.frontier},
         frontier := s.frontier + 1)
    else
      s.(lost := s.lost + [s.frontier], frontier := s.frontier + 1)
  }

  function Release(s: State): (r: State)
    ensures s.frontier <= r.frontier
    decreases s.buf.Keys
  {
    if s.frontier in s.buf then Release(Pass(s)) else s
  }

  function Advance(s: State): (r: State)
    ensures s.frontier < r.frontier
  {
    Release(Pass(s))
  }

  function Force(window: nat, s: State, seqNo: nat): State
    requires window >= 1
    decreases seqNo - s.frontier
  {
    if seqNo < s.frontier + window then s else Force(window, Advance(s), seqNo)
  }

  function Duplicate(s: State, line: nat): State {
    if line == 1 then s.(dupB := s.dupB + 1) else s.(dupA := s.dupA + 1)
  }

  function Max(a: nat, b: nat): nat {
    if a < b then b else a
  }

  /** The first packet anchors the session. */
  function Anchored(s: State, p: Packet): State {
    if s.started then s else s.(started := true, frontier := p.seqNo)
  }

  function Deepened(s: State, seqNo: nat): State {
    if seqNo > s.frontier + s.maxReorder then s.(maxReorder := seqNo - s.frontier) else s
  }

  function Stored(s: State, p: Packet): State {
    if p.seqNo in s.buf then Duplicate(s, p.line)
    else Release(s.(buf := s.buf[p.seqNo := p.record]))
  }

  function OfferPacket(window: nat, s: State, p: Packet): State
    requires window >= 1
  {
    var a := Anchored(s, p);
    if p.seqNo < a.frontier then Duplicate(a, p.line)
    else if p.seqNo - a.frontier > MAX_GAP then a.(rejected := a.rejected + 1)
    else Stored(Deepened(Force(window, a, p.seqNo), p.seqNo), p)
  }

  /** How much of the buffer is still ahead: the measure of flushing. */
  ghost function Reach(s: State): nat {
    if s.buf.Keys == {} || Highest(s.buf.Keys) < s.frontier then 0
    else Highest(s.buf.Keys) + 1 - s.frontier
  }

  function FlushAll(s: State): State
    requires Settled(s)
    decreases Reach(s)
  {
    if s.buf == map[] then s
    else
      AdvanceShrinks(s);
      FlushAll(Advance(s))
  }

  // ---- fast-forward form -------------------------------------------------

  /** Pass one sequence at a time until the frontier is `n`. */
  function PassTo(s: State, n: nat): (r: State)
    requires s.frontier <= n
    ensures r.frontier == n
    decreases n - s.frontier
  {
    if s.frontier == n then s else PassTo(Pass(s), n)
  }

  lemma PassToStep(s: State, n: nat)
    requires s.frontier < n
    ensures PassTo(s, n) == PassTo(Pass(s), n)
  {
  }

  lemma {:induction false} PassToCompose(s: State, m: nat, n: nat)
    requires s.frontier <= m <= n
    ensures PassTo(PassTo(s, m), n) == PassTo(s, n)
    decreases m - s.frontier
  {
    if s.frontier < m {
      PassToCompose(Pass(s), m, n);
    }
  }

  /** Passing changes only the logs, the buffer and the frontier, and conserves messages. */
  lemma {:induction false} PassToFields(s: State, n: nat)
    requires s.frontier <= n
    ensures var r := PassTo(s, n);
            && r.started == s.started && r.dupA == s.dupA && r.dupB == s.dupB
            && r.maxReorder == s.maxReorder && r.rejected == s.rejected
            && |r.out| + |r.buf| == |s.out| + |s.buf|
    decreases n - s.frontier
  {
    if s.frontier < n {
      PassToFields(Pass(s), n);
      if s.frontier in s.buf {
        RemoveKeySize(s.buf, s.frontier);
      }
    }
  }

  lemma {:induction false} PassToBuffer(s: State, n: nat)
    requires s.frontier <= n
    ensures var r := PassTo(s, n);
            forall k :: k in r.buf <==> k in s.buf && !(s.frontier <= k < n)
    decreases n - s.frontier
  {
    if s.frontier < n {
      PassToBuffer(Pass(s), n);
    }
  }

  lemma RemoveKeySize(m: map<nat, Record>, k: nat)
    requires k in m
    ensures |m - {k}| == |m| - 1
  {
    assert (m - {k}).Keys == m.Keys - {k};
  }

  lemma {:induction false} ReleaseIsPassTo(s: State)
    ensures Release(s) == PassTo(s, FirstHole(s.buf.Keys, s.frontier))
    decreases s.buf.Keys
  {
    if s.frontier in s.buf {
      assert Pass(s).buf.Keys == s.buf.Keys - {s.frontier};
      ReleaseIsPassTo(Pass(s));
    }
  }

  lemma AdvanceIsPassTo(s: State)
    ensures Advance(s) == PassTo(s, FirstHole(s.buf.Keys, s.frontier + 1))
  {
    var p, g := Pass(s), FirstHole(s.buf.Keys, s.frontier + 1);
    assert FirstHole(p.buf.Keys, p.frontier) == g by {
      FirstHoleLocal(p.buf.Keys, s.buf.Keys, s.frontier + 1);
    }
    ReleaseIsPassTo(p);
    PassToStep(s, g);
  }

  lemma PassToKeepsHoles(s: State, g: nat, goal: nat)
    requires s.frontier <= g <= goal
    ensures FirstHole(PassTo(s, g).buf.Keys, goal) == FirstHole(s.buf.Keys, goal)
  {
    PassToBuffer(s, g);
    FirstHoleLocal(PassTo(s, g).buf.Keys, s.buf.Keys, goal);
  }

  /** Forced advances add up to one jump: to the first sequence, from the goal on, not buffered. */
  lemma {:induction false} ForceIsPassTo(window: nat, s: State, seqNo: nat)
    requires window >= 1
    ensures Force(window, s, seqNo) ==
            if seqNo < s.frontier + window then s
            else PassTo(s, FirstHole(s.buf.Keys, seqNo - window + 1))
    decreases seqNo - s.frontier
  {
    if s.frontier + window <= seqNo {
      var g := FirstHole(s.buf.Keys, s.frontier + 1);
      var goal := seqNo - window + 1;
      AdvanceIsPassTo(s);
      var t := PassTo(s, g);
      ForceIsPassTo(window, t, seqNo);
      FirstHoleMonotone(s.buf.Keys, s.frontier + 1, goal);
      if goal > g {
        PassToKeepsHoles(s, g, goal);
        PassToCompose(s, g, FirstHole(s.buf.Keys, goal));
      }
    }
  }

  lemma {:induction false} ReleaseSettles(window: nat, s: State)
    requires s.started && Windowed(window, s) && forall n | n in s.buf :: s.frontier <= n
    ensures Settled(Release(s)) && Release(s).started && Windowed(window, Release(s))
    decreases s.buf.Keys
  {
    if s.frontier in s.buf {
      ReleaseSettles(window, Pass(s));
    }
  }

  lemma AdvanceSettles(window: nat, s: State)
    requires s.started && Settled(s) && Windowed(window, s)
    ensures Settled(Advance(s)) && Advance(s).started && Windowed(window, Advance(s))
    ensures Advance(s).frontier <= s.frontier + Max(window, 1)
  {
    ReleaseSettles(window, Pass(s));
    AdvanceIsPassTo(s);
    var keys := s.buf.Keys;
    assert s.frontier + Max(window, 1) !in keys;
  }

  /** Forcing never carries the frontier past the incoming sequence. */
  lemma {:induction false} ForceSettles(window: nat, s: State, seqNo: nat)
    requires window >= 1 && s.started && Settled(s) && Windowed(window, s)
    requires s.frontier <= seqNo
    ensures var t := Force(window, s, seqNo);
            t.started && Settled(t) && Windowed(window, t)
            && t.frontier <= seqNo < t.frontier + window
    decreases seqNo - s.frontier
  {
    if s.frontier + window <= seqNo {
      AdvanceSettles(window, s);
      ForceSettles(window, Advance(s), seqNo);
    }
  }

  lemma AdvanceShrinks(s: State)
    requires Settled(s) && s.buf != map[]
    ensures Settled(Advance(s)) && Advance(s).started && Reach(Advance(s)) < Reach(s)
  {
    var r := Advance(s);
    var k :| k in s.buf;
    AdvanceSettles(Highest(s.buf.Keys) + 1, s);
    AdvanceIsPassTo(s);
    PassToBuffer(s, r.frontier);
    if r.buf.Keys != {} {
      assert Highest(r.buf.Keys) in s.buf;
    }
  }

  lemma {:induction false} FlushSettled(s: State)
    requires Settled(s)
    ensures Settled(FlushAll(s)) && FlushAll(s).buf == map[]
    decreases Reach(s)
  {
    if s.buf != map[] {
      AdvanceShrinks(s);
      FlushSettled(Advance(s));
    }
  }

  lemma OfferSettled(window: nat, s: State, p: Packet)
    requires window >= 1 && Settled(s) && Windowed(window, s)
    ensures Settled(OfferPacket(window, s, p)) && Windowed(window, OfferPacket(window, s, p))
  {
    var a := Anchored(s, p);
    if a.frontier <= p.seqNo <= a.frontier + MAX_GAP {
      ForceSettles(window, a, p.seqNo);
      var t := Deepened(Force(window, a, p.seqNo), p.seqNo);
      if p.seqNo !in t.buf {
        ReleaseSettles(window, t.(buf := t.buf[p.seqNo := p.record]));
      }
    }
  }

  lemma HoleAfterHighest(keys: set<nat>, top: nat, from: nat)
    requires IsHighest(keys, top) && from <= top < FirstHole(keys, from)
    ensures FirstHole(keys, from) == top + 1
  {
    FirstHoleUnique(keys, from, top + 1);
  }

  lemma AdvanceKeepsHighest(s: State, top: nat)
    requires Settled(s) && IsHighest(s.buf.Keys, top)
    ensures var r := Advance(s);
            if top < r.frontier then r.frontier == top + 1 && r.buf == map[]
            else IsHighest(r.buf.Keys, top)
  {
    var g := FirstHole(s.buf.Keys, s.frontier + 1);
    AdvanceIsPassTo(s);
    PassToBuffer(s, g);
    if top < g {
      HoleAfterHighest(s.buf.Keys, top, s.frontier + 1);
      assert forall k :: k !in PassTo(s, g).buf;
    }
  }

  lemma {:induction false} FlushIsPassTo(s: State, top: nat)
    requires Settled(s) && IsHighest(s.buf.Keys, top)
    ensures s.frontier <= top
    ensures FlushAll(s) == PassTo(s, top + 1)
    decreases Reach(s)
  {
    var r := Advance(s);
    assert top in s.buf;
    AdvanceIsPassTo(s);
    AdvanceShrinks(s);
    AdvanceKeepsHighest(s, top);
    if r.frontier <= top {
      FlushIsPassTo(r, top);
      PassToCompose(s, r.frontier, top + 1);
    }
  }
}
