/**
 The arbitrator as it is built: a power-of-two ring of slots, a frontier and counters,
 updated in place. The sink is the ghost log `model.out`, the declared gaps `model.lost`.
 */
module FeedArbitrator {
  import opened Wire
  import opened Bits
  import opened Holes
  import opened ArbitratorSpec
  import Runs = ArbitratorRuns
  import Theorems = ArbitratorTheorems

  datatype Slot = Slot(occupied: bool, seqNo: nat, record: Record)

  class Arbitrator {
    const window: nat
    const slots: array<Slot>
    var frontier: nat
    var occupied: nat
    var started: bool
    var delivered: nat
    var dupA: nat
    var dupB: nat
    var gaps: nat
    var maxReorder: nat
    var rejected: nat
    ghost var model: State
    ghost var events: seq<Runs.Event>   // everything offered or flushed so far

    ghost predicate Counters()
      reads this
    {
      && frontier == model.frontier && started == model.started
      && occupied == |model.buf|
      && delivered == |model.out| && gaps == |model.lost|
      && dupA == model.dupA && dupB == model.dupB
      && maxReorder == model.maxReorder && rejected == model.rejected
    }

    /** The slots hold exactly the buffered messages, each at its own index. */
    ghost predicate Mirrors()
      reads this, slots
    {
      && window >= 2 && PowerOfTwo(window) && slots.Length == window
      && Counters()
      && (forall n | n in model.buf :: slots[n % window] == Slot(true, n, model.buf[n]))
      && (forall i | 0 <= i < window && slots[i].occupied ::
            slots[i].seqNo in model.buf && slots[i].seqNo % window == i)
    }

    ghost predicate Valid()
      reads this, slots
    {
      Mirrors() && Settled(model) && Windowed(window, model)
    }

    /** The object is where the run of its events leads, so every law about runs applies. */
    ghost predicate Reached()
      reads this, slots
    {
      Valid() && model == Runs.Run(window, events)
    }

    constructor (window: nat, blank: Record)
      requires window >= 2 && PowerOfTwo(window)
      ensures Reached() && this.window == window && events == [] && fresh(slots)
    {
      this.window := window;
      slots := new Slot[window](_ => Slot(false, 0, blank));
      frontier, occupied, started := 0, 0, false;
      delivered, dupA, dupB, gaps, maxReorder, rejected := 0, 0, 0, 0, 0, 0;
      model, events := INITIAL, [];
    }

    /** The slot the frontier maps to holds the frontier message exactly when it is buffered. */
    method AtFrontier() returns (i: nat, present: bool)
      requires Mirrors()
      ensures i == frontier % window
      ensures present <==> frontier in model.buf
    {
      MaskIsRemainder(frontier, window);
      i := BitAnd(frontier, window - 1);
      present := slots[i].occupied && slots[i].seqNo == frontier;
    }

    method Deliver(i: nat)
      requires Mirrors() && i == frontier % window && frontier in model.buf
      modifies this, slots
      ensures Mirrors() && model == Pass(old(model)) && events == old(events)
    {
      RemoveKeySize(model.buf, frontier);
      model := Pass(model);
      delivered := delivered + 1;
      slots[i] := slots[i].(occupied := false);
      occupied := occupied - 1;
      frontier := frontier + 1;
    }

    method ReleasePrefix()
      requires Mirrors()
      modifies this, slots
      ensures Mirrors() && model == Release(old(model)) && events == old(events)
    {
      while true
        invariant Mirrors() && Release(model) == Release(old(model))
        invariant events == old(events)
        decreases model.buf.Keys
      {
        var i, present := AtFrontier();
        if !present {
          break;
        }
        Deliver(i);
      }
    }

    method AdvanceFrontier()
      requires Mirrors()
      modifies this, slots
      ensures Mirrors() && model == Advance(old(model)) && events == old(events)
    {
      var i, present := AtFrontier();
      if present {
        Deliver(i);
      } else {
        model := Pass(model);
        gaps := gaps + 1;
        frontier := frontier + 1;
      }
      ReleasePrefix();
    }

    method CountDuplicate(line: nat)
      requires Mirrors()
      modifies this
      ensures Mirrors() && model == Duplicate(old(model), line) && events == old(events)
    {
      model := Duplicate(model, line);
      if line == 1 {
        dupB := dupB + 1;
      } else {
        dupA := dupA + 1;
      }
    }

    /** Force the frontier forward until the sequence fits the window. */
    method MakeRoom(seqNo: nat)
      requires Valid() && started && frontier <= seqNo
      modifies this, slots
      ensures Valid() && model == Force(window, old(model), seqNo) && events == old(events)
      ensures started && frontier <= seqNo < frontier + window
    {
      while seqNo - frontier >= window
        invariant Valid() && started && frontier <= seqNo && events == old(events)
        invariant Force(window, model, seqNo) == Force(window, old(model), seqNo)
        decreases seqNo - frontier
      {
        AdvanceSettles(window, model);
        AdvanceFrontier();
      }
    }

    /** Put a message that fits the window into its slot, unless it is there already. */
    method Store(p: Packet)
      requires Valid() && started && frontier <= p.seqNo < frontier + window
      modifies this, slots
      ensures Valid() && model == Stored(old(model), p) && events == old(events)
    {
      MaskIsRemainder(p.seqNo, window);
      var i := BitAnd(p.seqNo, window - 1);
      if slots[i].occupied {
        CloseAndCongruent(slots[i].seqNo, p.seqNo, window);
        assert slots[i].seqNo == p.seqNo;
        if slots[i].seqNo == p.seqNo {
          CountDuplicate(p.line);
        }
        return;
      }
      assert p.seqNo !in model.buf;
      ghost var filled := model.(buf := model.buf[p.seqNo := p.record]);
      assert filled.buf.Keys == model.buf.Keys + {p.seqNo};
      model := filled;
      slots[i] := Slot(true, p.seqNo, p.record);
      occupied := occupied + 1;
      ReleaseSettles(window, model);
      ReleasePrefix();
    }

    method NoteDepth(seqNo: nat)
      requires Valid() && frontier <= seqNo
      modifies this
      ensures Valid() && model == Deepened(old(model), seqNo) && events == old(events)
    {
      model := Deepened(model, seqNo);
      var depth := seqNo - frontier;
      if depth > maxReorder {
        maxReorder := depth;
      }
    }

    /** The first packet anchors the session at its own sequence. */
    method Anchor(p: Packet)
      requires Valid()
      modifies this
      ensures Valid() && model == Anchored(old(model), p) && started && events == old(events)
    {
      model := Anchored(model, p);
      if !started {
        frontier := p.seqNo;
        started := true;
      }
    }

    method Process(p: Packet)
      requires Valid()
      modifies this, slots
      ensures Valid() && model == OfferPacket(window, old(model), p) && events == old(events)
    {
      Anchor(p);
      if p.seqNo < frontier {
        CountDuplicate(p.line);
        return;
      }
      if p.seqNo - frontier > MAX_GAP {
        model := model.(rejected := model.rejected + 1);
        rejected := rejected + 1;
        return;
      }
      MakeRoom(p.seqNo);
      NoteDepth(p.seqNo);
      Store(p);
    }

    /** One received packet. Everything that becomes deliverable is delivered in order. */
    method Offer(p: Packet)
      requires Reached()
      modifies this, slots
      ensures Reached() && model == OfferPacket(window, old(model), p)
      ensures events == old(events) + [Runs.Offer(p)]
    {
      Runs.RunAppend(window, events, Runs.Offer(p));
      Process(p);
      events := events + [Runs.Offer(p)];
    }

    method Drain()
      requires Valid()
      modifies this, slots
      ensures Valid() && model == FlushAll(old(model)) && occupied == 0 && events == old(events)
    {
      while occupied > 0
        invariant Valid() && FlushAll(model) == FlushAll(old(model)) && events == old(events)
        decreases Reach(model)
      {
        AdvanceShrinks(model);
        AdvanceSettles(window, model);
        AdvanceFrontier();
      }
      assert model.buf.Keys == {};
    }

    /** End of stream: drain everything still buffered. */
    method Flush()
      requires Reached()
      modifies this, slots
      ensures Reached() && model == FlushAll(old(model)) && occupied == 0
      ensures events == old(events) + [Runs.Flush]
    {
      Runs.RunAppend(window, events, Runs.Flush);
      Drain();
      events := events + [Runs.Flush];
    }

    /** The reported statistics account for every packet and for every sequence passed. */
    lemma StatisticsAddUp()
      requires Reached()
      ensures delivered + occupied + dupA + dupB + rejected == Theorems.Offers(events)
      ensures started ==> delivered + gaps == frontier - Runs.Track(window, events).anchor
    {
      Theorems.Conservation(window, events);
      if started {
        Theorems.CountsTile(window, events);
      }
    }
  }
}
