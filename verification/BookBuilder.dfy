/** The book builder as it is built: a level book, a fixed recovery buffer, and two states. */
module BookBuilder {
  import opened BookSpec
  import opened BuilderSpec
  import opened OrderBook
  import Theorems = BuilderTheorems
  import BuilderBuffer
  import BookLaws

  lemma {:induction false} HoleStays(buf: seq<Delta>, asOf: nat, i: nat)
    requires i <= |buf| && CheckBuffer(buf[..i], asOf) == Hole
    ensures CheckBuffer(buf, asOf) == Hole
  {
    if i == |buf| {
      assert buf[..i] == buf;
    } else {
      assert buf[..|buf| - 1][..i] == buf[..i];
      HoleStays(buf[..|buf| - 1], asOf, i);
    }
  }

  class SequencedBook {
    const capacity: nat
    const book: LevelBook
    const buf: array<Delta>
    var nbuf: nat
    var live: bool
    var expected: nat
    var stats: Stats
    ghost var events: seq<Event>   // every delta and snapshot received so far

    ghost predicate Valid()
      reads this, book
    {
      book.Valid() && buf.Length == capacity && nbuf <= capacity
    }

    ghost function Model(): (b: Builder)
      requires Valid()
      reads this, book, book.bid, book.ask, buf
      ensures Sized(book.max, capacity, b)
    {
      Builder(live, expected, book.View(), buf[..nbuf], stats)
    }

    /** The object is where the run of its events leads, so every law about runs applies. */
    ghost predicate Reached()
      reads this, book, book.bid, book.ask, buf
    {
      Valid() && Model() == Run(book.max, capacity, events)
    }

    constructor (max: nat, capacity: nat, blank: Delta)
      ensures Reached() && book.max == max && this.capacity == capacity && events == []
      ensures fresh(book) && fresh(book.bid) && fresh(book.ask) && fresh(buf)
    {
      this.capacity := capacity;
      book := new LevelBook(max);
      buf := new Delta[capacity](_ => blank);
      nbuf, live, expected, stats, events := 0, false, 0, FRESH.stats, [];
    }

    method Buffer(d: Delta)
      requires Valid()
      modifies this, buf
      ensures Valid() && Model() == Hold(capacity, old(Model()), d) && events == old(events)
    {
      if nbuf < capacity {
        buf[nbuf] := d;
        nbuf := nbuf + 1;
      } else {
        stats := stats.(overflow := stats.overflow + 1);
      }
    }

    method TakeDelta(d: Delta)
      requires Valid()
      modifies this, buf, book, book.bid, book.ask
      ensures Valid() && events == old(events)
      ensures Model() == OnDelta(book.max, capacity, old(Model()), d)
    {
      if live {
        if d.seqNo == expected {
          book.ApplyUpdate(d.update);
          expected := expected + 1;
          stats := stats.(applied := stats.applied + 1);
        } else if d.seqNo > expected {
          stats := stats.(gaps := stats.gaps + 1);
          live := false;
          nbuf := 0;
          Buffer(d);
        } else {
          stats := stats.(staleDropped := stats.staleDropped + 1);
        }
      } else {
        Buffer(d);
      }
    }

    /** Prove the buffered deltas past the snapshot contiguous before touching the book. */
    method CheckContiguous(asOf: nat) returns (c: Check)
      requires Valid()
      ensures c == CheckBuffer(buf[..nbuf], asOf)
    {
      var next: nat := asOf + 1;
      for i := 0 to nbuf
        invariant CheckBuffer(buf[..i], asOf) == Ready(next)
      {
        assert buf[..i + 1][..i] == buf[..i];
        if buf[i].seqNo <= asOf {
          continue;
        }
        if buf[i].seqNo != next {
          assert buf[..nbuf][..i + 1] == buf[..i + 1];
          HoleStays(buf[..nbuf], asOf, i + 1);
          return Hole;
        }
        next := next + 1;
      }
      return Ready(next);
    }

    /** Rebuild the book from the snapshot's levels. */
    method Load(levels: seq<Update>)
      requires Valid()
      modifies book, book.bid, book.ask
      ensures Valid() && book.View() == Replay(book.max, EMPTY, levels)
    {
      book.Clear();
      for i := 0 to |levels|
        invariant Valid() && book.View() == Replay(book.max, EMPTY, levels[..i])
      {
        book.ApplyUpdate(levels[i]);
        assert levels[..i + 1][..i] == levels[..i];
      }
      assert levels[..|levels|] == levels;
    }

    /** Apply the buffered deltas the snapshot does not contain, in order. */
    method ApplyPending(asOf: nat)
      requires Valid()
      modifies book, book.bid, book.ask
      ensures Valid()
      ensures book.View() == Replay(book.max, old(book.View()), Pending(buf[..nbuf], asOf))
    {
      for i := 0 to nbuf
        invariant Valid()
        invariant book.View() == Replay(book.max, old(book.View()), Pending(buf[..i], asOf))
      {
        assert buf[..i + 1][..i] == buf[..i];
        ghost var before := Pending(buf[..i], asOf);
        if buf[i].seqNo > asOf {
          book.ApplyUpdate(buf[i].update);
          assert (before + [buf[i].update])[..|before|] == before;
        }
      }
    }

    method TakeSnapshot(asOf: nat, levels: seq<Update>)
      requires Valid()
      modifies this, book, book.bid, book.ask
      ensures Valid() && events == old(events)
      ensures Model() == OnSnapshot(book.max, capacity, old(Model()), asOf, levels)
    {
      if live && asOf < expected {
        return;
      }
      var c := CheckContiguous(asOf);
      if c == Hole {
        stats := stats.(tooOld := stats.tooOld + 1);
        return;
      }
      Load(levels);
      ApplyPending(asOf);
      expected := c.next;
      nbuf := 0;
      live := true;
      stats := stats.(recovered := stats.recovered + 1);
    }

    method ReceiveDelta(d: Delta)
      requires Reached()
      modifies this, buf, book, book.bid, book.ask
      ensures Reached() && Model() == OnDelta(book.max, capacity, old(Model()), d)
      ensures events == old(events) + [DeltaIn(d)]
    {
      RunAppend(book.max, capacity, events, DeltaIn(d));
      TakeDelta(d);
      events := events + [DeltaIn(d)];
    }

    method ReceiveSnapshot(asOf: nat, levels: seq<Update>)
      requires Reached()
      modifies this, book, book.bid, book.ask
      ensures Reached() && Model() == OnSnapshot(book.max, capacity, old(Model()), asOf, levels)
      ensures events == old(events) + [SnapshotIn(asOf, levels)]
    {
      RunAppend(book.max, capacity, events, SnapshotIn(asOf, levels));
      TakeSnapshot(asOf, levels);
      events := events + [SnapshotIn(asOf, levels)];
    }

    /** While live, the book in the arrays is the from-scratch book of the true stream. */
    lemma LiveViewIsExact(truth: seq<Update>)
      requires Reached() && live && Theorems.AllTruthful(book.max, truth, events)
      ensures 1 <= expected <= |truth| + 1
      ensures book.View() == Theorems.Reference(book.max, truth, expected - 1)
    {
      Theorems.LiveBookIsExact(book.max, capacity, truth, events);
    }

    /** On any input the bid array runs downwards and the ask array upwards. */
    lemma SidesInOrder()
      requires Reached()
      ensures forall i, j | 0 <= i < j < book.bids :: book.bid[i].price > book.bid[j].price
      ensures forall i, j | 0 <= i < j < book.asks :: book.ask[i].price < book.ask[j].price
    {
      BookLaws.BookStaysInOrder(book.max, capacity, events);
      var view := book.View();
      assert forall i | 0 <= i < book.bids :: view.bids[i] == book.bid[i];
      assert forall i | 0 <= i < book.asks :: view.asks[i] == book.ask[i];
    }

    /** While recovering, the buffer array holds the first deltas since the builder was live. */
    lemma BufferHoldsFirst(k: nat)
      requires Reached() && BuilderBuffer.LiveLast(book.max, capacity, events, k)
      ensures buf[..nbuf] == BuilderBuffer.FirstOf(capacity, BuilderBuffer.Deltas(events[k..]))
    {
      BuilderBuffer.BufferIsFirstDeltas(book.max, capacity, events, k);
    }
  }
}
