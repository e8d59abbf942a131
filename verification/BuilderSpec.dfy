/** The book builder on values: the two-sided book, and the Recovering/Live protocol over it. */
module BuilderSpec {
  import opened BookSpec
  import opened BookRuns

  datatype Side = Bid | Ask

  // A book update, or a level of a snapshot: the total size at one price on one side.
  datatype Update = Update(side: Side, price: real, size: nat)

  datatype Delta = Delta(seqNo: nat, update: Update)

  datatype Book = Book(bids: seq<Level>, asks: seq<Level>)

  const EMPTY := Book([], [])

  predicate Fits(max: nat, b: Book) {
    |b.bids| <= max && |b.asks| <= max
  }

  function Apply(max: nat, b: Book, u: Update): (r: Book)
    requires Fits(max, b)
    ensures Fits(max, r)
  {
    match u.side
    case Bid => b.(bids := ApplySide(max, true, b.bids, u.price, u.size))
    case Ask => b.(asks := ApplySide(max, false, b.asks, u.price, u.size))
  }

  function Replay(max: nat, b: Book, us: seq<Update>): (r: Book)
    requires Fits(max, b)
    ensures Fits(max, r)
  {
    if us == [] then b
    else Apply(max, Replay(max, b, us[..|us| - 1]), us[|us| - 1])
  }

  lemma {:induction false} ReplayAppend(max: nat, b: Book, us: seq<Update>, vs: seq<Update>)
    requires Fits(max, b)
    ensures Replay(max, b, us + vs) == Replay(max, Replay(max, b, us), vs)
  {
    if vs == [] {
      assert us + vs == us;
    } else {
      assert (us + vs)[..|us + vs| - 1] == us + vs[..|vs| - 1];
      ReplayAppend(max, b, us, vs[..|vs| - 1]);
    }
  }

  // ---- the protocol -----------------------------------------------------------------

  datatype Stats = Stats(applied: nat, gaps: nat, recovered: nat,
                         staleDropped: nat, tooOld: nat, overflow: nat)

  datatype Builder = Builder(live: bool, expected: nat, book: Book, buf: seq<Delta>, stats: Stats)

  const FRESH := Builder(false, 0, EMPTY, [], Stats(0, 0, 0, 0, 0, 0))

  predicate Sized(max: nat, capacity: nat, b: Builder) {
    Fits(max, b.book) && |b.buf| <= capacity
  }

  function Hold(capacity: nat, b: Builder, d: Delta): Builder {
    if |b.buf| < capacity then b.(buf := b.buf + [d])
    else b.(stats := b.stats.(overflow := b.stats.overflow + 1))
  }

  function OnDelta(max: nat, capacity: nat, b: Builder, d: Delta): (r: Builder)
    requires Sized(max, capacity, b)
    ensures Sized(max, capacity, r)
  {
    if !b.live then Hold(capacity, b, d)
    else if d.seqNo == b.expected then
      b.(book := Apply(max, b.book, d.update), expected := b.expected + 1,
         stats := b.stats.(applied := b.stats.applied + 1))
    else if d.seqNo > b.expected then
      Hold(capacity,
           b.(live := false, buf := [], stats := b.stats.(gaps := b.stats.gaps + 1)), d)
    else
      b.(stats := b.stats.(staleDropped := b.stats.staleDropped + 1))
  }

  /** The outcome of checking the buffer against a snapshot. */
  datatype Check = Hole | Ready(next: nat)

  /** Are the buffered deltas past the snapshot as_of + 1, as_of + 2, ... in this order? */
  function CheckBuffer(buf: seq<Delta>, asOf: nat): (c: Check)
    ensures c.Ready? ==> c.next >= asOf + 1
  {
    if buf == [] then Ready(asOf + 1)
    else
      match CheckBuffer(buf[..|buf| - 1], asOf)
      case Hole => Hole
      case Ready(next) =>
        var d := buf[|buf| - 1];
        if d.seqNo <= asOf then Ready(next)
        else if d.seqNo == next then Ready(next + 1)
        else Hole
  }

  /** What a snapshot leads to expect lies past every buffered delta. */
  lemma {:induction false} NextIsPast(buf: seq<Delta>, asOf: nat, i: nat)
    requires CheckBuffer(buf, asOf).Ready? && i < |buf|
    ensures buf[i].seqNo < CheckBuffer(buf, asOf).next
  {
    if i < |buf| - 1 {
      NextIsPast(buf[..|buf| - 1], asOf, i);
    }
  }

  /** The buffered updates the snapshot does not contain yet. */
  function Pending(buf: seq<Delta>, asOf: nat): seq<Update> {
    if buf == [] then []
    else
      var before, d := Pending(buf[..|buf| - 1], asOf), buf[|buf| - 1];
      if d.seqNo > asOf then before + [d.update] else before
  }

  function Commit(max: nat, b: Builder, asOf: nat, levels: seq<Update>, next: nat): (r: Builder)
    ensures Fits(max, r.book) && r.buf == []
  {
    Builder(true, next, Replay(max, Replay(max, EMPTY, levels), Pending(b.buf, asOf)), [],
            b.stats.(recovered := b.stats.recovered + 1))
  }

  function OnSnapshot(max: nat, capacity: nat, b: Builder, asOf: nat, levels: seq<Update>)
      : (r: Builder)
    requires Sized(max, capacity, b)
    ensures Sized(max, capacity, r)
  {
    if b.live && asOf < b.expected then b
    else
      match CheckBuffer(b.buf, asOf)
      case Hole => b.(stats := b.stats.(tooOld := b.stats.tooOld + 1))
      case Ready(next) => Commit(max, b, asOf, levels, next)
  }

  // ---- runs -------------------------------------------------------------------------

  datatype Event = DeltaIn(delta: Delta) | SnapshotIn(asOf: nat, levels: seq<Update>)

  function Step(max: nat, capacity: nat, b: Builder, e: Event): (r: Builder)
    requires Sized(max, capacity, b)
    ensures Sized(max, capacity, r)
  {
    match e
    case DeltaIn(d) => OnDelta(max, capacity, b, d)
    case SnapshotIn(asOf, levels) => OnSnapshot(max, capacity, b, asOf, levels)
  }

  function Run(max: nat, capacity: nat, evs: seq<Event>): (b: Builder)
    ensures Sized(max, capacity, b)
  {
    if evs == [] then FRESH
    else Step(max, capacity, Run(max, capacity, evs[..|evs| - 1]), evs[|evs| - 1])
  }

  lemma RunAppend(max: nat, capacity: nat, evs: seq<Event>, e: Event)
    ensures Run(max, capacity, evs + [e]) == Step(max, capacity, Run(max, capacity, evs), e)
  {
    assert (evs + [e])[..|evs + [e]| - 1] == evs;
  }
}
