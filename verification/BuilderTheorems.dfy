/** Recovery: a live book is the book of a from-scratch build, whatever was lost on the way. */
module BuilderTheorems {
  import opened BookSpec
  import opened BookRuns
  import opened BuilderSpec

  // ---- sides of a two-sided run --------------------------------------------------------

  /** The changes of one side, in order. */
  function SideChanges(us: seq<Update>, side: Side): seq<Change> {
    if us == [] then []
    else
      var before, u := SideChanges(us[..|us| - 1], side), us[|us| - 1];
      if u.side == side then before + [Change(u.price, u.size)] else before
  }

  lemma {:induction false} ReplayBySide(max: nat, us: seq<Update>)
    ensures Replay(max, EMPTY, us)
            == Book(SideRun(max, true, SideChanges(us, Bid)), SideRun(max, false, SideChanges(us, Ask)))
  {
    if us != [] {
      var prefix, u := us[..|us| - 1], us[|us| - 1];
      var bids, asks, c := SideChanges(prefix, Bid), SideChanges(prefix, Ask), Change(u.price, u.size);
      ReplayBySide(max, prefix);
      match u.side
      case Bid => SideRunAppend(max, true, bids, c);
      case Ask => SideRunAppend(max, false, asks, c);
    }
  }

  lemma {:induction false} SideMembers(us: seq<Update>, side: Side)
    ensures forall p, n :: Change(p, n) in SideChanges(us, side) <==> Update(side, p, n) in us
  {
    if us != [] {
      assert us == us[..|us| - 1] + [us[|us| - 1]];
      SideMembers(us[..|us| - 1], side);
    }
  }

  ghost predicate WellFormed(max: nat, b: Book) {
    && Fits(max, b)
    && Sorted(true, b.bids) && Positive(b.bids)
    && Sorted(false, b.asks) && Positive(b.asks)
  }

  lemma ReplayWellFormed(max: nat, us: seq<Update>)
    ensures WellFormed(max, Replay(max, EMPTY, us))
  {
    ReplayBySide(max, us);
    SideIsSound(max, true, SideChanges(us, Bid));
    SideIsSound(max, false, SideChanges(us, Ask));
  }

  /** The snapshot lists the levels of the book, each at least once, in any order. */
  ghost predicate Lists(levels: seq<Update>, b: Book) {
    && (forall p, n :: Update(Bid, p, n) in levels <==> Level(p, n) in b.bids)
    && (forall p, n :: Update(Ask, p, n) in levels <==> Level(p, n) in b.asks)
  }

  /** Clearing the book and applying a snapshot of it gives the book back. */
  lemma SnapshotRoundTrip(max: nat, b: Book, levels: seq<Update>)
    requires WellFormed(max, b) && Lists(levels, b)
    ensures Replay(max, EMPTY, levels) == b
  {
    ReplayBySide(max, levels);
    SideMembers(levels, Bid);
    SideMembers(levels, Ask);
    RebuildSide(max, true, b.bids, SideChanges(levels, Bid));
    RebuildSide(max, false, b.asks, SideChanges(levels, Ask));
  }

  // ---- against the unbounded maps ---------------------------------------------------------

  /** The price-to-size map of one side, never bounded. */
  function SideMap(us: seq<Update>, side: Side): map<real, nat> {
    MapRun(SideChanges(us, side))
  }

  /** Each side of the book is the best `max` levels of its map. */
  ghost predicate BestOf(max: nat, b: Book, us: seq<Update>) {
    IsBest(max, true, b.bids, SideMap(us, Bid)) && IsBest(max, false, b.asks, SideMap(us, Ask))
  }

  lemma ReplayIsBest(max: nat, us: seq<Update>)
    ensures var b, bids, asks := Replay(max, EMPTY, us), SideChanges(us, Bid), SideChanges(us, Ask);
            && (NeverUncovers(max, true, bids) ==> IsBest(max, true, b.bids, MapRun(bids)))
            && (NeverUncovers(max, false, asks) ==> IsBest(max, false, b.asks, MapRun(asks)))
  {
    ReplayBySide(max, us);
    BestIffNeverUncovers(max, true, SideChanges(us, Bid));
    BestIffNeverUncovers(max, false, SideChanges(us, Ask));
  }

  /** The snapshot lists every live price of both sides, each at least once, in any order. */
  ghost predicate ListsAll(levels: seq<Update>, us: seq<Update>) {
    && (forall p, n :: Update(Bid, p, n) in levels <==> Priced(SideMap(us, Bid), p, n))
    && (forall p, n :: Update(Ask, p, n) in levels <==> Priced(SideMap(us, Ask), p, n))
  }

  lemma FullListing(max: nat, us: seq<Update>, levels: seq<Update>)
    requires ListsAll(levels, us)
    ensures BestOf(max, Replay(max, EMPTY, levels), us)
  {
    ReplayBySide(max, levels);
    SideMembers(levels, Bid);
    SideMembers(levels, Ask);
    RebuildFromMap(max, true, SideChanges(us, Bid), SideChanges(levels, Bid));
    RebuildFromMap(max, false, SideChanges(us, Ask), SideChanges(levels, Ask));
  }

  /**
   A snapshot of every live price, not only the kept ones, rebuilds the book of the updates
   themselves if and only if that book is the best levels of the maps.
   */
  lemma FullSnapshot(max: nat, us: seq<Update>, levels: seq<Update>)
    requires ListsAll(levels, us)
    ensures Replay(max, EMPTY, levels) == Replay(max, EMPTY, us)
            <==> BestOf(max, Replay(max, EMPTY, us), us)
  {
    var a, b := Replay(max, EMPTY, levels), Replay(max, EMPTY, us);
    FullListing(max, us, levels);
    if BestOf(max, b, us) {
      BestUnique(max, true, a.bids, b.bids, SideMap(us, Bid));
      BestUnique(max, false, a.asks, b.asks, SideMap(us, Ask));
    }
  }

  // ---- the truth ------------------------------------------------------------------------

  /** The book after the first n updates of the true stream, built from scratch. */
  function Reference(max: nat, truth: seq<Update>, n: nat): (b: Book)
    requires n <= |truth|
    ensures Fits(max, b)
  {
    Replay(max, EMPTY, truth[..n])
  }

  /** Sequence n carries the n-th true update. */
  ghost predicate TruthfulDelta(truth: seq<Update>, d: Delta) {
    1 <= d.seqNo <= |truth| && d.update == truth[d.seqNo - 1]
  }

  ghost predicate Truthful(max: nat, truth: seq<Update>, e: Event) {
    match e
    case DeltaIn(d) => TruthfulDelta(truth, d)
    case SnapshotIn(asOf, levels) =>
      asOf <= |truth| && ShowsReference(max, truth[..asOf], levels)
  }

  /** The snapshot lists the bounded book, or every live price while that book is the best of them. */
  ghost predicate ShowsReference(max: nat, us: seq<Update>, levels: seq<Update>) {
    || Lists(levels, Replay(max, EMPTY, us))
    || (ListsAll(levels, us) && BestOf(max, Replay(max, EMPTY, us), us))
  }

  ghost predicate AllTruthful(max: nat, truth: seq<Update>, evs: seq<Event>) {
    forall i | 0 <= i < |evs| :: Truthful(max, truth, evs[i])
  }

  ghost predicate BufferTruthful(truth: seq<Update>, buf: seq<Delta>) {
    forall i {:trigger TruthfulDelta(truth, buf[i])} | 0 <= i < |buf| :: TruthfulDelta(truth, buf[i])
  }

  ghost predicate Exact(max: nat, truth: seq<Update>, b: Builder) {
    && BufferTruthful(truth, b.buf)
    && (b.live ==>
          && b.buf == []
          && 1 <= b.expected <= |truth| + 1
          && b.book == Reference(max, truth, b.expected - 1))
  }

  lemma SliceGrows(truth: seq<Update>, m: nat, n: nat)
    requires m <= n < |truth|
    ensures truth[m..n] + [truth[n]] == truth[m..n + 1]
  {
  }

  lemma {:induction false} PendingIsTruth(truth: seq<Update>, buf: seq<Delta>, asOf: nat)
    requires BufferTruthful(truth, buf) && asOf <= |truth| && CheckBuffer(buf, asOf).Ready?
    ensures asOf + 1 <= CheckBuffer(buf, asOf).next <= |truth| + 1
    ensures Pending(buf, asOf) == truth[asOf..CheckBuffer(buf, asOf).next - 1]
  {
    if buf != [] {
      var prefix, d := buf[..|buf| - 1], buf[|buf| - 1];
      assert BufferTruthful(truth, prefix) && TruthfulDelta(truth, d);
      PendingIsTruth(truth, prefix, asOf);
      var next := CheckBuffer(prefix, asOf).next;
      if d.seqNo > asOf {
        assert d.seqNo == next && CheckBuffer(buf, asOf).next == next + 1;
        SliceGrows(truth, asOf, next - 1);
      } else {
        assert CheckBuffer(buf, asOf).next == next;
      }
    }
  }

  lemma ReferenceGrows(max: nat, truth: seq<Update>, m: nat, n: nat)
    requires m <= n <= |truth|
    ensures Replay(max, Reference(max, truth, m), truth[m..n]) == Reference(max, truth, n)
  {
    assert truth[..n] == truth[..m] + truth[m..n];
    ReplayAppend(max, EMPTY, truth[..m], truth[m..n]);
  }

  lemma SnapshotIsReference(max: nat, truth: seq<Update>, asOf: nat, levels: seq<Update>)
    requires Truthful(max, truth, SnapshotIn(asOf, levels))
    ensures Replay(max, EMPTY, levels) == Reference(max, truth, asOf)
  {
    var us := truth[..asOf];
    if Lists(levels, Replay(max, EMPTY, us)) {
      ReplayWellFormed(max, us);
      SnapshotRoundTrip(max, Replay(max, EMPTY, us), levels);
    } else {
      FullSnapshot(max, us, levels);
    }
  }

  /** A truthful snapshot plus the deltas past it is the from-scratch book through the last one. */
  lemma RecoveredBook(max: nat, truth: seq<Update>, buf: seq<Delta>, asOf: nat, levels: seq<Update>)
    requires BufferTruthful(truth, buf) && CheckBuffer(buf, asOf).Ready?
    requires asOf <= |truth| && Replay(max, EMPTY, levels) == Reference(max, truth, asOf)
    ensures var n := CheckBuffer(buf, asOf).next - 1;
            && n <= |truth|
            && Replay(max, Replay(max, EMPTY, levels), Pending(buf, asOf)) == Reference(max, truth, n)
  {
    var n := CheckBuffer(buf, asOf).next - 1;
    assert n <= |truth| && Pending(buf, asOf) == truth[asOf..n] by {
      PendingIsTruth(truth, buf, asOf);
    }
    ReferenceGrows(max, truth, asOf, n);
  }

  /** An accepted snapshot makes the builder live on the book it restores. */
  lemma Restored(max: nat, capacity: nat, b: Builder, asOf: nat, levels: seq<Update>, book: Book)
    requires Sized(max, capacity, b)
    requires !(b.live && asOf < b.expected) && CheckBuffer(b.buf, asOf).Ready?
    requires Replay(max, Replay(max, EMPTY, levels), Pending(b.buf, asOf)) == book
    ensures OnSnapshot(max, capacity, b, asOf, levels)
            == Builder(true, CheckBuffer(b.buf, asOf).next, book, [],
                       b.stats.(recovered := b.stats.recovered + 1))
  {
  }

  /** A snapshot that is not accepted leaves all but the statistics alone. */
  lemma Refused(max: nat, capacity: nat, b: Builder, asOf: nat, levels: seq<Update>)
    requires Sized(max, capacity, b)
    requires (b.live && asOf < b.expected) || CheckBuffer(b.buf, asOf).Hole?
    ensures var r := OnSnapshot(max, capacity, b, asOf, levels);
            r.live == b.live && r.expected == b.expected && r.book == b.book && r.buf == b.buf
  {
  }

  /** book is the from-scratch book after n true updates. */
  ghost predicate TrueBook(max: nat, truth: seq<Update>, n: nat, book: Book) {
    n <= |truth| && book == Reference(max, truth, n)
  }

  /** All the from-scratch books, one for each number of true updates. */
  ghost predicate TrueBooks(max: nat, truth: seq<Update>, books: seq<Book>) {
    && |books| == |truth| + 1
    && forall n: nat {:trigger TrueBook(max, truth, n, books[n])} | n <= |truth| ::
         TrueBook(max, truth, n, books[n])
  }

  ghost function AllBooks(max: nat, truth: seq<Update>): (books: seq<Book>)
    ensures TrueBooks(max, truth, books)
  {
    seq(|truth| + 1, n requires 0 <= n <= |truth| => Reference(max, truth, n))
  }

  lemma SnapshotIsTrueBook(max: nat, truth: seq<Update>, books: seq<Book>,
                           asOf: nat, levels: seq<Update>)
    requires TrueBooks(max, truth, books) && Truthful(max, truth, SnapshotIn(asOf, levels))
    ensures Replay(max, EMPTY, levels) == books[asOf]
  {
    SnapshotIsReference(max, truth, asOf, levels);
    assert TrueBook(max, truth, asOf, books[asOf]);
  }

  lemma RebuiltBook(max: nat, truth: seq<Update>, books: seq<Book>, buf: seq<Delta>,
                    asOf: nat, levels: seq<Update>)
    requires TrueBooks(max, truth, books) && BufferTruthful(truth, buf)
    requires asOf <= |truth| && Replay(max, EMPTY, levels) == books[asOf]
    requires CheckBuffer(buf, asOf).Ready?
    ensures var n := CheckBuffer(buf, asOf).next - 1;
            && n <= |truth|
            && Replay(max, Replay(max, EMPTY, levels), Pending(buf, asOf)) == books[n]
  {
    var n := CheckBuffer(buf, asOf).next - 1;
    assert TrueBook(max, truth, asOf, books[asOf]);
    RecoveredBook(max, truth, buf, asOf, levels);
    assert TrueBook(max, truth, n, books[n]);
  }

  /**
   The outcome of an accepted snapshot that shows a true book does not mention the snapshot:
   it is the true book through the last contiguous delta.
   */
  lemma Recovered(max: nat, capacity: nat, truth: seq<Update>, books: seq<Book>, b: Builder,
                  asOf: nat, levels: seq<Update>)
    requires TrueBooks(max, truth, books)
    requires Sized(max, capacity, b) && BufferTruthful(truth, b.buf)
    requires asOf <= |truth| && Replay(max, EMPTY, levels) == books[asOf]
    requires !(b.live && asOf < b.expected) && CheckBuffer(b.buf, asOf).Ready?
    ensures var n := CheckBuffer(b.buf, asOf).next;
            && asOf + 1 <= n <= |truth| + 1
            && OnSnapshot(max, capacity, b, asOf, levels)
               == Builder(true, n, books[n - 1], [],
                          b.stats.(recovered := b.stats.recovered + 1))
  {
    RebuiltBook(max, truth, books, b.buf, asOf, levels);
    Restored(max, capacity, b, asOf, levels, books[CheckBuffer(b.buf, asOf).next - 1]);
  }

  // ---- what every live book keeps -------------------------------------------------------------

  /** If good after n true updates, the book is good after the next. */
  ghost predicate Survives(max: nat, truth: seq<Update>, good: (nat, Book) -> bool, n: nat, b: Book) {
    n < |truth| && Fits(max, b) && good(n, b) ==> good(n + 1, Apply(max, b, truth[n]))
  }

  ghost predicate Carried(max: nat, truth: seq<Update>, good: (nat, Book) -> bool) {
    forall n: nat, b: Book {:trigger Survives(max, truth, good, n, b)} :: Survives(max, truth, good, n, b)
  }

  /** A true delta, or a snapshot that rebuilds a good book. */
  ghost predicate Feeds(max: nat, truth: seq<Update>, good: (nat, Book) -> bool, e: Event) {
    match e
    case DeltaIn(d) => TruthfulDelta(truth, d)
    case SnapshotIn(asOf, levels) => asOf <= |truth| && good(asOf, Replay(max, EMPTY, levels))
  }

  /** The buffer is true and a live book is good through expected - 1. */
  ghost predicate Keeps(truth: seq<Update>, good: (nat, Book) -> bool, b: Builder) {
    && BufferTruthful(truth, b.buf)
    && (b.live ==> b.buf == [] && 1 <= b.expected <= |truth| + 1 && good(b.expected - 1, b.book))
  }

  ghost predicate Slice(truth: seq<Update>, m: nat, us: seq<Update>) {
    m + |us| <= |truth| && us == truth[m..m + |us|]
  }

  lemma SliceShrinks(truth: seq<Update>, m: nat, us: seq<Update>)
    requires us != [] && Slice(truth, m, us)
    ensures Slice(truth, m, us[..|us| - 1]) && us[|us| - 1] == truth[m + |us| - 1]
  {
  }

  lemma {:induction false} CarriedAlong(max: nat, truth: seq<Update>, good: (nat, Book) -> bool,
                                        b: Book, m: nat, us: seq<Update>)
    requires Carried(max, truth, good) && Fits(max, b) && good(m, b) && Slice(truth, m, us)
    ensures good(m + |us|, Replay(max, b, us))
  {
    if us != [] {
      SliceShrinks(truth, m, us);
      CarriedAlong(max, truth, good, b, m, us[..|us| - 1]);
      CarriedLast(max, truth, good, b, m, us);
    }
  }

  lemma CarriedLast(max: nat, truth: seq<Update>, good: (nat, Book) -> bool,
                    b: Book, m: nat, us: seq<Update>)
    requires Carried(max, truth, good) && Fits(max, b)
    requires us != [] && m + |us| <= |truth| && us[|us| - 1] == truth[m + |us| - 1]
    requires good(m + |us| - 1, Replay(max, b, us[..|us| - 1]))
    ensures good(m + |us|, Replay(max, b, us))
  {
    assert Survives(max, truth, good, m + |us| - 1, Replay(max, b, us[..|us| - 1]));
  }

  lemma GoodWhenRecovered(max: nat, truth: seq<Update>, good: (nat, Book) -> bool,
                          buf: seq<Delta>, asOf: nat, b: Book)
    requires Carried(max, truth, good) && BufferTruthful(truth, buf)
    requires asOf <= |truth| && Fits(max, b) && good(asOf, b) && CheckBuffer(buf, asOf).Ready?
    ensures CheckBuffer(buf, asOf).next <= |truth| + 1
    ensures good(CheckBuffer(buf, asOf).next - 1, Replay(max, b, Pending(buf, asOf)))
  {
    PendingIsTruth(truth, buf, asOf);
    CarriedAlong(max, truth, good, b, asOf, Pending(buf, asOf));
  }

  lemma SnapshotKeeps(max: nat, capacity: nat, truth: seq<Update>, good: (nat, Book) -> bool,
                      b: Builder, asOf: nat, levels: seq<Update>, book: Book)
    requires Sized(max, capacity, b) && Keeps(truth, good, b)
    requires CheckBuffer(b.buf, asOf).Ready? ==>
               && CheckBuffer(b.buf, asOf).next <= |truth| + 1
               && book == Replay(max, Replay(max, EMPTY, levels), Pending(b.buf, asOf))
               && good(CheckBuffer(b.buf, asOf).next - 1, book)
    ensures Keeps(truth, good, OnSnapshot(max, capacity, b, asOf, levels))
  {
    if !(b.live && asOf < b.expected) && CheckBuffer(b.buf, asOf).Ready? {
      Restored(max, capacity, b, asOf, levels, book);
      KeepsGood(truth, good, CheckBuffer(b.buf, asOf).next, book,
                OnSnapshot(max, capacity, b, asOf, levels));
    } else {
      Refused(max, capacity, b, asOf, levels);
      KeepsUnchanged(truth, good, b, OnSnapshot(max, capacity, b, asOf, levels));
    }
  }

  lemma KeepsGood(truth: seq<Update>, good: (nat, Book) -> bool, n: nat, book: Book, r: Builder)
    requires 1 <= n <= |truth| + 1 && good(n - 1, book)
    requires r.live && r.expected == n && r.book == book && r.buf == []
    ensures Keeps(truth, good, r)
  {
  }

  lemma KeepsUnchanged(truth: seq<Update>, good: (nat, Book) -> bool, b: Builder, r: Builder)
    requires Keeps(truth, good, b)
    requires r.live == b.live && r.expected == b.expected && r.book == b.book && r.buf == b.buf
    ensures Keeps(truth, good, r)
  {
  }

  lemma DeltaKeeps(max: nat, capacity: nat, truth: seq<Update>, good: (nat, Book) -> bool,
                   b: Builder, d: Delta)
    requires Carried(max, truth, good) && Sized(max, capacity, b) && Keeps(truth, good, b)
    requires TruthfulDelta(truth, d)
    ensures Keeps(truth, good, OnDelta(max, capacity, b, d))
  {
    if b.live && d.seqNo == b.expected {
      assert Survives(max, truth, good, d.seqNo - 1, b.book);
    }
  }

  /**
   Recovery in general: whatever is true of the book a snapshot rebuilds, and survives every
   true update, is true of the book whenever the builder is live, for any losses,
   duplicates, reordering, buffer overflow and snapshot timing.
   */
  lemma {:induction false} LiveKeeps(max: nat, capacity: nat, truth: seq<Update>,
                                     good: (nat, Book) -> bool, evs: seq<Event>)
    requires Carried(max, truth, good)
    requires forall i | 0 <= i < |evs| :: Feeds(max, truth, good, evs[i])
    ensures Keeps(truth, good, Run(max, capacity, evs))
  {
    if evs != [] {
      var prefix, e := evs[..|evs| - 1], evs[|evs| - 1];
      LiveKeeps(max, capacity, truth, good, prefix);
      var b := Run(max, capacity, prefix);
      match e
      case DeltaIn(d) => DeltaKeeps(max, capacity, truth, good, b, d);
      case SnapshotIn(asOf, levels) =>
        var book := Replay(max, EMPTY, levels);
        if CheckBuffer(b.buf, asOf).Ready? {
          GoodWhenRecovered(max, truth, good, b.buf, asOf, book);
        }
        SnapshotKeeps(max, capacity, truth, good, b, asOf, levels,
                      Replay(max, book, Pending(b.buf, asOf)));
    }
  }

  lemma TrueBookCarried(max: nat, truth: seq<Update>, n: nat, b: Book)
    requires n < |truth| && TrueBook(max, truth, n, b)
    ensures TrueBook(max, truth, n + 1, Apply(max, b, truth[n]))
  {
    assert truth[..n + 1][..n] == truth[..n];
  }

  /**
   Whenever the builder is live its book is the from-scratch book through expected - 1,
   for any losses, duplicates, reordering, buffer overflow and snapshot timing.
   */
  lemma LiveBookIsExact(max: nat, capacity: nat, truth: seq<Update>, evs: seq<Event>)
    requires AllTruthful(max, truth, evs)
    ensures Exact(max, truth, Run(max, capacity, evs))
  {
    var good := (n: nat, b: Book) => TrueBook(max, truth, n, b);
    forall n: nat, b: Book ensures Survives(max, truth, good, n, b) {
      if n < |truth| && good(n, b) {
        TrueBookCarried(max, truth, n, b);
      }
    }
    forall i | 0 <= i < |evs| ensures Feeds(max, truth, good, evs[i]) {
      if evs[i].SnapshotIn? {
        SnapshotIsReference(max, truth, evs[i].asOf, evs[i].levels);
      }
    }
    LiveKeeps(max, capacity, truth, good, evs);
  }

  /**
   So a live book is the best levels of the true, unbounded maps, side by side, as long as no
   true update removed one of a side's best `max` prices while more than `max` were live.
   */
  lemma LiveBookIsBest(max: nat, capacity: nat, truth: seq<Update>, evs: seq<Event>)
    requires AllTruthful(max, truth, evs) && Run(max, capacity, evs).live
    ensures BestSoFar(max, truth, Run(max, capacity, evs))
  {
    LiveBookIsExact(max, capacity, truth, evs);
    ExactIsBest(max, truth, Run(max, capacity, evs));
  }

  ghost predicate BestSoFar(max: nat, truth: seq<Update>, b: Builder) {
    && 1 <= b.expected <= |truth| + 1
    && var us := truth[..b.expected - 1];
       var bids, asks := SideChanges(us, Bid), SideChanges(us, Ask);
       && (NeverUncovers(max, true, bids) ==> IsBest(max, true, b.book.bids, MapRun(bids)))
       && (NeverUncovers(max, false, asks) ==> IsBest(max, false, b.book.asks, MapRun(asks)))
  }

  lemma ExactIsBest(max: nat, truth: seq<Update>, b: Builder)
    requires b.live && Exact(max, truth, b)
    ensures BestSoFar(max, truth, b)
  {
    ReplayIsBest(max, truth[..b.expected - 1]);
  }

  // ---- snapshots of any depth, at any time ---------------------------------------------------

  /** Both sides are in order and hold only levels of the true maps, with their sizes. */
  ghost predicate SoundBook(b: Book, us: seq<Update>) {
    Sound(true, b.bids, SideMap(us, Bid)) && Sound(false, b.asks, SideMap(us, Ask))
  }

  /** The snapshot lists the bounded book or every live price. */
  ghost predicate ShowsSome(max: nat, us: seq<Update>, levels: seq<Update>) {
    Lists(levels, Replay(max, EMPTY, us)) || ListsAll(levels, us)
  }

  ghost predicate Plausible(max: nat, truth: seq<Update>, e: Event) {
    match e
    case DeltaIn(d) => TruthfulDelta(truth, d)
    case SnapshotIn(asOf, levels) => asOf <= |truth| && ShowsSome(max, truth[..asOf], levels)
  }

  ghost predicate AllPlausible(max: nat, truth: seq<Update>, evs: seq<Event>) {
    forall i | 0 <= i < |evs| :: Plausible(max, truth, evs[i])
  }

  lemma SoundApply(max: nat, b: Book, us: seq<Update>, u: Update)
    requires Fits(max, b) && SoundBook(b, us)
    ensures SoundBook(Apply(max, b, u), us + [u])
  {
    assert (us + [u])[..|us + [u]| - 1] == us;
    var c := Change(u.price, u.size);
    match u.side
    case Bid =>
      SoundStep(max, true, b.bids, SideMap(us, Bid), u.price, u.size);
      MapRunAppend(SideChanges(us, Bid), c);
    case Ask =>
      SoundStep(max, false, b.asks, SideMap(us, Ask), u.price, u.size);
      MapRunAppend(SideChanges(us, Ask), c);
  }

  lemma BestIsSound(max: nat, b: Book, us: seq<Update>)
    requires BestOf(max, b, us)
    ensures SoundBook(b, us)
  {
    MapPositive(SideChanges(us, Bid));
    MapPositive(SideChanges(us, Ask));
  }

  lemma SnapshotIsSound(max: nat, us: seq<Update>, levels: seq<Update>)
    requires ShowsSome(max, us, levels)
    ensures SoundBook(Replay(max, EMPTY, levels), us)
  {
    if ListsAll(levels, us) {
      FullListing(max, us, levels);
      BestIsSound(max, Replay(max, EMPTY, levels), us);
    } else {
      ReplayWellFormed(max, us);
      SnapshotRoundTrip(max, Replay(max, EMPTY, us), levels);
      ReplayBySide(max, us);
      SideIsSound(max, true, SideChanges(us, Bid));
      SideIsSound(max, false, SideChanges(us, Ask));
    }
  }

  /** The book is sound for the first n true updates. */
  ghost predicate SoundAfter(truth: seq<Update>, n: nat, b: Book) {
    n <= |truth| && SoundBook(b, truth[..n])
  }

  lemma PrefixGrows(truth: seq<Update>, n: nat)
    requires n < |truth|
    ensures truth[..n] + [truth[n]] == truth[..n + 1]
  {
  }

  lemma SoundCarried(max: nat, truth: seq<Update>, n: nat, b: Book)
    requires n < |truth| && Fits(max, b) && SoundAfter(truth, n, b)
    ensures SoundAfter(truth, n + 1, Apply(max, b, truth[n]))
  {
    PrefixGrows(truth, n);
    SoundApply(max, b, truth[..n], truth[n]);
  }

  /**
   Even with snapshots of every live price at any time, a live book is sorted and never shows
   a level that the true maps do not hold, or with another size.
   */
  lemma LiveBookIsSound(max: nat, capacity: nat, truth: seq<Update>, evs: seq<Event>)
    requires AllPlausible(max, truth, evs)
    ensures var b := Run(max, capacity, evs);
            b.live ==> 1 <= b.expected && SoundAfter(truth, b.expected - 1, b.book)
  {
    var good := (n: nat, b: Book) => SoundAfter(truth, n, b);
    forall n: nat, b: Book ensures Survives(max, truth, good, n, b) {
      if n < |truth| && Fits(max, b) && good(n, b) {
        SoundCarried(max, truth, n, b);
      }
    }
    forall i | 0 <= i < |evs| ensures Feeds(max, truth, good, evs[i]) {
      if evs[i].SnapshotIn? {
        SnapshotIsSound(max, truth[..evs[i].asOf], evs[i].levels);
      }
    }
    LiveKeeps(max, capacity, truth, good, evs);
  }

  // ---- recovery never rewinds --------------------------------------------------------------

  /** While recovering from a gap, the first buffered delta is past what was expected. */
  ghost predicate Anchored(b: Builder) {
    if b.live then b.buf == []
    else b.expected == 0 || (b.buf != [] && b.buf[0].seqNo > b.expected)
  }

  lemma StepAnchored(max: nat, capacity: nat, b: Builder, e: Event)
    requires capacity >= 1 && Sized(max, capacity, b) && Anchored(b)
    ensures Anchored(Step(max, capacity, b, e))
    ensures b.expected <= Step(max, capacity, b, e).expected
    ensures e.SnapshotIn? && Step(max, capacity, b, e).stats.recovered != b.stats.recovered
            ==> b.expected < Step(max, capacity, b, e).expected
  {
    if e.SnapshotIn? && b.buf != [] && CheckBuffer(b.buf, e.asOf).Ready? {
      NextIsPast(b.buf, e.asOf, 0);
    }
  }

  lemma {:induction false} RunAnchored(max: nat, capacity: nat, evs: seq<Event>)
    requires capacity >= 1
    ensures Anchored(Run(max, capacity, evs))
  {
    if evs != [] {
      RunAnchored(max, capacity, evs[..|evs| - 1]);
      StepAnchored(max, capacity, Run(max, capacity, evs[..|evs| - 1]), evs[|evs| - 1]);
    }
  }

  /** The expected sequence never goes back, on any input, truthful or not. */
  lemma {:induction false} NeverRewinds(max: nat, capacity: nat, evs: seq<Event>, n: nat)
    requires capacity >= 1 && n <= |evs|
    ensures Run(max, capacity, evs[..n]).expected <= Run(max, capacity, evs).expected
  {
    if n == |evs| {
      assert evs[..n] == evs;
    } else {
      var prefix := evs[..|evs| - 1];
      NeverRewinds(max, capacity, prefix, n);
      assert prefix[..n] == evs[..n];
      RunAnchored(max, capacity, prefix);
      StepAnchored(max, capacity, Run(max, capacity, prefix), evs[|evs| - 1]);
    }
  }

  /** With no recovery buffer at all the sequence can go back. */
  lemma RewindsWithoutBuffer(max: nat, u: Update)
    ensures var evs := [SnapshotIn(5, []), DeltaIn(Delta(10, u)), SnapshotIn(1, [])];
            Run(max, 0, evs).expected == 2 < Run(max, 0, evs[..1]).expected == 6
  {
    var evs := [SnapshotIn(5, []), DeltaIn(Delta(10, u)), SnapshotIn(1, [])];
    assert evs[..2][..1] == evs[..1] && evs[..1][..0] == [];
    assert Run(max, 0, evs[..1]).live;
    assert !Run(max, 0, evs[..2]).live && Run(max, 0, evs[..2]).buf == [];
  }

  // ---- recovery is confluent ---------------------------------------------------------------

  ghost predicate Ascending(buf: seq<Delta>) {
    forall i, j | 0 <= i < j < |buf| :: buf[i].seqNo < buf[j].seqNo
  }

  /** Where the unbroken run at the end of the buffer starts. */
  function TailStart(buf: seq<Delta>): nat
    requires buf != []
  {
    var last := |buf| - 1;
    if last > 0 && buf[last].seqNo == buf[last - 1].seqNo + 1 then TailStart(buf[..last])
    else buf[last].seqNo
  }

  /**
   The snapshots that close the gap: for an ascending buffer, exactly those from one
   before its last unbroken run on; the sequence expected next is then the same for all of
   them up to the last buffered delta.
   */
  lemma {:induction false} AcceptableFrom(buf: seq<Delta>, asOf: nat)
    requires Ascending(buf) && buf != []
    ensures CheckBuffer(buf, asOf).Ready? <==> asOf + 1 >= TailStart(buf)
    ensures CheckBuffer(buf, asOf).Ready? ==>
              CheckBuffer(buf, asOf).next
              == (if asOf <= buf[|buf| - 1].seqNo then buf[|buf| - 1].seqNo else asOf) + 1
    ensures TailStart(buf) <= buf[|buf| - 1].seqNo
  {
    var last := |buf| - 1;
    if last > 0 {
      AcceptableFrom(buf[..last], asOf);
      assert buf[last - 1].seqNo < buf[last].seqNo;
    } else {
      assert buf[..last] == [];
    }
  }

  /** A later snapshot is acceptable whenever an earlier one is. */
  lemma LaterSnapshotAccepted(buf: seq<Delta>, asOf: nat, later: nat)
    requires Ascending(buf) && asOf <= later && CheckBuffer(buf, asOf).Ready?
    ensures CheckBuffer(buf, later).Ready?
  {
    if buf != [] {
      AcceptableFrom(buf, asOf);
      AcceptableFrom(buf, later);
    }
  }

  /** Any two acceptable truthful snapshots up to the last buffered delta lead to the same builder. */
  lemma RecoveryIsConfluent(max: nat, capacity: nat, truth: seq<Update>, b: Builder,
                            m: nat, levels: seq<Update>, n: nat, levels': seq<Update>)
    requires Sized(max, capacity, b) && Exact(max, truth, b) && !b.live
    requires Ascending(b.buf) && b.buf != []
    requires m <= b.buf[|b.buf| - 1].seqNo && n <= b.buf[|b.buf| - 1].seqNo
    requires Truthful(max, truth, SnapshotIn(m, levels))
    requires Truthful(max, truth, SnapshotIn(n, levels'))
    requires CheckBuffer(b.buf, m).Ready? && CheckBuffer(b.buf, n).Ready?
    ensures OnSnapshot(max, capacity, b, m, levels) == OnSnapshot(max, capacity, b, n, levels')
  {
    SameBook(max, truth, b.buf, m, levels, n, levels');
    var book := Replay(max, Replay(max, EMPTY, levels), Pending(b.buf, m));
    Restored(max, capacity, b, m, levels, book);
    Restored(max, capacity, b, n, levels', book);
  }

  /** Both snapshots restore the book through the last buffered delta. */
  lemma SameBook(max: nat, truth: seq<Update>, buf: seq<Delta>,
                 m: nat, levels: seq<Update>, n: nat, levels': seq<Update>)
    requires BufferTruthful(truth, buf) && Ascending(buf) && buf != []
    requires m <= buf[|buf| - 1].seqNo && n <= buf[|buf| - 1].seqNo
    requires Truthful(max, truth, SnapshotIn(m, levels))
    requires Truthful(max, truth, SnapshotIn(n, levels'))
    requires CheckBuffer(buf, m).Ready? && CheckBuffer(buf, n).Ready?
    ensures CheckBuffer(buf, m) == CheckBuffer(buf, n)
    ensures Replay(max, Replay(max, EMPTY, levels), Pending(buf, m))
            == Replay(max, Replay(max, EMPTY, levels'), Pending(buf, n))
  {
    var books, last := AllBooks(max, truth), buf[|buf| - 1].seqNo;
    assert TruthfulDelta(truth, buf[|buf| - 1]);
    assert CheckBuffer(buf, m) == Ready(last + 1) && CheckBuffer(buf, n) == Ready(last + 1) by {
      AcceptableFrom(buf, m);
      AcceptableFrom(buf, n);
    }
    BookThrough(max, truth, books, buf, m, levels, last, books[last]);
    BookThrough(max, truth, books, buf, n, levels', last, books[last]);
  }

  lemma BookThrough(max: nat, truth: seq<Update>, books: seq<Book>, buf: seq<Delta>,
                    asOf: nat, levels: seq<Update>, last: nat, book: Book)
    requires TrueBooks(max, truth, books) && BufferTruthful(truth, buf)
    requires Truthful(max, truth, SnapshotIn(asOf, levels))
    requires CheckBuffer(buf, asOf) == Ready(last + 1)
    requires last <= |truth| && books[last] == book
    ensures Replay(max, Replay(max, EMPTY, levels), Pending(buf, asOf)) == book
  {
    assert Replay(max, EMPTY, levels) == books[asOf] by {
      SnapshotIsTrueBook(max, truth, books, asOf, levels);
    }
    RebuiltBook(max, truth, books, buf, asOf, levels);
  }

  // ---- in-order input -------------------------------------------------------------------------

  /** The delta events come in strictly increasing sequence. */
  ghost predicate DeltasAscend(evs: seq<Event>) {
    forall i, j | 0 <= i < j < |evs| && evs[i].DeltaIn? && evs[j].DeltaIn? ::
      evs[i].delta.seqNo < evs[j].delta.seqNo
  }

  ghost predicate FromEvents(buf: seq<Delta>, evs: seq<Event>) {
    forall i | 0 <= i < |buf| :: DeltaIn(buf[i]) in evs
  }

  lemma AscendingStep(buf: seq<Delta>, d: Delta)
    requires Ascending(buf) && forall i | 0 <= i < |buf| :: buf[i].seqNo < d.seqNo
    ensures Ascending(buf + [d])
  {
  }

  lemma LastDeltaIsHighest(evs: seq<Event>, buf: seq<Delta>)
    requires evs != [] && DeltasAscend(evs) && evs[|evs| - 1].DeltaIn?
    requires FromEvents(buf, evs[..|evs| - 1])
    ensures forall i | 0 <= i < |buf| :: buf[i].seqNo < evs[|evs| - 1].delta.seqNo
  {
    var last := |evs| - 1;
    forall i | 0 <= i < |buf| ensures buf[i].seqNo < evs[last].delta.seqNo {
      var j :| 0 <= j < last && evs[..last][j] == DeltaIn(buf[i]);
      assert evs[j] == DeltaIn(buf[i]);
    }
  }

  lemma FromEventsGrows(buf: seq<Delta>, evs: seq<Event>)
    requires evs != [] && FromEvents(buf, evs[..|evs| - 1])
    ensures FromEvents(buf, evs)
  {
    assert evs == evs[..|evs| - 1] + [evs[|evs| - 1]];
  }

  lemma StepBuffer(max: nat, capacity: nat, b: Builder, e: Event)
    requires Sized(max, capacity, b)
    ensures var buf := Step(max, capacity, b, e).buf;
            || buf == b.buf || buf == []
            || (e.DeltaIn? && (buf == [e.delta] || buf == b.buf + [e.delta]))
  {
    if e.DeltaIn? {
      assert [] + [e.delta] == [e.delta];
    }
  }

  /** In-order input keeps the recovery buffer ascending, overflow or not. */
  lemma {:induction false} BufferAscends(max: nat, capacity: nat, evs: seq<Event>)
    requires DeltasAscend(evs)
    ensures Ascending(Run(max, capacity, evs).buf)
    ensures FromEvents(Run(max, capacity, evs).buf, evs)
  {
    if evs != [] {
      var prefix, e := evs[..|evs| - 1], evs[|evs| - 1];
      BufferAscends(max, capacity, prefix);
      var b, c := Run(max, capacity, prefix), Run(max, capacity, evs);
      FromEventsGrows(b.buf, evs);
      if e.DeltaIn? {
        LastDeltaIsHighest(evs, b.buf);
        AscendingStep(b.buf, e.delta);
      }
      StepBuffer(max, capacity, b, e);
    }
  }

  /**
   On truthful in-order input: from any recovering state, whenever a snapshot is accepted
   so is every later one, and up to the last buffered delta they all give the same builder.
   */
  lemma InOrderRecovery(max: nat, capacity: nat, truth: seq<Update>, evs: seq<Event>,
                        m: nat, levels: seq<Update>, n: nat, levels': seq<Update>)
    requires AllTruthful(max, truth, evs) && DeltasAscend(evs)
    requires Truthful(max, truth, SnapshotIn(m, levels)) && m <= n
    requires Truthful(max, truth, SnapshotIn(n, levels'))
    requires var b := Run(max, capacity, evs);
             && !b.live && b.buf != [] && n <= b.buf[|b.buf| - 1].seqNo
             && CheckBuffer(b.buf, m).Ready?
    ensures var b := Run(max, capacity, evs);
            OnSnapshot(max, capacity, b, m, levels) == OnSnapshot(max, capacity, b, n, levels')
            && OnSnapshot(max, capacity, b, n, levels').live
  {
    LiveBookIsExact(max, capacity, truth, evs);
    BufferAscends(max, capacity, evs);
    var b := Run(max, capacity, evs);
    LaterSnapshotAccepted(b.buf, m, n);
    RecoveryIsConfluent(max, capacity, truth, b, m, levels, n, levels');
  }

  /** Every gap ends a live stretch, and every live stretch began with a recovery. */
  lemma {:induction false} GapsNeedRecovery(max: nat, capacity: nat, evs: seq<Event>)
    ensures var b := Run(max, capacity, evs);
            b.stats.gaps + (if b.live then 1 else 0) <= b.stats.recovered
  {
    if evs != [] {
      GapsNeedRecovery(max, capacity, evs[..|evs| - 1]);
    }
  }
}
