/** The ring is a bounded first-in first-out queue in every interleaving, wrap-around included. */
module RingTheorems {
  import opened Bits
  import opened RingMachine

  // ---- machine words ------------------------------------------------------------

  /** Wrapped subtraction recovers the true distance while it is less than a word. */
  lemma MinusIsDistance(a: nat, b: nat)
    requires b <= a < b + WORD
    ensures Minus(a % WORD, b % WORD) == a - b
  {
    RemainderAhead(b, a - b, WORD);
  }

  lemma SameWord(a: nat, b: nat)
    requires b <= a < b + WORD
    ensures a % WORD == b % WORD <==> a == b
  {
    RemainderAhead(b, a - b, WORD);
  }

  lemma WordSuccessor(a: nat)
    ensures Plus1(a % WORD) == (a + 1) % WORD
  {
    assert WORD > 1;
    RemainderAhead(a, 1, WORD);
  }

  /**
   The slot of the n-th message can be computed from the wrapped cursor for every n exactly
   when the capacity divides the word size.
   */
  lemma WrapNeedsDivisor(capacity: nat)
    requires capacity >= 1
    ensures (forall n: nat :: n % WORD % capacity == n % capacity) <==> WORD % capacity == 0
  {
    if WORD % capacity == 0 {
      forall n: nat ensures n % WORD % capacity == n % capacity {
        RemainderOfRemainder(n, WORD, capacity);
      }
    } else {
      var n := WORD;
      RemainderUnique(n, WORD, 1, 0);
      assert n % WORD % capacity == 0;
    }
  }

  /** Masking the wrapped cursor finds the slot of the unwrapped count. */
  lemma IndexOfCount(c: Config, n: nat)
    requires ValidConfig(c)
    ensures Index(c, n % WORD) == n % c.capacity
  {
    assert WORD % c.capacity == 0 by {
      PowerOfTwoDivides(c.capacity, 64);
    }
    MaskOfRemainder(n, WORD, c.capacity);
  }

  // ---- the invariant ----------------------------------------------------------------

  ghost predicate Cursors<T>(c: Config, s: Ring<T>) {
    && |s.slots| == c.capacity
    && s.tail == |s.pushed| % WORD && s.head == |s.popped| % WORD
    && s.cachedHead < WORD
    && (c.cached ==> s.cachedHead == s.seenHead % WORD && s.cachedTail == s.seenTail % WORD)
    && s.seenHead <= |s.popped| <= s.seenTail <= |s.pushed| <= s.seenHead + c.capacity
  }

  ghost predicate Contents<T>(c: Config, s: Ring<T>)
    requires c.capacity >= 1
  {
    && |s.slots| == c.capacity && |s.popped| <= |s.pushed|
    && s.popped == s.pushed[..|s.popped|]
    && forall n | |s.popped| <= n < |s.pushed| :: s.slots[n % c.capacity] == s.pushed[n]
  }

  ghost predicate ProducerOk<T>(c: Config, s: Ring<T>)
    requires c.capacity >= 1 && |s.slots| == c.capacity
  {
    match s.producer
    case PushIdle => true
    case PushCheck(_, t) => t == s.tail
    case PushWrite(_, t) => t == s.tail && |s.pushed| < s.seenHead + c.capacity
    case PushPublish(item, t) =>
      && t == s.tail && |s.pushed| < s.seenHead + c.capacity
      && s.slots[|s.pushed| % c.capacity] == item
  }

  ghost predicate ConsumerOk<T>(s: Ring<T>) {
    match s.consumer
    case PopIdle => true
    case PopCheck(h) => h == s.head
    case PopRead(h) => h == s.head && |s.popped| < s.seenTail <= |s.pushed|
    case PopPublish(h, value) =>
      h == s.head && |s.popped| < s.seenTail <= |s.pushed| && value == s.pushed[|s.popped|]
  }

  ghost predicate Inv<T>(c: Config, s: Ring<T>) {
    ValidConfig(c) && Cursors(c, s) && Contents(c, s) && ProducerOk(c, s) && ConsumerOk(s)
  }

  lemma InitialInv<T>(c: Config, s: Ring<T>)
    requires ValidConfig(c) && Initial(c, s)
    ensures Inv(c, s)
  {
  }

  lemma DistinctSlots(c: Config, m: nat, n: nat)
    requires c.capacity >= 1 && m < n < m + c.capacity
    ensures m % c.capacity != n % c.capacity
  {
    if m % c.capacity == n % c.capacity {
      CloseAndCongruent(m, n, c.capacity);
    }
  }

  lemma LoadHeadInv<T>(c: Config, s: Ring<T>, count: nat)
    requires Inv(c, s) && Enabled(c, s, LoadHead(count))
    ensures Inv(c, Next(c, s, LoadHead(count)))
    ensures Next(c, s, LoadHead(count)).producer.PushIdle? <==> |s.pushed| == count + c.capacity
  {
    MinusIsDistance(|s.pushed|, count);
  }

  lemma LoadTailInv<T>(c: Config, s: Ring<T>, count: nat)
    requires Inv(c, s) && Enabled(c, s, LoadTail(count))
    ensures Inv(c, Next(c, s, LoadTail(count)))
    ensures Next(c, s, LoadTail(count)).consumer.PopIdle? <==> |s.popped| == count
  {
    SameWord(count, |s.popped|);
  }

  lemma TrustHeadInv<T>(c: Config, s: Ring<T>)
    requires Inv(c, s) && Enabled(c, s, TrustHead)
    ensures Inv(c, Next(c, s, TrustHead))
  {
    MinusIsDistance(|s.pushed|, s.seenHead);
  }

  lemma WriteSlotInv<T>(c: Config, s: Ring<T>)
    requires Inv(c, s) && Enabled(c, s, WriteSlot)
    ensures Inv(c, Next(c, s, WriteSlot))
  {
    var at := |s.pushed| % c.capacity;
    IndexOfCount(c, |s.pushed|);
    forall n | |s.popped| <= n < |s.pushed| ensures n % c.capacity != at {
      DistinctSlots(c, n, |s.pushed|);
    }
  }

  lemma PublishTailInv<T>(c: Config, s: Ring<T>)
    requires Inv(c, s) && Enabled(c, s, PublishTail)
    ensures Inv(c, Next(c, s, PublishTail))
  {
    WordSuccessor(|s.pushed|);
    PublishTailContents(c, s, Next(c, s, PublishTail));
  }

  lemma PublishTailContents<T>(c: Config, s: Ring<T>, r: Ring<T>)
    requires c.capacity >= 1 && Contents(c, s) && ProducerOk(c, s) && s.producer.PushPublish?
    requires r.slots == s.slots && r.popped == s.popped
    requires r.pushed == s.pushed + [s.producer.item]
    ensures Contents(c, r)
  {
    assert r.pushed[..|r.popped|] == s.pushed[..|s.popped|];
  }

  lemma ReadSlotInv<T>(c: Config, s: Ring<T>)
    requires Inv(c, s) && Enabled(c, s, ReadSlot)
    ensures Inv(c, Next(c, s, ReadSlot))
  {
    IndexOfCount(c, |s.popped|);
  }

  lemma PublishHeadInv<T>(c: Config, s: Ring<T>)
    requires Inv(c, s) && Enabled(c, s, PublishHead)
    ensures Inv(c, Next(c, s, PublishHead))
  {
    WordSuccessor(|s.popped|);
    var r := Next(c, s, PublishHead);
    assert r.pushed[..|r.popped|] == s.pushed[..|s.popped|] + [s.pushed[|s.popped|]];
  }

  lemma NextInv<T>(c: Config, s: Ring<T>, a: Action<T>)
    requires Inv(c, s) && Enabled(c, s, a)
    ensures Inv(c, Next(c, s, a))
  {
    match a
    case StartPush(item) =>
    case TrustHead => TrustHeadInv(c, s);
    case LoadHead(count) => LoadHeadInv(c, s, count);
    case WriteSlot => WriteSlotInv(c, s);
    case PublishTail => PublishTailInv(c, s);
    case StartPop =>
    case TrustTail => SameWord(s.seenTail, |s.popped|);
    case LoadTail(count) => LoadTailInv(c, s, count);
    case ReadSlot => ReadSlotInv(c, s);
    case PublishHead => PublishHeadInv(c, s);
  }

  /** The invariant holds after every interleaving of the two threads. */
  lemma {:induction false} RunInv<T>(c: Config, s: Ring<T>, acts: seq<Action<T>>)
    requires Inv(c, s) && CanRun(c, s, acts)
    ensures Inv(c, Exec(c, s, acts))
  {
    if acts != [] {
      RunInv(c, s, acts[..|acts| - 1]);
      NextInv(c, Exec(c, s, acts[..|acts| - 1]), acts[|acts| - 1]);
    }
  }

  // ---- what it means --------------------------------------------------------------------

  /** The abstract queue: published and not yet taken. */
  ghost function Queue<T>(s: Ring<T>): seq<T>
    requires |s.popped| <= |s.pushed|
  {
    s.pushed[|s.popped|..]
  }

  /** No value is lost, duplicated or reordered, and never more than the capacity is queued. */
  lemma FirstInFirstOut<T>(c: Config, s: Ring<T>, acts: seq<Action<T>>)
    requires ValidConfig(c) && Initial(c, s) && CanRun(c, s, acts)
    ensures var r := Exec(c, s, acts);
            && r.popped <= r.pushed
            && |r.pushed| - |r.popped| <= c.capacity
            && r.pushed == r.popped + Queue(r)
  {
    InitialInv(c, s);
    RunInv(c, s, acts);
  }

  /** Publishing the tail enqueues one value, and there was room for it. */
  lemma PublishTailEnqueues<T>(c: Config, s: Ring<T>)
    requires Inv(c, s) && Enabled(c, s, PublishTail)
    ensures Inv(c, Next(c, s, PublishTail))
    ensures |Queue(s)| < c.capacity
    ensures Queue(Next(c, s, PublishTail)) == Queue(s) + [s.producer.item]
  {
    PublishTailInv(c, s);
    assert (s.pushed + [s.producer.item])[|s.popped|..] == s.pushed[|s.popped|..] + [s.producer.item];
  }

  /** Publishing the head dequeues the oldest value. */
  lemma PublishHeadDequeues<T>(c: Config, s: Ring<T>)
    requires Inv(c, s) && Enabled(c, s, PublishHead)
    ensures Inv(c, Next(c, s, PublishHead))
    ensures Queue(s) == [s.consumer.value] + Queue(Next(c, s, PublishHead))
  {
    PublishHeadInv(c, s);
    assert s.pushed[|s.popped|..] == [s.pushed[|s.popped|]] + s.pushed[|s.popped| + 1..];
  }

  /** Every memory access either leaves the abstract queue alone or is one queue operation. */
  lemma RefinesQueue<T>(c: Config, s: Ring<T>, a: Action<T>)
    requires Inv(c, s) && Enabled(c, s, a)
    ensures Inv(c, Next(c, s, a))
    ensures var q, q' := Queue(s), Queue(Next(c, s, a));
            match a
            case PublishTail => |q| < c.capacity && q' == q + [s.producer.item]
            case PublishHead => q == [s.consumer.value] + q'
            case _ => q' == q
  {
    match a
    case PublishTail => PublishTailEnqueues(c, s);
    case PublishHead => PublishHeadDequeues(c, s);
    case _ => NextInv(c, s, a);
  }

  // ---- what one side does to the other ----------------------------------------------------

  predicate OfProducer<T>(a: Action<T>) {
    a.StartPush? || a.TrustHead? || a.LoadHead? || a.WriteSlot? || a.PublishTail?
  }

  /** All that can change while the producer stands still: the consumer takes values out. */
  ghost predicate OnlyPops<T>(s: Ring<T>, s': Ring<T>) {
    && s'.slots == s.slots && s'.tail == s.tail && s'.cachedHead == s.cachedHead
    && s'.producer == s.producer && s'.pushed == s.pushed && s'.seenHead == s.seenHead
    && s.popped <= s'.popped
  }

  /** All that can change while the consumer stands still: the producer puts values in. */
  ghost predicate OnlyPushes<T>(s: Ring<T>, s': Ring<T>) {
    && s'.head == s.head && s'.cachedTail == s.cachedTail
    && s'.consumer == s.consumer && s'.popped == s.popped && s'.seenTail == s.seenTail
    && s.pushed <= s'.pushed
  }

  lemma StepFrame<T>(c: Config, s: Ring<T>, a: Action<T>)
    requires Enabled(c, s, a)
    ensures if OfProducer(a) then OnlyPushes(s, Next(c, s, a)) else OnlyPops(s, Next(c, s, a))
  {
  }

  /** However long one side runs alone, it leaves everything of the other side as it was. */
  lemma {:induction false} FarSideFrame<T>(c: Config, s: Ring<T>, acts: seq<Action<T>>)
    requires CanRun(c, s, acts)
    ensures (forall a | a in acts :: !OfProducer(a)) ==> OnlyPops(s, Exec(c, s, acts))
    ensures (forall a | a in acts :: OfProducer(a)) ==> OnlyPushes(s, Exec(c, s, acts))
  {
    if acts != [] {
      var last := |acts| - 1;
      FarSideFrame(c, s, acts[..last]);
      StepFrame(c, Exec(c, s, acts[..last]), acts[last]);
      assert acts[last] in acts;
      assert forall a | a in acts[..last] :: a in acts;
    }
  }

  /** Between two states: what was queued and what came in is what was taken and what is queued. */
  lemma QueueMoves<T>(c: Config, s: Ring<T>, s': Ring<T>, more: seq<T>)
    requires Inv(c, s) && Inv(c, s') && s'.pushed == s.pushed + more && s.popped <= s'.popped
    ensures Queue(s) + more == s'.popped[|s.popped|..] + Queue(s')
  {
    assert s'.popped[|s.popped|..] == s'.pushed[|s.popped|..|s'.popped|];
    SuffixMoves(s.pushed, |s.popped|, more, |s'.popped|);
  }

  lemma SuffixMoves<T>(v: seq<T>, m: nat, more: seq<T>, n: nat)
    requires m <= |v| && m <= n <= |v + more|
    ensures v[m..] + more == (v + more)[m..n] + (v + more)[n..]
  {
    assert v[m..] + more == (v + more)[m..];
  }

  lemma PopMoves<T>(c: Config, s: Ring<T>, s': Ring<T>, ok: bool, out: T)
    requires Inv(c, s) && Inv(c, s') && s.pushed <= s'.pushed
    requires s'.popped == if ok then s.popped + [out] else s.popped
    ensures Queue(s) + s'.pushed[|s.pushed|..] == (if ok then [out] else []) + Queue(s')
  {
    QueueMoves(c, s, s', s'.pushed[|s.pushed|..]);
  }

  /** A push is refused exactly when, as of the head it observed, the ring was full. */
  lemma RefusedPush<T>(c: Config, s: Ring<T>, acts: seq<Action<T>>, count: nat)
    requires ValidConfig(c) && Initial(c, s) && CanRun(c, s, acts)
    requires Enabled(c, Exec(c, s, acts), LoadHead(count))
    ensures var r := Exec(c, s, acts);
            && |r.popped| <= |r.pushed|
            && (Next(c, r, LoadHead(count)).producer.PushIdle? <==> |r.pushed| == count + c.capacity)
            && (count == |r.popped| ==>
                  (Next(c, r, LoadHead(count)).producer.PushIdle? <==> |Queue(r)| == c.capacity))
  {
    InitialInv(c, s);
    RunInv(c, s, acts);
    LoadHeadInv(c, Exec(c, s, acts), count);
  }

  /** A pop is refused exactly when, as of the tail it observed, the ring was empty. */
  lemma RefusedPop<T>(c: Config, s: Ring<T>, acts: seq<Action<T>>, count: nat)
    requires ValidConfig(c) && Initial(c, s) && CanRun(c, s, acts)
    requires Enabled(c, Exec(c, s, acts), LoadTail(count))
    ensures var r := Exec(c, s, acts);
            && |r.popped| <= |r.pushed|
            && (Next(c, r, LoadTail(count)).consumer.PopIdle? <==> count == |r.popped|)
            && (count == |r.pushed| ==>
                  (Next(c, r, LoadTail(count)).consumer.PopIdle? <==> Queue(r) == []))
  {
    InitialInv(c, s);
    RunInv(c, s, acts);
    LoadTailInv(c, Exec(c, s, acts), count);
  }

  /**
   Slot exclusivity and race freedom. A write of message n happens after the read of
   message n - capacity, the last one to use the slot: its release of the head has been
   observed. A read of message m happens after its write: the release of the tail has been
   observed. The two never touch the same slot at the same time.
   */
  lemma NoSlotIsShared<T>(c: Config, s: Ring<T>, acts: seq<Action<T>>)
    requires ValidConfig(c) && Initial(c, s) && CanRun(c, s, acts)
    ensures var r := Exec(c, s, acts);
            && (r.producer.PushWrite? ==>
                  |r.pushed| < r.seenHead + c.capacity
                  && Index(c, r.producer.t) == |r.pushed| % c.capacity)
            && (r.consumer.PopRead? ==>
                  |r.popped| < r.seenTail
                  && Index(c, r.consumer.h) == |r.popped| % c.capacity)
            && (r.producer.PushWrite? && r.consumer.PopRead? ==>
                  Index(c, r.producer.t) != Index(c, r.consumer.h))
  {
    InitialInv(c, s);
    RunInv(c, s, acts);
    var r := Exec(c, s, acts);
    IndexOfCount(c, |r.pushed|);
    IndexOfCount(c, |r.popped|);
    if r.producer.PushWrite? && r.consumer.PopRead? {
      DistinctSlots(c, |r.popped|, |r.pushed|);
    }
  }

  /** The cached cursors lag, never lead, and never by more than the capacity, as words too. */
  lemma CachedCursorsLag<T>(c: Config, s: Ring<T>, acts: seq<Action<T>>)
    requires ValidConfig(c) && Initial(c, s) && CanRun(c, s, acts) && c.cached
    ensures var r := Exec(c, s, acts);
            && r.tail < WORD && r.cachedHead < WORD && r.head < WORD && r.cachedTail < WORD
            && r.seenHead <= |r.popped| <= r.seenTail <= |r.pushed|
            && Minus(r.tail, r.cachedHead) == |r.pushed| - r.seenHead <= c.capacity
            && Minus(r.cachedTail, r.head) == r.seenTail - |r.popped|
            && Minus(r.tail, r.cachedTail) == |r.pushed| - r.seenTail
  {
    InitialInv(c, s);
    RunInv(c, s, acts);
    var r := Exec(c, s, acts);
    MinusIsDistance(|r.pushed|, r.seenHead);
    MinusIsDistance(r.seenTail, |r.popped|);
    MinusIsDistance(|r.pushed|, r.seenTail);
  }
}
