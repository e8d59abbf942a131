/**
 The single-producer single-consumer ring as a transition system. Each call is split into
 the memory accesses it makes, and the two threads interleave between any two of them. A
 load of the far cursor may return any value the far side has published since the value
 this side last observed. Cursors are machine words and wrap.
 */
module RingMachine {
  import opened Bits

  const WORD: nat := Pow2(64)

  datatype Config = Config(capacity: nat, cached: bool)

  predicate ValidConfig(c: Config) {
    2 <= c.capacity < WORD && PowerOfTwo(c.capacity)
  }

  // Where the producer is in try_push; t is its own cursor as loaded.
  datatype Producer<T> =
    | PushIdle
    | PushCheck(item: T, t: nat)
    | PushWrite(item: T, t: nat)
    | PushPublish(item: T, t: nat)

  // Where the consumer is in try_pop; h is its own cursor as loaded.
  datatype Consumer<T> =
    | PopIdle
    | PopCheck(h: nat)
    | PopRead(h: nat)
    | PopPublish(h: nat, value: T)

  datatype Ring<T> = Ring(
    slots: seq<T>,
    tail: nat, head: nat,               // the shared cursors, as machine words
    cachedHead: nat, cachedTail: nat,   // each side's private copy of the far cursor
    producer: Producer<T>,
    consumer: Consumer<T>,
    pushed: seq<T>,                     // history: every value published
    popped: seq<T>,                     // history: every value taken out
    seenHead: nat, seenTail: nat)       // history: how many far stores each side has observed

  datatype Action<T> =
    | StartPush(item: T)      // load the own cursor
    | TrustHead               // the cached head leaves room
    | LoadHead(count: nat)    // load the far cursor: the store number `count` is observed
    | WriteSlot
    | PublishTail
    | StartPop
    | TrustTail
    | LoadTail(count: nat)
    | ReadSlot
    | PublishHead

  /** Unsigned subtraction of machine words. */
  function Minus(a: nat, b: nat): (r: nat)
    requires a < WORD && b < WORD
    ensures r < WORD
  {
    if b <= a then a - b else a + WORD - b
  }

  /** Unsigned increment of a machine word. */
  function Plus1(a: nat): nat {
    if a + 1 == WORD then 0 else a + 1
  }

  function Index(c: Config, cursor: nat): nat
    requires c.capacity >= 1
  {
    BitAnd(cursor, c.capacity - 1)
  }

  ghost predicate Enabled<T>(c: Config, s: Ring<T>, a: Action<T>) {
    match a
    case StartPush(_) => s.producer.PushIdle?
    case TrustHead =>
      && c.cached && s.producer.PushCheck? && s.producer.t < WORD && s.cachedHead < WORD
      && Minus(s.producer.t, s.cachedHead) < c.capacity
    case LoadHead(count) =>
      && s.producer.PushCheck? && s.producer.t < WORD && s.cachedHead < WORD
      && (c.cached ==> Minus(s.producer.t, s.cachedHead) >= c.capacity)
      && s.seenHead <= count <= |s.popped|
    case WriteSlot => s.producer.PushWrite? && c.capacity >= 1 && Index(c, s.producer.t) < |s.slots|
    case PublishTail => s.producer.PushPublish?
    case StartPop => s.consumer.PopIdle?
    case TrustTail => c.cached && s.consumer.PopCheck? && s.consumer.h != s.cachedTail
    case LoadTail(count) =>
      && s.consumer.PopCheck?
      && (c.cached ==> s.consumer.h == s.cachedTail)
      && s.seenTail <= count <= |s.pushed|
    case ReadSlot => s.consumer.PopRead? && c.capacity >= 1 && Index(c, s.consumer.h) < |s.slots|
    case PublishHead => s.consumer.PopPublish?
  }

  ghost function Next<T>(c: Config, s: Ring<T>, a: Action<T>): Ring<T>
    requires Enabled(c, s, a)
  {
    match a
    case StartPush(item) => s.(producer := PushCheck(item, s.tail))
    case TrustHead => s.(producer := PushWrite(s.producer.item, s.producer.t))
    case LoadHead(count) =>
      var observed := count % WORD;
      s.(seenHead := count,
         cachedHead := if c.cached then observed else s.cachedHead,
         producer := if Minus(s.producer.t, observed) >= c.capacity then PushIdle
                     else PushWrite(s.producer.item, s.producer.t))
    case WriteSlot =>
      s.(slots := s.slots[Index(c, s.producer.t) := s.producer.item],
         producer := PushPublish(s.producer.item, s.producer.t))
    case PublishTail =>
      s.(tail := Plus1(s.producer.t),
         pushed := s.pushed + [s.producer.item],
         producer := PushIdle)
    case StartPop => s.(consumer := PopCheck(s.head))
    case TrustTail => s.(consumer := PopRead(s.consumer.h))
    case LoadTail(count) =>
      var observed := count % WORD;
      s.(seenTail := count,
         cachedTail := if c.cached then observed else s.cachedTail,
         consumer := if s.consumer.h == observed then PopIdle else PopRead(s.consumer.h))
    case ReadSlot =>
      s.(consumer := PopPublish(s.consumer.h, s.slots[Index(c, s.consumer.h)]))
    case PublishHead =>
      s.(head := Plus1(s.consumer.h),
         popped := s.popped + [s.consumer.value],
         consumer := PopIdle)
  }

  ghost predicate Initial<T>(c: Config, s: Ring<T>) {
    && |s.slots| == c.capacity
    && s == Ring(s.slots, 0, 0, 0, 0, PushIdle, PopIdle, [], [], 0, 0)
  }

  /** The actions can be taken one after the other from s. */
  ghost predicate CanRun<T>(c: Config, s: Ring<T>, acts: seq<Action<T>>)
    decreases |acts|, 0
  {
    acts == [] ||
    (CanRun(c, s, acts[..|acts| - 1])
     && Enabled(c, Exec(c, s, acts[..|acts| - 1]), acts[|acts| - 1]))
  }

  ghost function Exec<T>(c: Config, s: Ring<T>, acts: seq<Action<T>>): Ring<T>
    requires CanRun(c, s, acts)
    decreases |acts|, 1
  {
    if acts == [] then s else Next(c, Exec(c, s, acts[..|acts| - 1]), acts[|acts| - 1])
  }

  lemma ExecAppend<T>(c: Config, s: Ring<T>, acts: seq<Action<T>>, a: Action<T>)
    requires CanRun(c, s, acts) && Enabled(c, Exec(c, s, acts), a)
    ensures CanRun(c, s, acts + [a])
    ensures Exec(c, s, acts + [a]) == Next(c, Exec(c, s, acts), a)
  {
    assert (acts + [a])[..|acts + [a]| - 1] == acts;
  }
}
