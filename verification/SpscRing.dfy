/**
 The ring as it is built. Every memory access of a call is one action of the transition
 system, and between any two of them the far side may have made any number of its own.
 What the far side does, and which of its stores a load returns, is known by contract only.
 */
module SpscRing {
  import opened Bits
  import opened RingMachine
  import opened RingTheorems

  class Spsc<T> {
    const config: Config
    const buf: array<T>
    var tail: nat
    var head: nat
    var cachedHead: nat
    var cachedTail: nat
    ghost const start: Ring<T>
    ghost var model: Ring<T>
    ghost var trace: seq<Action<T>>   // every memory access so far

    /** The fields are those of the model, which a run of the machine has reached. */
    ghost predicate Mirrors()
      reads this, buf
    {
      && buf[..] == model.slots
      && tail == model.tail && head == model.head
      && cachedHead == model.cachedHead && cachedTail == model.cachedTail
    }

    ghost predicate Reached()
      reads this`model, this`trace
    {
      && ValidConfig(config) && Initial(config, start)
      && CanRun(config, start, trace) && model == Exec(config, start, trace)
      && Inv(config, model)
    }

    ghost predicate Valid()
      reads this, buf
    {
      Mirrors() && Reached()
    }

    /** What is queued, oldest first. */
    ghost function Contents(): seq<T>
      requires Inv(config, model)
      reads this`model
    {
      Queue(model)
    }

    constructor (config: Config, blank: T)
      requires ValidConfig(config)
      ensures Valid() && this.config == config && Contents() == [] && fresh(buf)
      ensures model.producer.PushIdle? && model.consumer.PopIdle?
    {
      this.config := config;
      buf := new T[config.capacity](_ => blank);
      tail, head, cachedHead, cachedTail := 0, 0, 0, 0;
      ghost var s := Ring(seq(config.capacity, _ => blank), 0, 0, 0, 0, PushIdle, PopIdle, [], [], 0, 0);
      InitialInv(config, s);
      start, model, trace := s, s, [];
    }

    /** One action of the machine. */
    ghost method Do(a: Action<T>)
      requires Reached() && Enabled(config, model, a)
      modifies this`model, this`trace
      ensures Reached() && model == Next(config, old(model), a) && trace == old(trace) + [a]
    {
      ExecAppend(config, start, trace, a);
      NextInv(config, model, a);
      model := Next(config, model, a);
      trace := trace + [a];
    }

    /** Whatever the consumer does between two accesses of a push: nothing else is relied on. */
    method LetConsumerRun()
      requires Valid()
      modifies this`head, this`cachedTail, this`model, this`trace
      ensures Valid() && OnlyPops(old(model), model) && old(trace) <= trace
    {
    }

    /** Whatever the producer does between two accesses of a pop: nothing else is relied on. */
    method LetProducerRun()
      requires Valid()
      modifies this`tail, this`cachedHead, this`model, this`trace, buf
      ensures Valid() && OnlyPushes(old(model), model) && old(trace) <= trace
    {
    }

    /** A load of the head returns any value stored since the one last observed. */
    method ReadHead() returns (word: nat, ghost count: nat)
      requires Valid()
      ensures model.seenHead <= count <= |model.popped| && word == count % WORD
    {
      word, count := head, |model.popped|;
    }

    /** A load of the tail returns any value stored since the one last observed. */
    method ReadTail() returns (word: nat, ghost count: nat)
      requires Valid()
      ensures model.seenTail <= count <= |model.pushed| && word == count % WORD
    {
      word, count := tail, |model.pushed|;
    }

    /** In a push the run goes on, and neither what was taken nor what was observed is undone. */
    twostate predicate PushGoesOn()
      reads this
    {
      && old(trace) <= trace && old(model.popped) <= model.popped
      && old(model.seenHead) <= model.seenHead
    }

    /** In a pop the run goes on, and neither what was put in nor what was observed is undone. */
    twostate predicate PopGoesOn()
      reads this
    {
      && old(trace) <= trace && old(model.pushed) <= model.pushed
      && old(model.seenTail) <= model.seenTail
    }

    /** Load the real head; the cached variant remembers it. */
    method ObserveHead(item: T) returns (ok: bool)
      requires Valid() && model.producer == PushCheck(item, tail)
      requires config.cached ==> Minus(tail, cachedHead) >= config.capacity
      modifies this
      ensures Valid() && PushGoesOn() && model.pushed == old(model.pushed)
      ensures model.producer == if ok then PushWrite(item, tail) else PushIdle
      ensures ok <==> |model.pushed| < model.seenHead + config.capacity
    {
      LetConsumerRun();
      var word;
      ghost var count;
      word, count := ReadHead();
      LoadHeadInv(config, model, count);
      MinusIsDistance(|model.pushed|, count);
      Do(LoadHead(count));
      if config.cached {
        cachedHead := word;
        ok := Minus(tail, cachedHead) < config.capacity;
      } else {
        ok := Minus(tail, word) < config.capacity;
      }
    }

    /** The full check of a push: on the cached head first, on the real one if that says full. */
    method FindRoom(item: T) returns (ok: bool)
      requires Valid() && model.producer.PushIdle?
      modifies this
      ensures Valid() && PushGoesOn() && model.pushed == old(model.pushed)
      ensures model.producer == if ok then PushWrite(item, tail) else PushIdle
      ensures ok <==> |model.pushed| < model.seenHead + config.capacity
    {
      var t := tail;
      Do(StartPush(item));
      LetConsumerRun();
      MinusIsDistance(|model.pushed|, model.seenHead);
      if config.cached {
        if Minus(t, cachedHead) >= config.capacity {
          ok := ObserveHead(item);
          return;
        }
        Do(TrustHead);
        return true;
      } else {
        ok := ObserveHead(item);
      }
    }

    method Write(item: T)
      requires Valid() && model.producer == PushWrite(item, tail)
      modifies this, buf
      ensures Valid() && PushGoesOn() && model.pushed == old(model.pushed)
      ensures model.seenHead == old(model.seenHead)
      ensures model.producer == PushPublish(item, tail)
    {
      LetConsumerRun();
      Put(item);
    }

    method Put(item: T)
      requires Valid() && model.producer == PushWrite(item, tail)
      modifies this, buf
      ensures Valid() && model.pushed == old(model.pushed) && model.popped == old(model.popped)
      ensures model.seenHead == old(model.seenHead) && old(trace) <= trace
      ensures model.producer == PushPublish(item, tail)
    {
      IndexOfCount(config, |model.pushed|);
      Do(WriteSlot);
      buf[BitAnd(tail, config.capacity - 1)] := item;
    }

    method Publish(item: T)
      requires Valid() && model.producer == PushPublish(item, tail)
      modifies this
      ensures Valid() && PushGoesOn() && model.pushed == old(model.pushed) + [item]
      ensures model.seenHead == old(model.seenHead) && model.producer.PushIdle?
    {
      LetConsumerRun();
      Do(PublishTail);
      tail := Plus1(tail);
    }

    /**
     Enqueue without blocking, with the consumer running at any point of the call and every
     load of the head as stale as it may be. It is refused exactly when the ring was full as
     of the head observed last: a ring with room is refused only on a head from before the
     call, and a full one always, unless the consumer makes room meanwhile. What was queued,
     and the item if it got in, is what the consumer took meanwhile followed by what is
     queued now. The accesses continue the run of the machine.
     */
    method TryPush(item: T) returns (ok: bool)
      requires Valid() && model.producer.PushIdle?
      modifies this, buf
      ensures Valid() && PushGoesOn() && model.producer.PushIdle?
      ensures model.pushed == if ok then old(model.pushed) + [item] else old(model.pushed)
      ensures ok <==> |old(model.pushed)| < model.seenHead + config.capacity
      ensures |old(Contents())| < config.capacity && |old(model.popped)| <= model.seenHead ==> ok
      ensures model.popped == old(model.popped) && |old(Contents())| == config.capacity ==> !ok
      ensures old(Contents()) + (if ok then [item] else [])
              == model.popped[|old(model.popped)|..] + Contents()
    {
      ok := FindRoom(item);
      if ok {
        Write(item);
        Publish(item);
      }
      QueueMoves(config, old(model), model, if ok then [item] else []);
    }

    /** Load the real tail; the cached variant remembers it. */
    method ObserveTail() returns (ok: bool)
      requires Valid() && model.consumer == PopCheck(head) && (config.cached ==> head == cachedTail)
      modifies this, buf
      ensures Valid() && PopGoesOn() && model.popped == old(model.popped)
      ensures model.consumer == if ok then PopRead(head) else PopIdle
      ensures ok <==> |model.popped| < model.seenTail
    {
      LetProducerRun();
      var word;
      ghost var count;
      word, count := ReadTail();
      LoadTailInv(config, model, count);
      Do(LoadTail(count));
      if config.cached {
        cachedTail := word;
        ok := head != cachedTail;
      } else {
        ok := head != word;
      }
    }

    /** The empty check of a pop. */
    method FindItem() returns (ok: bool)
      requires Valid() && model.consumer.PopIdle?
      modifies this, buf
      ensures Valid() && PopGoesOn() && model.popped == old(model.popped)
      ensures model.consumer == if ok then PopRead(head) else PopIdle
      ensures ok <==> |model.popped| < model.seenTail
    {
      var h := head;
      Do(StartPop);
      LetProducerRun();
      SameWord(model.seenTail, |model.popped|);
      if config.cached {
        if h == cachedTail {
          ok := ObserveTail();
          return;
        }
        Do(TrustTail);
        return true;
      } else {
        ok := ObserveTail();
      }
    }

    method Read() returns (out: T)
      requires Valid() && model.consumer == PopRead(head)
      modifies this, buf
      ensures Valid() && PopGoesOn() && model.popped == old(model.popped)
      ensures model.seenTail == old(model.seenTail)
      ensures model.consumer == PopPublish(head, out)
    {
      LetProducerRun();
      out := Take();
    }

    method Take() returns (out: T)
      requires Valid() && model.consumer == PopRead(head)
      modifies this
      ensures Valid() && model.popped == old(model.popped) && model.pushed == old(model.pushed)
      ensures model.seenTail == old(model.seenTail) && old(trace) <= trace
      ensures model.consumer == PopPublish(head, out)
    {
      IndexOfCount(config, |model.popped|);
      Do(ReadSlot);
      out := buf[BitAnd(head, config.capacity - 1)];
    }

    method Release(out: T)
      requires Valid() && model.consumer == PopPublish(head, out)
      modifies this, buf
      ensures Valid() && PopGoesOn() && model.popped == old(model.popped) + [out]
      ensures model.seenTail == old(model.seenTail) && model.consumer.PopIdle?
    {
      LetProducerRun();
      Do(PublishHead);
      head := Plus1(head);
    }

    /**
     Dequeue without blocking, with the producer running at any point of the call and every
     load of the tail as stale as it may be. It is refused, leaving `into` as it is, exactly
     when the ring was empty as of the tail observed last: a ring that holds something is
     refused only on a tail from before the call, and an empty one always, unless the
     producer puts something in meanwhile. The value is the oldest one. The accesses continue
     the run of the machine.
     */
    method TryPop(into: T) returns (ok: bool, out: T)
      requires Valid() && model.consumer.PopIdle?
      modifies this, buf
      ensures Valid() && PopGoesOn() && model.consumer.PopIdle?
      ensures model.popped == if ok then old(model.popped) + [out] else old(model.popped)
      ensures ok <==> |old(model.popped)| < model.seenTail
      ensures old(Contents()) != [] && |old(model.pushed)| <= model.seenTail ==> ok
      ensures model.pushed == old(model.pushed) && old(Contents()) == [] ==> !ok
      ensures !ok ==> out == into
      ensures old(Contents()) + model.pushed[|old(model.pushed)|..]
              == (if ok then [out] else []) + Contents()
    {
      out := into;
      ok := FindItem();
      if ok {
        out := Read();
        Release(out);
      }
      PopMoves(config, old(model), model, ok, out);
    }
  }
}
