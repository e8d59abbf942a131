/** The validator as it is built: a fixed table of slots, probed linearly and updated in place. */
module Validator {
  import opened Wire
  import opened Bits
  import opened ValidatorSpec
  import opened SymbolTable
  import opened ValidatorRuns

  const CAPACITY: nat := 4096

  /** Multiply by 2^64 over the golden ratio, modulo 2^64. */
  function Mixed(key: nat): (h: nat)
    ensures h < 0x1_0000_0000_0000_0000
  {
    key * 0x9E37_79B9_7F4A_7C15 % 0x1_0000_0000_0000_0000
  }

  /** The hash in use: the top 12 of the 64 mixed bits. */
  function FibonacciHash(key: nat): (h: nat)
    ensures h < CAPACITY
  {
    Mixed(key) / 0x10_0000_0000_0000
  }

  /** The shard in use: the upper half of the mixed bits, modulo the number of shards. */
  function OwnerOf(key: nat, shards: nat): (t: nat)
    requires shards >= 1
    ensures t < shards
  {
    Mixed(key) / 0x1_0000_0000 % shards
  }

  /** Any hash into the table will do; this is one. */
  lemma FibonacciIsHash()
    ensures IsHash(FibonacciHash, CAPACITY)
  {
  }

  class RecordValidator {
    const hash: nat -> nat
    const table: array<Slot>
    ghost var records: seq<Record>   // every record checked so far

    ghost predicate Ready()
      reads this
    {
      table.Length == CAPACITY && IsHash(hash, CAPACITY)
    }

    /** The table agrees with the map of the run of all records so far. */
    ghost predicate Valid()
      reads this, table
    {
      Ready() && TableOk(hash, table[..], MapRun(CAPACITY, records))
    }

    constructor (hash: nat -> nat)
      requires IsHash(hash, CAPACITY)
      ensures Valid() && records == [] && this.hash == hash && fresh(table)
    {
      this.hash := hash;
      table := new Slot[CAPACITY](_ => Slot(0, UNSEEN));
      records := [];
    }

    /** Probe linearly from the hash for the key's slot or a free one; fail after a full turn. */
    method SlotFor(key: nat) returns (found: bool, i: nat)
      requires Valid()
      ensures found ==> Lands(hash, table[..], key, i)
      ensures found <==> Admits(CAPACITY, MapRun(CAPACITY, records), key)
    {
      ghost var m := MapRun(CAPACITY, records);
      ghost var h := hash(key);
      i := hash(key);
      var probes := 0;
      while probes < CAPACITY
        invariant 0 <= probes <= CAPACITY && i < CAPACITY
        invariant probes < CAPACITY ==> Distance(CAPACITY, h, i) == probes
        invariant Searched(table[..], h, probes, key)
      {
        if table[i].state.seen && table[i].key == key {
          assert Holds(table[..], i, key);
          return true, i;
        }
        if !table[i].state.seen {
          FreeMeansRoom(hash, table[..], m, i);
          return true, i;
        }
        assert forall j | 0 <= j < CAPACITY && Distance(CAPACITY, h, j) == probes :: j == i;
        NextSlot(i);
        i := BitAnd(i + 1, CAPACITY - 1);
        probes := probes + 1;
      }
      ExhaustedMeansFull(hash, table[..], m, key);
      return false, i;
    }

    /** Write the symbol's new state where the lookup landed. */
    method Store(i: nat, r: Record, s: SymbolState)
      requires Valid() && Lands(hash, table[..], r.Symbol(), i)
      requires Admits(CAPACITY, MapRun(CAPACITY, records), r.Symbol())
      requires s == After(StateOf(MapRun(CAPACITY, records), r.Symbol()), r)
      modifies this, table
      ensures Valid() && records == old(records) + [r]
    {
      StoreKeepsTable(hash, table[..], MapRun(CAPACITY, records), r.Symbol(), i, s);
      MapRunAppend(CAPACITY, records, r);
      table[i] := Slot(r.Symbol(), s);
      records := records + [r];
      assert table[..] == old(table[..])[i := Slot(r.Symbol(), s)];
    }

    /** The symbol's remembered state, at the slot the lookup landed on. */
    method Load(i: nat, key: nat) returns (s: SymbolState)
      requires Valid() && Lands(hash, table[..], key, i)
      ensures s == StateOf(MapRun(CAPACITY, records), key)
    {
      s := table[i].state;
      if !s.seen {
        FreeMeansAbsent(hash, table[..], MapRun(CAPACITY, records), key, i);
      }
    }

    /** A record whose symbol finds no place leaves the table as it is. */
    method Skip(r: Record)
      requires Valid() && !Admits(CAPACITY, MapRun(CAPACITY, records), r.Symbol())
      modifies this
      ensures Valid() && records == old(records) + [r]
    {
      MapRunAppend(CAPACITY, records, r);
      records := records + [r];
    }

    method CheckTrade(t: Trade) returns (res: Result)
      requires Valid()
      modifies this, table
      ensures Valid() && records == old(records) + [TradeRecord(t)]
      ensures res == Judge(CAPACITY, MapRun(CAPACITY, old(records)), TradeRecord(t))
    {
      var r := TradeRecord(t);
      var validPrice, validSize := t.price > 0.0, t.size != 0;
      var flags := When(!validPrice, TradeNonPositivePrice) + When(!validSize, TradeNonPositiveSize);
      var found, i := SlotFor(t.symbol);
      if !found {
        Skip(r);
        return Result(flags, 0);
      }
      var s := Load(i, t.symbol);
      flags := flags + SequencingFlags(s, r);
      var gap, after := SequencingGap(s, r), Sequenced(s, r);
      if validPrice && validSize {
        flags := flags + BandFlags(after.band, t.price);
        after := after.(acc := Accumulated(after.acc, t.price, t.size));
        after := after.(band := Banded(after.band, t.price));
      }
      Store(i, r, after);
      return Result(flags, gap);
    }

    method CheckBar(b: Bar) returns (res: Result)
      requires Valid()
      modifies this, table
      ensures Valid() && records == old(records) + [BarRecord(b)]
      ensures res == Judge(CAPACITY, MapRun(CAPACITY, old(records)), BarRecord(b))
    {
      var r, flags := BarRecord(b), BarFlags(b);
      var found, i := SlotFor(b.symbol);
      if !found {
        Skip(r);
        return Result(flags, 0);
      }
      var s := Load(i, b.symbol);
      var gap, after := SequencingGap(s, r), Sequenced(s, r);
      flags := flags + SequencingFlags(s, r) + ReconcileFlags(after.acc, b);
      after := after.(acc := Reconciled(after.acc));
      Store(i, r, after);
      return Result(flags, gap);
    }

    method CheckQuote(q: Quote) returns (res: Result)
      requires Valid()
      modifies this, table
      ensures Valid() && records == old(records) + [QuoteRecord(q)]
      ensures res == Judge(CAPACITY, MapRun(CAPACITY, old(records)), QuoteRecord(q))
    {
      var r, flags := QuoteRecord(q), QuoteFlags(q);
      var found, i := SlotFor(q.symbol);
      if !found {
        Skip(r);
        return Result(flags, 0);
      }
      var s := Load(i, q.symbol);
      var gap, after := SequencingGap(s, r), Sequenced(s, r);
      flags := flags + SequencingFlags(s, r);
      if QuoteOutOfBand(after, q) {
        flags := flags + {PriceBandBreach};
      }
      Store(i, r, after);
      return Result(flags, gap);
    }

    method Check(r: Record) returns (res: Result)
      requires Valid()
      modifies this, table
      ensures Valid() && records == old(records) + [r]
      ensures res == Judge(CAPACITY, MapRun(CAPACITY, old(records)), r)
    {
      match r
      case TradeRecord(t) => res := CheckTrade(t);
      case BarRecord(b) => res := CheckBar(b);
      case QuoteRecord(q) => res := CheckQuote(q);
    }
  }

  /** The probe moves to the next slot and from the last one back to the first. */
  lemma NextSlot(i: nat)
    requires i < CAPACITY
    ensures BitAnd(i + 1, CAPACITY - 1) == if i + 1 < CAPACITY then i + 1 else 0
  {
    assert CAPACITY == Pow2(12);
    MaskOfExponent(i + 1, 12);
  }

  // ---- sharded replay ----------------------------------------------------------------------

  /** Route every record to its symbol's shard. */
  method Partition(rs: seq<Record>, shards: nat, owner: nat -> nat) returns (bufs: seq<seq<Record>>)
    requires forall r | r in rs :: owner(r.Symbol()) < shards
    ensures |bufs| == shards && forall t | 0 <= t < shards :: bufs[t] == Shard(rs, owner, t)
  {
    bufs := seq(shards, _ => []);
    for i := 0 to |rs|
      invariant |bufs| == shards
      invariant forall t | 0 <= t < shards :: bufs[t] == Shard(rs[..i], owner, t)
    {
      var o := owner(rs[i].Symbol());
      forall t: nat | t < shards
        ensures Shard(rs[..i + 1], owner, t)
             == if o == t then Shard(rs[..i], owner, t) + [rs[i]] else Shard(rs[..i], owner, t)
      {
        assert rs[..i + 1] == rs[..i] + [rs[i]];
        ShardAppend(rs[..i], rs[i], owner, t);
      }
      bufs := bufs[o := bufs[o] + [rs[i]]];
    }
    assert rs[..|rs|] == rs;
  }

  /** Check one record and add its flag mask. */
  method AddFlags(v: RecordValidator, r: Record, sum: nat) returns (next: nat)
    requires v.Valid() && sum == FlagSum(CAPACITY, v.records)
    modifies v, v.table
    ensures v.Valid() && v.records == old(v.records) + [r]
    ensures next == FlagSum(CAPACITY, v.records)
  {
    FlagSumAppend(CAPACITY, v.records, r);
    var res := v.Check(r);
    next := sum + Mask(res.flags);
  }

  /** One pass of one worker: a fresh validator over its buffer, flag masks added up. */
  method Pass(buf: seq<Record>, hash: nat -> nat) returns (sum: nat)
    requires IsHash(hash, CAPACITY)
    ensures sum == FlagSum(CAPACITY, buf)
  {
    var v := new RecordValidator(hash);
    sum := AddAll(v, buf);
  }

  method AddAll(v: RecordValidator, buf: seq<Record>) returns (sum: nat)
    requires v.Valid() && v.records == []
    modifies v, v.table
    ensures sum == FlagSum(CAPACITY, buf)
  {
    sum := 0;
    for i := 0 to |buf|
      invariant v.Valid() && v.records == buf[..i]
      invariant sum == FlagSum(CAPACITY, v.records)
    {
      assert buf[..i + 1] == buf[..i] + [buf[i]];
      sum := AddFlags(v, buf[i], sum);
    }
    assert buf[..|buf|] == buf;
  }

  method Worker(buf: seq<Record>, hash: nat -> nat, passes: nat) returns (sum: nat)
    requires IsHash(hash, CAPACITY)
    ensures sum == passes * FlagSum(CAPACITY, buf)
  {
    sum := 0;
    ghost var each := FlagSum(CAPACITY, buf);
    for p := 0 to passes
      invariant sum == p * each
    {
      var one := Pass(buf, hash);
      sum := sum + one;
      assert (p + 1) * each == p * each + each;
    }
  }

  lemma {:induction false} SumsOfParts(passes: nat, parts: seq<nat>, sums: seq<nat>)
    requires |sums| == |parts| && forall t | 0 <= t < |sums| :: sums[t] == passes * parts[t]
    ensures Total(sums) == passes * Total(parts)
  {
    if sums != [] {
      var last := |sums| - 1;
      SumsOfParts(passes, parts[..last], sums[..last]);
      Distributes(passes, Total(parts[..last]), parts[last]);
    }
  }

  lemma Distributes(n: nat, x: nat, y: nat)
    ensures n * (x + y) == n * x + n * y
  {
  }

  /**
   The sharded replay: with at most CAPACITY symbols, the workers' sums add up to what one
   validator over the whole stream would have summed, once per pass.
   */
  method Replay(rs: seq<Record>, hash: nat -> nat, shards: nat, owner: nat -> nat, passes: nat)
      returns (sums: seq<nat>)
    requires IsHash(hash, CAPACITY) && forall r | r in rs :: owner(r.Symbol()) < shards
    ensures |sums| == shards
    ensures forall t | 0 <= t < shards ::
              sums[t] == passes * FlagSum(CAPACITY, Shard(rs, owner, t))
    ensures |Symbols(rs)| <= CAPACITY ==> Total(sums) == passes * FlagSum(CAPACITY, rs)
  {
    var bufs := Partition(rs, shards, owner);
    sums := [];
    for t := 0 to shards
      invariant |sums| == t
      invariant forall u | 0 <= u < t :: sums[u] == passes * FlagSum(CAPACITY, bufs[u])
    {
      var sum := Worker(bufs[t], hash, passes);
      sums := sums + [sum];
    }
    if |Symbols(rs)| <= CAPACITY {
      ghost var whole := Masks(Results(CAPACITY, rs));
      ghost var parts := PartTotals(rs, whole, owner, shards);
      forall t | 0 <= t < shards ensures sums[t] == passes * parts[t] {
        RoomMeansSamePlaces(CAPACITY, rs, owner, t);
        ShardFlagSum(CAPACITY, rs, owner, t);
        PartAt(rs, whole, owner, shards, t);
      }
      SumsOfParts(passes, parts, sums);
      TotalsAddUp(rs, whole, owner, shards);
    }
  }

  /** The records of one worker, by the numbers: bits 32 to 63 of the mixed symbol, modulo. */
  ghost function Routed(rs: seq<Record>, shards: nat, t: nat): seq<Record>
    requires shards >= 1
  {
    if rs == [] then []
    else
      var before, r := Routed(rs[..|rs| - 1], shards, t), rs[|rs| - 1];
      var word := r.Symbol() * 11400714819323198485 % 18446744073709551616;
      if word / 4294967296 % shards == t then before + [r] else before
  }

  lemma {:induction false} RoutedIsShard(rs: seq<Record>, shards: nat, owner: nat -> nat, t: nat)
    requires shards >= 1 && forall k: nat :: owner(k) == OwnerOf(k, shards)
    ensures Shard(rs, owner, t) == Routed(rs, shards, t)
  {
    if rs != [] {
      RoutedIsShard(rs[..|rs| - 1], shards, owner, t);
    }
  }

  /** The replay as it is run: table hash and shard assignment as in use. */
  method Bench(rs: seq<Record>, shards: nat, passes: nat) returns (sums: seq<nat>)
    requires shards >= 1
    ensures |sums| == shards
    ensures forall t | 0 <= t < shards :: sums[t] == passes * FlagSum(4096, Routed(rs, shards, t))
    ensures |Symbols(rs)| <= 4096 ==> Total(sums) == passes * FlagSum(4096, rs)
  {
    FibonacciIsHash();
    var owner := (key: nat) => OwnerOf(key, shards);
    sums := Replay(rs, FibonacciHash, shards, owner, passes);
    forall t: nat | t < shards ensures Shard(rs, owner, t) == Routed(rs, shards, t) {
      RoutedIsShard(rs, shards, owner, t);
    }
  }
}
