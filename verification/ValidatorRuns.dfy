/**
 Streams of many symbols. The validator on a plain map of bounded size: symbols get a place
 until the map is full. With a place, each record is judged by its own symbol's records
 alone, so neither interleaving nor, with room for all, sharding changes a result.
 */
module ValidatorRuns {
  import opened Wire
  import opened Sets
  import opened ValidatorSpec
  import opened SymbolTheorems
  import opened BandTheorems

  // ---- the validator on a map ------------------------------------------------------------

  /** Is there a place for the symbol: already known, or room for one more? */
  predicate Admits(capacity: nat, m: map<nat, SymbolState>, k: nat) {
    k in m || |m| < capacity
  }

  function StateOf(m: map<nat, SymbolState>, k: nat): SymbolState {
    if k in m then m[k] else UNSEEN
  }

  function NextMap(capacity: nat, m: map<nat, SymbolState>, r: Record): map<nat, SymbolState> {
    if Admits(capacity, m, r.Symbol()) then m[r.Symbol() := After(StateOf(m, r.Symbol()), r)] else m
  }

  /** A record of a symbol that finds no place is judged on its own fields only. */
  function Judge(capacity: nat, m: map<nat, SymbolState>, r: Record): Result {
    if Admits(capacity, m, r.Symbol()) then Verdict(StateOf(m, r.Symbol()), r)
    else Result(OwnFlags(r), 0)
  }

  function MapRun(capacity: nat, rs: seq<Record>): map<nat, SymbolState> {
    if rs == [] then map[] else NextMap(capacity, MapRun(capacity, rs[..|rs| - 1]), rs[|rs| - 1])
  }

  function Results(capacity: nat, rs: seq<Record>): (v: seq<Result>)
    ensures |v| == |rs|
  {
    if rs == [] then []
    else
      Results(capacity, rs[..|rs| - 1])
      + [Judge(capacity, MapRun(capacity, rs[..|rs| - 1]), rs[|rs| - 1])]
  }

  lemma MapRunAppend(capacity: nat, rs: seq<Record>, r: Record)
    ensures MapRun(capacity, rs + [r]) == NextMap(capacity, MapRun(capacity, rs), r)
  {
    assert (rs + [r])[..|rs + [r]| - 1] == rs;
  }

  lemma ResultsAppend(capacity: nat, rs: seq<Record>, r: Record)
    ensures Results(capacity, rs + [r])
            == Results(capacity, rs) + [Judge(capacity, MapRun(capacity, rs), r)]
  {
    assert (rs + [r])[..|rs + [r]| - 1] == rs;
  }

  // ---- one symbol at a time -------------------------------------------------------------------

  function Symbols(rs: seq<Record>): set<nat> {
    set r | r in rs :: r.Symbol()
  }

  /** The records of one symbol, in order. */
  function Own(rs: seq<Record>, k: nat): seq<Record> {
    if rs == [] then []
    else if rs[|rs| - 1].Symbol() == k then Own(rs[..|rs| - 1], k) + [rs[|rs| - 1]]
    else Own(rs[..|rs| - 1], k)
  }

  lemma OwnAppend(rs: seq<Record>, r: Record, k: nat)
    ensures Own(rs + [r], k) == if r.Symbol() == k then Own(rs, k) + [r] else Own(rs, k)
  {
    assert (rs + [r])[..|rs + [r]| - 1] == rs;
  }

  lemma FoldAppend(rs: seq<Record>, r: Record)
    ensures Fold(rs + [r]) == After(Fold(rs), r)
  {
    assert (rs + [r])[..|rs + [r]| - 1] == rs;
  }

  lemma SymbolsAppend(rs: seq<Record>, r: Record)
    ensures Symbols(rs + [r]) == Symbols(rs) + {r.Symbol()}
  {
    assert forall x :: x in rs + [r] <==> x in rs || x == r;
    assert r in rs + [r];
  }

  /** The records ahead of the symbol's first. */
  function Before(rs: seq<Record>, k: nat): seq<Record> {
    if rs == [] then []
    else if k in Symbols(rs[..|rs| - 1]) then Before(rs[..|rs| - 1], k)
    else if rs[|rs| - 1].Symbol() == k then rs[..|rs| - 1]
    else rs
  }

  /** When the symbol first appeared, fewer than `capacity` others had. */
  predicate HasPlace(capacity: nat, rs: seq<Record>, k: nat) {
    k in Symbols(rs) && |Symbols(Before(rs, k))| < capacity
  }

  lemma HasPlaceAppend(capacity: nat, rs: seq<Record>, r: Record, k: nat)
    ensures HasPlace(capacity, rs + [r], k)
            <==> if k in Symbols(rs) then HasPlace(capacity, rs, k)
                 else r.Symbol() == k && |Symbols(rs)| < capacity
  {
    assert (rs + [r])[..|rs + [r]| - 1] == rs;
    SymbolsAppend(rs, r);
  }

  /** The table takes up symbols until it is full, and none after that. */
  lemma {:induction false} MapSize(capacity: nat, rs: seq<Record>)
    ensures MapRun(capacity, rs).Keys <= Symbols(rs)
    ensures |MapRun(capacity, rs)| == if |Symbols(rs)| < capacity then |Symbols(rs)| else capacity
    ensures |Symbols(rs)| <= capacity ==> MapRun(capacity, rs).Keys == Symbols(rs)
  {
    if rs != [] {
      var prefix, r := rs[..|rs| - 1], rs[|rs| - 1];
      assert rs == prefix + [r];
      MapSize(capacity, prefix);
      SizeStep(capacity, MapRun(capacity, prefix), MapRun(capacity, rs), Symbols(prefix), r);
      SymbolsAppend(prefix, r);
    }
  }

  lemma SizeStep(capacity: nat, m: map<nat, SymbolState>, next: map<nat, SymbolState>,
                 symbols: set<nat>, r: Record)
    requires m.Keys <= symbols && next == NextMap(capacity, m, r)
    requires |m| == if |symbols| < capacity then |symbols| else capacity
    ensures var after := symbols + {r.Symbol()};
            && next.Keys <= after
            && |next| == (if |after| < capacity then |after| else capacity)
            && (|after| <= capacity ==> next.Keys == after)
  {
    var k, after := r.Symbol(), symbols + {r.Symbol()};
    SubsetSize(m.Keys, symbols);
    assert |m| == |m.Keys|;
    if Admits(capacity, m, k) {
      assert next.Keys == m.Keys + {k};
    }
    SubsetSize(next.Keys, after);
    assert |next| == |next.Keys|;
  }

  /** A symbol has an entry exactly when it came early enough. */
  lemma {:induction false} EntryIffPlace(capacity: nat, rs: seq<Record>, k: nat)
    ensures k in MapRun(capacity, rs) <==> HasPlace(capacity, rs, k)
  {
    if rs != [] {
      var prefix, r := rs[..|rs| - 1], rs[|rs| - 1];
      assert rs == prefix + [r];
      EntryIffPlace(capacity, prefix, k);
      HasPlaceAppend(capacity, prefix, r, k);
      MapRunAppend(capacity, prefix, r);
      MapSize(capacity, prefix);
    }
  }

  lemma RoomForAll(capacity: nat, rs: seq<Record>, k: nat)
    requires |Symbols(rs)| <= capacity && k in Symbols(rs)
    ensures HasPlace(capacity, rs, k)
  {
    MapSize(capacity, rs);
    EntryIffPlace(capacity, rs, k);
  }

  lemma {:induction false} NoneOwn(rs: seq<Record>, k: nat)
    requires k !in Symbols(rs)
    ensures Own(rs, k) == []
  {
    if rs != [] {
      assert rs == rs[..|rs| - 1] + [rs[|rs| - 1]];
      SymbolsAppend(rs[..|rs| - 1], rs[|rs| - 1]);
      NoneOwn(rs[..|rs| - 1], k);
    }
  }

  /** Full or not, an entry is the fold over its own symbol's records, from the first one on. */
  lemma MapIsPerSymbol(capacity: nat, rs: seq<Record>, k: nat)
    ensures HasPlace(capacity, rs, k) || k !in Symbols(rs)
            ==> StateOf(MapRun(capacity, rs), k) == Fold(Own(rs, k))
    ensures k in Symbols(rs) && !HasPlace(capacity, rs, k)
            ==> k !in MapRun(capacity, rs) && |MapRun(capacity, rs)| == capacity
  {
    EntryIffPlace(capacity, rs, k);
    MapSize(capacity, rs);
    if k !in Symbols(rs) {
      NoneOwn(rs, k);
    } else if HasPlace(capacity, rs, k) {
      EntryIsFold(capacity, rs, k);
    }
  }

  lemma {:induction false} EntryIsFold(capacity: nat, rs: seq<Record>, k: nat)
    requires k in MapRun(capacity, rs)
    ensures MapRun(capacity, rs)[k] == Fold(Own(rs, k))
  {
    var prefix, r := rs[..|rs| - 1], rs[|rs| - 1];
    assert rs == prefix + [r];
    MapRunAppend(capacity, prefix, r);
    OwnAppend(prefix, r, k);
    FoldAppend(Own(prefix, k), r);
    if k in MapRun(capacity, prefix) {
      EntryIsFold(capacity, prefix, k);
    } else {
      MapSize(capacity, prefix);
      NoneOwn(prefix, k);
    }
  }

  /**
   A record is judged by the records of its own symbol before it, if the symbol has a place,
   and on its own fields if not.
   */
  lemma JudgedByOwn(capacity: nat, rs: seq<Record>, r: Record)
    ensures Judge(capacity, MapRun(capacity, rs), r)
            == if HasPlace(capacity, rs + [r], r.Symbol()) then
                 Verdict(Fold(Own(rs, r.Symbol())), r)
               else Result(OwnFlags(r), 0)
  {
    var k := r.Symbol();
    HasPlaceAppend(capacity, rs, r, k);
    EntryIffPlace(capacity, rs, k);
    MapSize(capacity, rs);
    MapIsPerSymbol(capacity, rs, k);
  }

  lemma JudgedWithRoom(capacity: nat, rs: seq<Record>, r: Record)
    requires |Symbols(rs + [r])| <= capacity
    ensures Judge(capacity, MapRun(capacity, rs), r) == Verdict(Fold(Own(rs, r.Symbol())), r)
  {
    SymbolsAppend(rs, r);
    RoomForAll(capacity, rs + [r], r.Symbol());
    JudgedByOwn(capacity, rs, r);
  }

  /** The results of a whole run that belong to one symbol. */
  function OwnResults(rs: seq<Record>, v: seq<Result>, k: nat): seq<Result>
    requires |v| == |rs|
  {
    if rs == [] then []
    else
      var last := |rs| - 1;
      var before := OwnResults(rs[..last], v[..last], k);
      if rs[last].Symbol() == k then before + [v[last]] else before
  }

  lemma OwnResultsAppend(rs: seq<Record>, v: seq<Result>, r: Record, x: Result, k: nat)
    requires |v| == |rs|
    ensures OwnResults(rs + [r], v + [x], k)
            == if r.Symbol() == k then OwnResults(rs, v, k) + [x] else OwnResults(rs, v, k)
  {
    assert (rs + [r])[..|rs + [r]| - 1] == rs && (v + [x])[..|v + [x]| - 1] == v;
  }

  /** What records of a symbol without a place get: their own flags, and no gap. */
  function OwnFlagsOnly(rs: seq<Record>): seq<Result> {
    if rs == [] then []
    else OwnFlagsOnly(rs[..|rs| - 1]) + [Result(OwnFlags(rs[|rs| - 1]), 0)]
  }

  lemma OwnFlagsOnlyAppend(rs: seq<Record>, r: Record)
    ensures OwnFlagsOnly(rs + [r]) == OwnFlagsOnly(rs) + [Result(OwnFlags(r), 0)]
  {
    assert (rs + [r])[..|rs + [r]| - 1] == rs;
  }

  /** The results of one symbol's records alone: verdicts with a place, own flags without. */
  function Alone(place: bool, own: seq<Record>): seq<Result> {
    if place then Verdicts(own) else OwnFlagsOnly(own)
  }

  /**
   Interleaving is invisible: in any mix, a symbol that has a place gets the verdicts of its
   own records alone, and one that has none gets their own flags.
   */
  lemma {:induction false} InterleavingIsInvisible(capacity: nat, rs: seq<Record>, k: nat)
    ensures OwnResults(rs, Results(capacity, rs), k)
            == Alone(HasPlace(capacity, rs, k), Own(rs, k))
  {
    if rs != [] {
      var prefix, r := rs[..|rs| - 1], rs[|rs| - 1];
      assert rs == prefix + [r];
      InterleavingIsInvisible(capacity, prefix, k);
      PlaceStays(capacity, prefix, r, k);
      InterleavingStep(capacity, prefix, r, k, HasPlace(capacity, rs, k));
    }
  }

  /** Whether a symbol has a place is settled by its first record. */
  lemma PlaceStays(capacity: nat, rs: seq<Record>, r: Record, k: nat)
    ensures Own(rs, k) == [] || (HasPlace(capacity, rs + [r], k) <==> HasPlace(capacity, rs, k))
    ensures Alone(HasPlace(capacity, rs, k), Own(rs, k))
            == Alone(HasPlace(capacity, rs + [r], k), Own(rs, k))
  {
    HasPlaceAppend(capacity, rs, r, k);
    if k !in Symbols(rs) {
      NoneOwn(rs, k);
    }
  }

  lemma InterleavingStep(capacity: nat, rs: seq<Record>, r: Record, k: nat, place: bool)
    requires place == HasPlace(capacity, rs + [r], k)
    requires OwnResults(rs, Results(capacity, rs), k) == Alone(place, Own(rs, k))
    ensures OwnResults(rs + [r], Results(capacity, rs + [r]), k) == Alone(place, Own(rs + [r], k))
  {
    ResultsAppend(capacity, rs, r);
    OwnResultsAppend(rs, Results(capacity, rs), r, Judge(capacity, MapRun(capacity, rs), r), k);
    OwnAppend(rs, r, k);
    if r.Symbol() == k {
      JudgedByOwn(capacity, rs, r);
      VerdictsAppend(Own(rs, k), r);
      OwnFlagsOnlyAppend(Own(rs, k), r);
    }
  }

  /** Gap accounting of one symbol inside any mix of symbols and record kinds. */
  lemma MixedStreamGaps(capacity: nat, rs: seq<Record>, k: nat)
    requires HasPlace(capacity, rs, k)
    requires var own := Own(rs, k); own != [] && StrictlyIncreasing(own)
    ensures var own := Own(rs, k);
            TotalGap(OwnResults(rs, Results(capacity, rs), k))
            == own[|own| - 1].SeqNo() - own[0].SeqNo() - (|own| - 1)
  {
    InterleavingIsInvisible(capacity, rs, k);
    GapsTelescope(Own(rs, k));
  }

  /** Inside any mix, a symbol with a place is never flagged for a gap if and only if it has none. */
  lemma MixedStreamContinuity(capacity: nat, rs: seq<Record>, k: nat)
    requires HasPlace(capacity, rs, k)
    ensures var own, v := Own(rs, k), OwnResults(rs, Results(capacity, rs), k);
            && (NoGapFlag(v) <==> Continuous(own))
            && (NoGapFlag(v) <==> TotalGap(v) == 0)
  {
    InterleavingIsInvisible(capacity, rs, k);
    UnflaggedIffContinuous(Own(rs, k));
  }

  // ---- sharding ------------------------------------------------------------------------------

  /** The records routed to shard t. */
  function Shard(rs: seq<Record>, owner: nat -> nat, t: nat): seq<Record> {
    if rs == [] then []
    else if owner(rs[|rs| - 1].Symbol()) == t then
      Shard(rs[..|rs| - 1], owner, t) + [rs[|rs| - 1]]
    else Shard(rs[..|rs| - 1], owner, t)
  }

  /** The part of a list, one entry per record, that belongs to shard t. */
  function Pick<X>(rs: seq<Record>, v: seq<X>, owner: nat -> nat, t: nat): seq<X>
    requires |v| == |rs|
  {
    if rs == [] then []
    else
      var last := |rs| - 1;
      var before := Pick(rs[..last], v[..last], owner, t);
      if owner(rs[last].Symbol()) == t then before + [v[last]] else before
  }

  lemma ShardAppend(rs: seq<Record>, r: Record, owner: nat -> nat, t: nat)
    ensures Shard(rs + [r], owner, t)
            == if owner(r.Symbol()) == t then Shard(rs, owner, t) + [r] else Shard(rs, owner, t)
  {
    assert (rs + [r])[..|rs + [r]| - 1] == rs;
  }

  lemma PickAppend<X>(rs: seq<Record>, v: seq<X>, r: Record, x: X, owner: nat -> nat, t: nat)
    requires |v| == |rs|
    ensures Pick(rs + [r], v + [x], owner, t)
            == if owner(r.Symbol()) == t then Pick(rs, v, owner, t) + [x] else Pick(rs, v, owner, t)
  {
    assert (rs + [r])[..|rs + [r]| - 1] == rs && (v + [x])[..|v + [x]| - 1] == v;
  }

  /** A shard holds all records of each symbol it owns. */
  lemma {:induction false} ShardKeepsOwn(rs: seq<Record>, owner: nat -> nat, t: nat, k: nat)
    requires owner(k) == t
    ensures Own(Shard(rs, owner, t), k) == Own(rs, k)
  {
    if rs != [] {
      var prefix, r := rs[..|rs| - 1], rs[|rs| - 1];
      assert rs == prefix + [r];
      ShardKeepsOwn(prefix, owner, t, k);
      ShardAppend(prefix, r, owner, t);
      OwnAppend(prefix, r, k);
      OwnAppend(Shard(prefix, owner, t), r, k);
    }
  }

  lemma {:induction false} ShardMembers(rs: seq<Record>, owner: nat -> nat, t: nat)
    ensures forall r | r in Shard(rs, owner, t) :: r in rs
  {
    if rs != [] {
      assert rs == rs[..|rs| - 1] + [rs[|rs| - 1]];
      ShardMembers(rs[..|rs| - 1], owner, t);
    }
  }

  lemma ShardSymbols(rs: seq<Record>, owner: nat -> nat, t: nat)
    ensures Symbols(Shard(rs, owner, t)) <= Symbols(rs)
    ensures |Symbols(Shard(rs, owner, t))| <= |Symbols(rs)|
  {
    ShardMembers(rs, owner, t);
    SubsetSize(Symbols(Shard(rs, owner, t)), Symbols(rs));
  }

  lemma {:induction false} ShardHasOwn(rs: seq<Record>, owner: nat -> nat, t: nat, k: nat)
    requires owner(k) == t
    ensures k in Symbols(Shard(rs, owner, t)) <==> k in Symbols(rs)
  {
    if rs != [] {
      var prefix, r := rs[..|rs| - 1], rs[|rs| - 1];
      assert rs == prefix + [r];
      ShardHasOwn(prefix, owner, t, k);
      ShardAppend(prefix, r, owner, t);
      SymbolsAppend(prefix, r);
      SymbolsAppend(Shard(prefix, owner, t), r);
    }
  }

  lemma BeforeAppend(rs: seq<Record>, r: Record, k: nat)
    ensures Before(rs + [r], k) == if k in Symbols(rs) then Before(rs, k)
                                   else if r.Symbol() == k then rs
                                   else rs + [r]
  {
    assert (rs + [r])[..|rs + [r]| - 1] == rs;
  }

  lemma BeforeNone(rs: seq<Record>, k: nat)
    requires k !in Symbols(rs)
    ensures Before(rs, k) == rs
  {
    if rs != [] {
      var prefix, r := rs[..|rs| - 1], rs[|rs| - 1];
      assert rs == prefix + [r];
      SymbolsAppend(prefix, r);
    }
  }

  /** What a shard has ahead of a symbol's first record, the whole stream has too. */
  lemma {:induction false} ShardBefore(rs: seq<Record>, owner: nat -> nat, t: nat, k: nat)
    requires owner(k) == t
    ensures Symbols(Before(Shard(rs, owner, t), k)) <= Symbols(Before(rs, k))
  {
    if rs != [] {
      var prefix, r := rs[..|rs| - 1], rs[|rs| - 1];
      var shard := Shard(prefix, owner, t);
      assert rs == prefix + [r];
      ShardBefore(prefix, owner, t, k);
      ShardHasOwn(prefix, owner, t, k);
      ShardAppend(prefix, r, owner, t);
      BeforeAppend(prefix, r, k);
      BeforeAppend(shard, r, k);
      SymbolsAppend(prefix, r);
      SymbolsAppend(shard, r);
      if k !in Symbols(prefix) {
        ShardSymbols(prefix, owner, t);
        BeforeNone(shard, k);
      }
    }
  }

  /** A symbol with a place in the whole has one in its shard. */
  lemma ShardKeepsPlace(capacity: nat, rs: seq<Record>, owner: nat -> nat, t: nat, k: nat)
    requires owner(k) == t && HasPlace(capacity, rs, k)
    ensures HasPlace(capacity, Shard(rs, owner, t), k)
  {
    ShardHasOwn(rs, owner, t, k);
    ShardBefore(rs, owner, t, k);
    SubsetSize(Symbols(Before(Shard(rs, owner, t), k)), Symbols(Before(rs, k)));
  }

  /** Sharding gives the symbol no place that it does not have in the whole. */
  predicate SamePlace(capacity: nat, rs: seq<Record>, owner: nat -> nat, k: nat) {
    HasPlace(capacity, Shard(rs, owner, owner(k)), k) ==> HasPlace(capacity, rs, k)
  }

  /**
   On any stream, overflowing or not: a symbol with a place in the whole keeps its results in
   its shard, and so does one that finds no place even there.
   */
  lemma ShardKeepsResults(capacity: nat, rs: seq<Record>, owner: nat -> nat, t: nat, k: nat)
    requires owner(k) == t && SamePlace(capacity, rs, owner, k)
    ensures var s := Shard(rs, owner, t);
            OwnResults(s, Results(capacity, s), k) == OwnResults(rs, Results(capacity, rs), k)
  {
    InterleavingIsInvisible(capacity, rs, k);
    InterleavingIsInvisible(capacity, Shard(rs, owner, t), k);
    ShardKeepsOwn(rs, owner, t, k);
    if HasPlace(capacity, rs, k) {
      ShardKeepsPlace(capacity, rs, owner, t, k);
    }
  }

  /** Sharding gives no symbol of shard t a place that it does not have in the whole. */
  ghost predicate SamePlaces(capacity: nat, rs: seq<Record>, owner: nat -> nat, t: nat) {
    forall k | k in Symbols(rs) && owner(k) == t :: SamePlace(capacity, rs, owner, k)
  }

  lemma RoomMeansSamePlaces(capacity: nat, rs: seq<Record>, owner: nat -> nat, t: nat)
    requires |Symbols(rs)| <= capacity
    ensures SamePlaces(capacity, rs, owner, t)
  {
    forall k | k in Symbols(rs) ensures HasPlace(capacity, rs, k) {
      RoomForAll(capacity, rs, k);
    }
  }

  lemma SamePlaceBefore(capacity: nat, rs: seq<Record>, r: Record, owner: nat -> nat, k: nat)
    requires k in Symbols(rs) && SamePlace(capacity, rs + [r], owner, k)
    ensures SamePlace(capacity, rs, owner, k)
  {
    var t := owner(k);
    HasPlaceAppend(capacity, rs, r, k);
    ShardHasOwn(rs, owner, t, k);
    ShardAppend(rs, r, owner, t);
    HasPlaceAppend(capacity, Shard(rs, owner, t), r, k);
  }

  lemma SamePlacesBefore(capacity: nat, rs: seq<Record>, r: Record, owner: nat -> nat, t: nat)
    requires SamePlaces(capacity, rs + [r], owner, t)
    ensures SamePlaces(capacity, rs, owner, t)
  {
    SymbolsAppend(rs, r);
    forall k | k in Symbols(rs) && owner(k) == t ensures SamePlace(capacity, rs, owner, k) {
      assert k in Symbols(rs + [r]);
      SamePlaceBefore(capacity, rs, r, owner, k);
    }
  }

  /**
   Sharding preserves meaning: whichever way symbols are assigned to shards, if a shard's own
   validator has a place only for symbols that have one in the whole, in particular if there
   is room for all, it gives every record the result it gets from one validator over the
   whole stream.
   */
  lemma {:induction false} ShardingPreservesResults(capacity: nat, rs: seq<Record>,
                                                    owner: nat -> nat, t: nat)
    requires SamePlaces(capacity, rs, owner, t)
    ensures Results(capacity, Shard(rs, owner, t)) == Pick(rs, Results(capacity, rs), owner, t)
  {
    if rs != [] {
      var prefix, r := rs[..|rs| - 1], rs[|rs| - 1];
      assert rs == prefix + [r];
      SamePlacesBefore(capacity, prefix, r, owner, t);
      ShardingPreservesResults(capacity, prefix, owner, t);
      ShardingStep(capacity, prefix, r, owner, t);
    }
  }

  lemma SameJudgement(capacity: nat, rs: seq<Record>, r: Record, owner: nat -> nat, t: nat)
    requires owner(r.Symbol()) == t && SamePlace(capacity, rs + [r], owner, r.Symbol())
    ensures Judge(capacity, MapRun(capacity, Shard(rs, owner, t)), r)
            == Judge(capacity, MapRun(capacity, rs), r)
  {
    var k := r.Symbol();
    JudgedByOwn(capacity, rs, r);
    JudgedByOwn(capacity, Shard(rs, owner, t), r);
    ShardKeepsOwn(rs, owner, t, k);
    ShardAppend(rs, r, owner, t);
    if HasPlace(capacity, rs + [r], k) {
      ShardKeepsPlace(capacity, rs + [r], owner, t, k);
    }
  }

  lemma ShardingStep(capacity: nat, rs: seq<Record>, r: Record, owner: nat -> nat, t: nat)
    requires SamePlaces(capacity, rs + [r], owner, t)
    requires Results(capacity, Shard(rs, owner, t)) == Pick(rs, Results(capacity, rs), owner, t)
    ensures Results(capacity, Shard(rs + [r], owner, t))
            == Pick(rs + [r], Results(capacity, rs + [r]), owner, t)
  {
    var shard := Shard(rs, owner, t);
    ResultsAppend(capacity, rs, r);
    ShardAppend(rs, r, owner, t);
    PickAppend(rs, Results(capacity, rs), r, Judge(capacity, MapRun(capacity, rs), r), owner, t);
    if owner(r.Symbol()) == t {
      ResultsAppend(capacity, shard, r);
      SymbolsAppend(rs, r);
      SameJudgement(capacity, rs, r, owner, t);
    }
  }

  /** The flag masks of a list of results. */
  function Masks(v: seq<Result>): (ws: seq<nat>)
    ensures |ws| == |v|
  {
    if v == [] then [] else Masks(v[..|v| - 1]) + [Mask(v[|v| - 1].flags)]
  }

  function Total(ws: seq<nat>): nat {
    if ws == [] then 0 else Total(ws[..|ws| - 1]) + ws[|ws| - 1]
  }

  lemma MasksAppend(v: seq<Result>, x: Result)
    ensures Masks(v + [x]) == Masks(v) + [Mask(x.flags)]
  {
    assert (v + [x])[..|v + [x]| - 1] == v;
  }

  lemma TotalAppend(ws: seq<nat>, w: nat)
    ensures Total(ws + [w]) == Total(ws) + w
  {
    assert (ws + [w])[..|ws + [w]| - 1] == ws;
  }

  lemma {:induction false} MasksOfPick(rs: seq<Record>, v: seq<Result>, owner: nat -> nat, t: nat)
    requires |v| == |rs|
    ensures Masks(Pick(rs, v, owner, t)) == Pick(rs, Masks(v), owner, t)
  {
    if rs != [] {
      var last := |rs| - 1;
      var v', x := v[..last], v[last];
      assert v == v' + [x] && rs == rs[..last] + [rs[last]];
      MasksOfPick(rs[..last], v', owner, t);
      MasksAppend(v', x);
      MasksAppend(Pick(rs[..last], v', owner, t), x);
      PickAppend(rs[..last], v', rs[last], x, owner, t);
      PickAppend(rs[..last], Masks(v'), rs[last], Mask(x.flags), owner, t);
    }
  }

  /** The totals of the first n shards. */
  function PartTotals(rs: seq<Record>, ws: seq<nat>, owner: nat -> nat, n: nat): (parts: seq<nat>)
    requires |ws| == |rs|
    ensures |parts| == n
  {
    if n == 0 then []
    else PartTotals(rs, ws, owner, n - 1) + [Total(Pick(rs, ws, owner, n - 1))]
  }

  lemma {:induction false} PartAt(rs: seq<Record>, ws: seq<nat>, owner: nat -> nat, n: nat, t: nat)
    requires |ws| == |rs| && t < n
    ensures PartTotals(rs, ws, owner, n)[t] == Total(Pick(rs, ws, owner, t))
  {
    if t < n - 1 {
      PartAt(rs, ws, owner, n - 1, t);
    }
  }

  lemma PickTotal(rs: seq<Record>, ws: seq<nat>, r: Record, w: nat, owner: nat -> nat, t: nat)
    requires |ws| == |rs|
    ensures Total(Pick(rs + [r], ws + [w], owner, t))
            == Total(Pick(rs, ws, owner, t)) + (if owner(r.Symbol()) == t then w else 0)
  {
    PickAppend(rs, ws, r, w, owner, t);
    TotalAppend(Pick(rs, ws, owner, t), w);
  }

  /** Raising one entry of a list by w raises its total by w. */
  lemma {:induction false} RaiseOne(p: seq<nat>, q: seq<nat>, o: nat, w: nat)
    requires |p| == |q|
    requires forall t | 0 <= t < |p| :: q[t] == p[t] + (if t == o then w else 0)
    ensures Total(q) == Total(p) + (if o < |p| then w else 0)
  {
    if p != [] {
      RaiseOne(p[..|p| - 1], q[..|q| - 1], o, w);
    }
  }

  lemma PartTotalsStep(rs: seq<Record>, ws: seq<nat>, r: Record, w: nat, owner: nat -> nat, n: nat)
    requires |ws| == |rs|
    ensures Total(PartTotals(rs + [r], ws + [w], owner, n))
            == Total(PartTotals(rs, ws, owner, n)) + (if owner(r.Symbol()) < n then w else 0)
  {
    var p, q := PartTotals(rs, ws, owner, n), PartTotals(rs + [r], ws + [w], owner, n);
    forall t | 0 <= t < n ensures q[t] == p[t] + (if t == owner(r.Symbol()) then w else 0) {
      PartAt(rs, ws, owner, n, t);
      PartAt(rs + [r], ws + [w], owner, n, t);
      PickTotal(rs, ws, r, w, owner, t);
    }
    RaiseOne(p, q, owner(r.Symbol()), w);
  }

  lemma {:induction false} NothingToTotal(owner: nat -> nat, n: nat)
    ensures Total(PartTotals([], [], owner, n)) == 0
  {
    if n > 0 {
      NothingToTotal(owner, n - 1);
      TotalAppend(PartTotals([], [], owner, n - 1), Total(Pick([], [], owner, n - 1)));
    }
  }

  /** If every symbol is routed to one of n shards, the shard totals add up to the whole. */
  lemma {:induction false} TotalsAddUp(rs: seq<Record>, ws: seq<nat>, owner: nat -> nat, n: nat)
    requires |ws| == |rs| && forall r | r in rs :: owner(r.Symbol()) < n
    ensures Total(PartTotals(rs, ws, owner, n)) == Total(ws)
  {
    if rs == [] {
      NothingToTotal(owner, n);
    } else {
      var last := |rs| - 1;
      assert rs == rs[..last] + [rs[last]] && ws == ws[..last] + [ws[last]];
      TotalsAddUp(rs[..last], ws[..last], owner, n);
      PartTotalsStep(rs[..last], ws[..last], rs[last], ws[last], owner, n);
    }
  }

  /** The sum of flag masks one validator reports over a stream. */
  function FlagSum(capacity: nat, rs: seq<Record>): nat {
    Total(Masks(Results(capacity, rs)))
  }

  lemma FlagSumAppend(capacity: nat, rs: seq<Record>, r: Record)
    ensures FlagSum(capacity, rs + [r])
            == FlagSum(capacity, rs) + Mask(Judge(capacity, MapRun(capacity, rs), r).flags)
  {
    var x := Judge(capacity, MapRun(capacity, rs), r);
    ResultsAppend(capacity, rs, r);
    MasksAppend(Results(capacity, rs), x);
    TotalAppend(Masks(Results(capacity, rs)), Mask(x.flags));
  }

  /** A shard's own flag sum is its part of the whole. */
  lemma ShardFlagSum(capacity: nat, rs: seq<Record>, owner: nat -> nat, t: nat)
    requires SamePlaces(capacity, rs, owner, t)
    ensures FlagSum(capacity, Shard(rs, owner, t))
            == Total(Pick(rs, Masks(Results(capacity, rs)), owner, t))
  {
    ShardingPreservesResults(capacity, rs, owner, t);
    MasksOfPick(rs, Results(capacity, rs), owner, t);
  }

  // ---- quotes and the band, across symbols ---------------------------------------------------

  lemma {:induction false} OwnWithoutQuotes(rs: seq<Record>, k: nat)
    ensures Own(WithoutQuotes(rs), k) == WithoutQuotes(Own(rs, k))
  {
    if rs != [] {
      var prefix, r := rs[..|rs| - 1], rs[|rs| - 1];
      assert rs == prefix + [r];
      OwnWithoutQuotes(prefix, k);
      WithoutQuotesAppend(prefix, r);
      WithoutQuotesAppend(Own(prefix, k), r);
      OwnAppend(prefix, r, k);
      OwnAppend(WithoutQuotes(prefix), r, k);
    }
  }

  lemma {:induction false} WithoutQuotesMembers(rs: seq<Record>)
    ensures forall r | r in WithoutQuotes(rs) :: r in rs
  {
    if rs != [] {
      assert rs == rs[..|rs| - 1] + [rs[|rs| - 1]];
      WithoutQuotesMembers(rs[..|rs| - 1]);
    }
  }

  /** Deleting all quotes of all symbols changes no later trade's band flag. */
  lemma QuotesDoNotFlagTrades(capacity: nat, rs: seq<Record>, t: Trade)
    requires |Symbols(rs + [TradeRecord(t)])| <= capacity
    ensures PriceBandBreach in Judge(capacity, MapRun(capacity, rs), TradeRecord(t)).flags
            <==> PriceBandBreach in
                   Judge(capacity, MapRun(capacity, WithoutQuotes(rs)), TradeRecord(t)).flags
  {
    var r, less := TradeRecord(t), WithoutQuotes(rs);
    SymbolsAppend(rs, r);
    SymbolsAppend(less, r);
    WithoutQuotesMembers(rs);
    SubsetSize(Symbols(less + [r]), Symbols(rs + [r]));
    JudgedWithRoom(capacity, rs, r);
    JudgedWithRoom(capacity, less, r);
    OwnWithoutQuotes(rs, t.symbol);
    QuotesDoNotMoveBand(Own(rs, t.symbol));
    BandFlagLocal(Fold(Own(rs, t.symbol)), Fold(Own(less, t.symbol)), t);
  }

  lemma BandFlagLocal(s: SymbolState, u: SymbolState, t: Trade)
    requires s.band == u.band
    ensures PriceBandBreach in Verdict(s, TradeRecord(t)).flags
            <==> PriceBandBreach in Verdict(u, TradeRecord(t)).flags
  {
    if ValidTrade(t) {
      BandPart(s, t);
      BandPart(u, t);
    } else {
      FlagGroups(s, TradeRecord(t), PriceBandBreach);
      FlagGroups(u, TradeRecord(t), PriceBandBreach);
    }
  }
}
