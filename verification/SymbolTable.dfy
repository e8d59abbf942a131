/**
 The open-addressing table of symbols: linear probing from an arbitrary hash, seen as a
 map from symbol to state.
 */
module SymbolTable {
  import opened ValidatorSpec

  // A slot is in use once its state is `seen`; the key of an unused slot means nothing.
  datatype Slot = Slot(key: nat, state: SymbolState)

  /** How many probes from slot h reach slot j in a table of n slots. */
  function Distance(n: nat, h: nat, j: nat): int {
    if h <= j then j - h else j - h + n
  }

  ghost predicate IsHash(hash: nat -> nat, n: nat) {
    forall k: nat :: hash(k) < n
  }

  /** Seen keys are distinct. */
  ghost predicate Distinct(table: seq<Slot>) {
    forall i, j | 0 <= i < j < |table| && table[i].state.seen && table[j].state.seen ::
      table[i].key != table[j].key
  }

  /** No unseen slot lies on a seen key's probe path. */
  ghost predicate Probed(hash: nat -> nat, table: seq<Slot>) {
    forall i, j {:trigger Distance(|table|, hash(table[i].key), j)}
        | 0 <= i < |table| && 0 <= j < |table| && table[i].state.seen
                  && Distance(|table|, hash(table[i].key), j)
                     < Distance(|table|, hash(table[i].key), i) ::
      table[j].state.seen
  }

  ghost predicate Blank(table: seq<Slot>) {
    forall i | 0 <= i < |table| && !table[i].state.seen :: table[i].state == UNSEEN
  }

  ghost predicate Holds(table: seq<Slot>, i: nat, k: nat) {
    i < |table| && table[i].state.seen && table[i].key == k
  }

  ghost predicate Located(table: seq<Slot>, k: nat) {
    exists i :: Holds(table, i, k)
  }

  /** The table holds exactly the entries of the map. */
  ghost predicate Represents(table: seq<Slot>, m: map<nat, SymbolState>) {
    && (forall i | 0 <= i < |table| && table[i].state.seen ::
          table[i].key in m && m[table[i].key] == table[i].state)
    && (forall k {:trigger Located(table, k)} | k in m :: Located(table, k))
  }

  ghost predicate TableOk(hash: nat -> nat, table: seq<Slot>, m: map<nat, SymbolState>) {
    Distinct(table) && Probed(hash, table) && Blank(table) && Represents(table, m)
  }

  /** The slots of the first `probes` probes from h are all taken by other keys. */
  ghost predicate Searched(table: seq<Slot>, h: nat, probes: int, k: nat) {
    forall j | 0 <= j < |table| && Distance(|table|, h, j) < probes ::
      table[j].state.seen && table[j].key != k
  }

  /** Where a lookup may end: at the key's own slot, or at the first free one of its path. */
  ghost predicate Lands(hash: nat -> nat, table: seq<Slot>, k: nat, i: nat) {
    && i < |table|
    && (Holds(table, i, k)
        || (!table[i].state.seen
            && Searched(table, hash(k), Distance(|table|, hash(k), i), k)))
  }

  /** A search that reaches a free slot has shown that the key is not in the table. */
  lemma FreeMeansAbsent(hash: nat -> nat, table: seq<Slot>, m: map<nat, SymbolState>, k: nat, i: nat)
    requires TableOk(hash, table, m) && IsHash(hash, |table|)
    requires Lands(hash, table, k, i) && !table[i].state.seen
    ensures k !in m
  {
    assert forall j: nat :: !Holds(table, j, k);
    assert !Located(table, k);
  }

  /** A search through all slots has shown that the table is full of other keys. */
  lemma ExhaustedMeansFull(hash: nat -> nat, table: seq<Slot>, m: map<nat, SymbolState>, k: nat)
    requires TableOk(hash, table, m) && IsHash(hash, |table|)
    requires Searched(table, hash(k), |table|, k)
    ensures k !in m && |m| == |table|
  {
    assert forall j: nat :: !Holds(table, j, k);
    assert !Located(table, k);
    assert forall j | 0 <= j < |table| :: table[j].state.seen;
    KeyCount(table, |table|);
    KeysOfMap(table, m);
  }

  ghost function Keys(table: seq<Slot>, n: nat): set<nat>
    requires n <= |table|
  {
    set i | 0 <= i < n && table[i].state.seen :: table[i].key
  }

  lemma {:induction false} KeyCount(table: seq<Slot>, n: nat)
    requires Distinct(table) && n <= |table|
    ensures |Keys(table, n)| <= n
    ensures |Keys(table, n)| == n <==> forall i | 0 <= i < n :: table[i].state.seen
  {
    if n > 0 {
      KeyCount(table, n - 1);
      var rest := Keys(table, n - 1);
      if table[n - 1].state.seen {
        assert Keys(table, n) == rest + {table[n - 1].key};
        assert table[n - 1].key !in rest;
      } else {
        assert Keys(table, n) == rest;
      }
    }
  }

  lemma KeysOfMap(table: seq<Slot>, m: map<nat, SymbolState>)
    requires Represents(table, m)
    ensures Keys(table, |table|) == m.Keys
  {
    forall k | k in m ensures k in Keys(table, |table|) {
      assert Located(table, k);
      var j :| Holds(table, j, k);
    }
  }

  /** While a slot is free, the map is smaller than the table. */
  lemma FreeMeansRoom(hash: nat -> nat, table: seq<Slot>, m: map<nat, SymbolState>, i: nat)
    requires TableOk(hash, table, m) && i < |table| && !table[i].state.seen
    ensures |m| < |table|
  {
    KeyCount(table, |table|);
    KeysOfMap(table, m);
  }

  /** Writing the state back where the lookup landed keeps the table and updates the map. */
  lemma StoreKeepsTable(hash: nat -> nat, table: seq<Slot>, m: map<nat, SymbolState>,
                        k: nat, i: nat, s: SymbolState)
    requires TableOk(hash, table, m) && IsHash(hash, |table|) && Lands(hash, table, k, i) && s.seen
    ensures TableOk(hash, table[i := Slot(k, s)], m[k := s])
  {
    if !table[i].state.seen {
      FreeMeansAbsent(hash, table, m, k, i);
    }
    StoreDistinct(table, m, k, i, s);
    StoreProbed(hash, table, k, i, s);
    StoreRepresents(table, m, k, i, s);
  }

  lemma StoreDistinct(table: seq<Slot>, m: map<nat, SymbolState>, k: nat, i: nat, s: SymbolState)
    requires Distinct(table) && Represents(table, m) && i < |table|
    requires Holds(table, i, k) || k !in m
    ensures Distinct(table[i := Slot(k, s)])
  {
  }

  lemma StoreProbed(hash: nat -> nat, table: seq<Slot>, k: nat, i: nat, s: SymbolState)
    requires Probed(hash, table) && Lands(hash, table, k, i) && s.seen
    ensures Probed(hash, table[i := Slot(k, s)])
  {
  }

  lemma StoreRepresents(table: seq<Slot>, m: map<nat, SymbolState>, k: nat, i: nat, s: SymbolState)
    requires Distinct(table) && Represents(table, m) && i < |table| && s.seen
    requires Holds(table, i, k) || (!table[i].state.seen && k !in m)
    ensures Represents(table[i := Slot(k, s)], m[k := s])
  {
    var t := table[i := Slot(k, s)];
    assert Holds(t, i, k);
    assert Located(t, k);
    forall q | q in m && q != k ensures Located(t, q) {
      assert Located(table, q);
      var j :| Holds(table, j, q);
      assert Holds(t, j, q);
    }
  }
}
