/** Finite sets of sequence numbers: the first missing one and the highest one. */
module Holes {

  /** The least number at or above `from` that is not in `s`. */
  function FirstHole(s: set<nat>, from: nat): (r: nat)
    ensures from <= r && r !in s
    ensures forall n | from <= n < r :: n in s
    decreases s
  {
    if from in s then FirstHole(s - {from}, from + 1) else from
  }

  lemma FirstHoleUnique(s: set<nat>, from: nat, r: nat)
    requires from <= r && r !in s
    requires forall n | from <= n < r :: n in s
    ensures FirstHole(s, from) == r
  {
    var h := FirstHole(s, from);
    assert h < r ==> h in s;
    assert r < h ==> r in s;
  }

  /** Only the part of the set at or above the starting point matters. */
  lemma FirstHoleLocal(s: set<nat>, t: set<nat>, from: nat)
    requires forall n | from <= n :: n in s <==> n in t
    ensures FirstHole(s, from) == FirstHole(t, from)
  {
    FirstHoleUnique(s, from, FirstHole(t, from));
  }

  lemma FirstHoleMonotone(s: set<nat>, from: nat, from': nat)
    requires from <= from'
    ensures FirstHole(s, from) <= FirstHole(s, from')
    ensures from' <= FirstHole(s, from) ==> FirstHole(s, from) == FirstHole(s, from')
  {
    var h := FirstHole(s, from);
    if from' <= h {
      FirstHoleUnique(s, from', h);
    }
  }

  ghost predicate IsHighest(s: set<nat>, top: nat) {
    top in s && forall n | n in s :: n <= top
  }

  ghost function Highest(s: set<nat>): (top: nat)
    requires s != {}
    ensures IsHighest(s, top)
    decreases s
  {
    var x :| x in s;
    if s == {x} then x
    else
      var t := Highest(s - {x});
      assert s == (s - {x}) + {x};
      if t < x then x else t
  }
}
