/** The open-addressing slot array of the symbol index (Runtime/Search.h), as a value: what inserting
    the entries of a table in order produces, and where every entry ends up.
 */
module SymbolSlots {

  datatype Entry = Entry(name: string, nameHash: nat, sig: nat, version: nat)

  /** `indexPlus1 == 0` marks an empty slot. */
  datatype HashSlot = HashSlot(hash: nat, indexPlus1: nat)

  const EMPTY: HashSlot := HashSlot(0, 0)

  predicate Occupied(slot: HashSlot) { slot.indexPlus1 != 0 }

  /** The position `d` probes after `home`, with wrap-around. */
  function Along(home: nat, d: nat, cap: nat): (p: nat)
    requires home < cap && d <= cap
    ensures p < cap
  {
    if home + d < cap then home + d else home + d - cap
  }

  /** How many probes from `home` (starting at the `d`-th) it takes to reach an empty slot; `|s|` if there is none. */
  function Probe(s: seq<HashSlot>, home: nat, d: nat): (e: nat)
    requires home < |s| && d <= |s|
    ensures d <= e <= |s|
    decreases |s| - d
  {
    if d == |s| || !Occupied(s[Along(home, d, |s|)]) then d else Probe(s, home, d + 1)
  }

  /** The position where the probes for a hash begin: its remainder modulo the capacity. */
  function Home(h: nat, cap: nat): (p: nat)
    requires cap > 0
    ensures p < cap
  {
    if h < cap then h else Home(h - cap, cap)
  }

  function Insert(s: seq<HashSlot>, i: nat, h: nat): (r: seq<HashSlot>)
    requires |s| > 0
    ensures |r| == |s|
  {
    s[Along(Home(h, |s|), Probe(s, Home(h, |s|), 0), |s|) := HashSlot(h, i + 1)]
  }

  function Cleared(cap: nat): (s: seq<HashSlot>)
    ensures |s| == cap && forall p :: 0 <= p < cap ==> s[p] == EMPTY
  {
    seq(cap, _ => EMPTY)
  }

  /** The slot array after inserting the first `n` entries in table order. */
  function Filled(es: seq<Entry>, n: nat, cap: nat): (s: seq<HashSlot>)
    requires n <= |es| && cap > 0
    ensures |s| == cap
  {
    if n == 0 then Cleared(cap) else Insert(Filled(es, n - 1, cap), n - 1, es[n - 1].nameHash)
  }

  // ----- where the entries are

  /** Distance of entry `i` from its home position. */
  function Reach(es: seq<Entry>, i: nat, cap: nat): (d: nat)
    requires i < |es| && cap > 0
    ensures d <= cap
  {
    Probe(Filled(es, i, cap), Home(es[i].nameHash, cap), 0)
  }

  /** Position of entry `i`. */
  function Spot(es: seq<Entry>, i: nat, cap: nat): (p: nat)
    requires i < |es| && cap > 0
    ensures p < cap
  {
    Along(Home(es[i].nameHash, cap), Reach(es, i, cap), cap)
  }

  /** Number of occupied slots. */
  function Load(s: seq<HashSlot>): (n: nat)
    ensures n <= |s|
  {
    if s == [] then 0 else (if Occupied(s[|s| - 1]) then 1 else 0) + Load(s[..|s| - 1])
  }

  lemma {:induction false} LoadUpdate(s: seq<HashSlot>, p: nat, x: HashSlot)
    requires p < |s| && !Occupied(s[p]) && Occupied(x)
    ensures Load(s[p := x]) == Load(s) + 1
  {
    var t := s[p := x];
    if p == |s| - 1 {
      assert t[..|s| - 1] == s[..|s| - 1];
    } else {
      assert t[..|s| - 1] == s[..|s| - 1][p := x];
      LoadUpdate(s[..|s| - 1], p, x);
    }
  }

  lemma {:induction false} LoadFull(s: seq<HashSlot>)
    requires forall p :: 0 <= p < |s| ==> Occupied(s[p])
    ensures Load(s) == |s|
  {
    if s != [] { LoadFull(s[..|s| - 1]); }
  }

  lemma {:induction false} LoadCleared(cap: nat)
    ensures Load(Cleared(cap)) == 0
  {
    if cap > 0 {
      assert Cleared(cap)[..cap - 1] == Cleared(cap - 1);
      LoadCleared(cap - 1);
    }
  }

  /** What a finished probe has seen. */
  lemma {:induction false} ProbeSkips(s: seq<HashSlot>, home: nat, d: nat)
    requires home < |s| && d <= |s|
    ensures forall e :: d <= e < Probe(s, home, d) ==> Occupied(s[Along(home, e, |s|)])
    ensures Probe(s, home, d) < |s| ==> !Occupied(s[Along(home, Probe(s, home, d), |s|)])
    decreases |s| - d
  {
    if d < |s| && Occupied(s[Along(home, d, |s|)]) { ProbeSkips(s, home, d + 1); }
  }

  /** Every position is some number of probes away from every home. */
  lemma AlongReaches(home: nat, p: nat, cap: nat) returns (d: nat)
    requires home < cap && p < cap
    ensures d < cap && Along(home, d, cap) == p
  {
    d := if p >= home then p - home else p + cap - home;
  }

  lemma AlongInjective(home: nat, d: nat, e: nat, cap: nat)
    requires home < cap && d < cap && e < cap && Along(home, d, cap) == Along(home, e, cap)
    ensures d == e
  {
  }

  /** A table that is not full stops every probe. */
  lemma ProbeStops(s: seq<HashSlot>, home: nat)
    requires home < |s| && Load(s) < |s|
    ensures Probe(s, home, 0) < |s|
  {
    if Probe(s, home, 0) == |s| {
      ProbeSkips(s, home, 0);
      forall p | 0 <= p < |s| ensures Occupied(s[p]) {
        var d := AlongReaches(home, p, |s|);
        assert Occupied(s[Along(home, d, |s|)]);
      }
      LoadFull(s);
    }
  }

  lemma {:induction false} FilledLoad(es: seq<Entry>, n: nat, cap: nat)
    requires n <= |es| && n < cap
    ensures Load(Filled(es, n, cap)) == n
  {
    if n == 0 {
      LoadCleared(cap);
    } else {
      var s := Filled(es, n - 1, cap);
      var home := Home(es[n - 1].nameHash, cap);
      FilledLoad(es, n - 1, cap);
      ProbeStops(s, home);
      ProbeSkips(s, home, 0);
      LoadUpdate(s, Along(home, Probe(s, home, 0), cap), HashSlot(es[n - 1].nameHash, n));
    }
  }

  /** Entry `i` goes to a slot that was empty, past slots that were not. */
  lemma SpotIsFresh(es: seq<Entry>, i: nat, cap: nat)
    requires i < |es| && i < cap
    ensures Reach(es, i, cap) < cap && !Occupied(Filled(es, i, cap)[Spot(es, i, cap)])
    ensures forall d :: 0 <= d < Reach(es, i, cap) ==>
      Occupied(Filled(es, i, cap)[Along(Home(es[i].nameHash, cap), d, cap)])
  {
    FilledLoad(es, i, cap);
    ProbeStops(Filled(es, i, cap), Home(es[i].nameHash, cap));
    ProbeSkips(Filled(es, i, cap), Home(es[i].nameHash, cap), 0);
  }

  /** Insertions never move or erase what is there. */
  lemma {:induction false} FilledKeeps(es: seq<Entry>, m: nat, n: nat, cap: nat, p: nat)
    requires m <= n <= |es| && n < cap && p < cap && Occupied(Filled(es, m, cap)[p])
    ensures Filled(es, n, cap)[p] == Filled(es, m, cap)[p]
  {
    if m < n {
      FilledKeeps(es, m, n - 1, cap, p);
      SpotIsFresh(es, n - 1, cap);
    }
  }

  /** Every entry is in its spot, and what is not an entry's spot is empty. */
  lemma {:induction false} FilledSlots(es: seq<Entry>, n: nat, cap: nat, p: nat)
    requires n <= |es| && n < cap && p < cap
    ensures var x := Filled(es, n, cap)[p];
      x == EMPTY || (1 <= x.indexPlus1 <= n && x.hash == es[x.indexPlus1 - 1].nameHash &&
        Spot(es, x.indexPlus1 - 1, cap) == p)
  {
    if n > 0 { FilledSlots(es, n - 1, cap, p); }
  }

  lemma FilledEntry(es: seq<Entry>, n: nat, cap: nat, i: nat)
    requires i < n <= |es| && n < cap
    ensures Filled(es, n, cap)[Spot(es, i, cap)] == HashSlot(es[i].nameHash, i + 1)
  {
    FilledKeeps(es, i + 1, n, cap, Spot(es, i, cap));
  }

  /** No empty slot lies between an entry's home and the entry. */
  lemma FilledChain(es: seq<Entry>, n: nat, cap: nat, i: nat, d: nat)
    requires i < n <= |es| && n < cap && d <= Reach(es, i, cap)
    ensures Occupied(Filled(es, n, cap)[Along(Home(es[i].nameHash, cap), d, cap)])
  {
    FilledEntry(es, n, cap, i);
    if d < Reach(es, i, cap) {
      SpotIsFresh(es, i, cap);
      FilledKeeps(es, i, n, cap, Along(Home(es[i].nameHash, cap), d, cap));
    }
  }

  /** Entries with equal hashes stand in table order along their probe chain. */
  lemma FilledOrder(es: seq<Entry>, cap: nat, i: nat, j: nat)
    requires i < j < |es| && j < cap && es[i].nameHash == es[j].nameHash
    ensures Reach(es, i, cap) < Reach(es, j, cap)
  {
    SpotIsFresh(es, i, cap);
    SpotIsFresh(es, j, cap);
    if Reach(es, j, cap) <= Reach(es, i, cap) {
      FilledChain(es, j, cap, i, Reach(es, j, cap));
    }
  }

  /** Where the `i`-th entry stands when its distance from home is `reach[i]`. */
  function Place(es: seq<Entry>, reach: seq<nat>, i: nat, cap: nat): (p: nat)
    requires i < |es| == |reach| && reach[i] < cap
    ensures p < cap
  {
    Along(Home(es[i].nameHash, cap), reach[i], cap)
  }

  ghost predicate Sized(s: seq<HashSlot>, es: seq<Entry>, reach: seq<nat>) {
    |s| > 0 && |es| == |reach| && forall i :: 0 <= i < |es| ==> reach[i] < |s|
  }

  /** The `i`-th entry is recorded at its place. */
  ghost predicate EntryPlaced(s: seq<HashSlot>, es: seq<Entry>, reach: seq<nat>, i: nat)
    requires Sized(s, es, reach) && i < |es|
  {
    s[Place(es, reach, i, |s|)] == HashSlot(es[i].nameHash, i + 1)
  }

  /** If the slot at `p` is not empty, it is the place of the entry it records. */
  ghost predicate SlotOwned(s: seq<HashSlot>, es: seq<Entry>, reach: seq<nat>, p: nat)
    requires Sized(s, es, reach) && p < |s|
  {
    s[p] != EMPTY ==> 1 <= s[p].indexPlus1 <= |es| && Place(es, reach, s[p].indexPlus1 - 1, |s|) == p
  }

  /** The slot `d` probes after the home of the `i`-th entry is not empty if it lies no further than the entry. */
  ghost predicate Linked(s: seq<HashSlot>, es: seq<Entry>, reach: seq<nat>, i: nat, d: nat)
    requires Sized(s, es, reach) && i < |es|
  {
    d <= reach[i] ==> Occupied(s[Along(Home(es[i].nameHash, |s|), d, |s|)])
  }

  /** Entries with equal hashes keep their table order along the chain. */
  ghost predicate Ordered(es: seq<Entry>, reach: seq<nat>, i: nat, j: nat)
    requires |es| == |reach| && i < j < |es|
  {
    es[i].nameHash == es[j].nameHash ==> reach[i] < reach[j]
  }

  /** Every entry sits in exactly one slot, with no empty slot between its home and it, and equal hashes are in
      order. */
  ghost predicate WellPlaced(s: seq<HashSlot>, es: seq<Entry>, reach: seq<nat>) {
    && Sized(s, es, reach)
    && (forall i: nat :: i < |es| ==> EntryPlaced(s, es, reach, i))
    && (forall p: nat :: p < |s| ==> SlotOwned(s, es, reach, p))
    && (forall i: nat, d: nat :: i < |es| ==> Linked(s, es, reach, i, d))
    && (forall i: nat, j: nat :: i < j < |es| ==> Ordered(es, reach, i, j))
  }

  function Reaches(es: seq<Entry>, cap: nat): (reach: seq<nat>)
    requires cap > 0
    ensures |reach| == |es| && forall i :: 0 <= i < |es| ==> reach[i] == Reach(es, i, cap)
  {
    seq(|es|, i requires 0 <= i < |es| => Reach(es, i, cap))
  }

  lemma FilledSized(s: seq<HashSlot>, es: seq<Entry>, reach: seq<nat>)
    requires |es| < |s| && s == Filled(es, |es|, |s|) && reach == Reaches(es, |s|)
    ensures Sized(s, es, reach)
  {
    forall i | 0 <= i < |es| ensures reach[i] < |s| { SpotIsFresh(es, i, |s|); }
  }

  /** Inserting the entries of any table in order gives a well-placed index. */
  lemma FilledIsWellPlaced(s: seq<HashSlot>, es: seq<Entry>, reach: seq<nat>)
    requires |es| < |s| && s == Filled(es, |es|, |s|) && reach == Reaches(es, |s|)
    ensures WellPlaced(s, es, reach)
  {
    FilledSized(s, es, reach);
    forall i: nat | i < |es| ensures EntryPlaced(s, es, reach, i) { FilledEntry(es, |es|, |s|, i); }
    forall p: nat | p < |s| ensures SlotOwned(s, es, reach, p) { FilledSlots(es, |es|, |s|, p); }
    forall i: nat, d: nat | i < |es| ensures Linked(s, es, reach, i, d) {
      if d <= reach[i] { FilledChain(es, |es|, |s|, i, d); }
    }
    forall i: nat, j: nat | i < j < |es| ensures Ordered(es, reach, i, j) {
      if es[i].nameHash == es[j].nameHash { FilledOrder(es, |s|, i, j); }
    }
  }

  /** The structure determines where an entry is: a slot that records hash `h` at distance `d` from `h`'s home holds
      the entry whose reach is `d`. */
  lemma SlotAtDistance(s: seq<HashSlot>, es: seq<Entry>, reach: seq<nat>, h: nat, d: nat)
    requires WellPlaced(s, es, reach) && d < |s|
    requires var x := s[Along(Home(h, |s|), d, |s|)]; Occupied(x) && x.hash == h
    ensures var i := s[Along(Home(h, |s|), d, |s|)].indexPlus1 - 1;
      0 <= i < |es| && es[i].nameHash == h && reach[i] == d
  {
    var p := Along(Home(h, |s|), d, |s|);
    var i := s[p].indexPlus1 - 1;
    assert SlotOwned(s, es, reach, p);
    assert EntryPlaced(s, es, reach, i);
    AlongInjective(Home(h, |s|), d, reach[i], |s|);
  }

  /** Each entry's slot is the only one that records it. */
  lemma OneSlotEach(s: seq<HashSlot>, es: seq<Entry>, reach: seq<nat>, p: nat, q: nat)
    requires WellPlaced(s, es, reach) && p < |s| && q < |s| && Occupied(s[p]) && s[p].indexPlus1 == s[q].indexPlus1
    ensures p == q
  {
    assert SlotOwned(s, es, reach, p) && SlotOwned(s, es, reach, q);
  }
}
