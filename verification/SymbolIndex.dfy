/** The symbol index and its buffer pool (Runtime/Search.h): building, recycling, and the two lookups
    that must agree with the linear scan they replace.
 */
module SymbolIndex {
  import opened Options
  import opened Bits
  import opened SymbolSlots

  datatype Table = Table(magic: nat, entries: seq<Entry>)

  datatype LookupResult = Ok | NotFound | SigMismatch | VersionMismatch | BadTable

  const TABLE_MAGIC: nat := 0xAB1E7A81
  const NO_INDEX: nat := 0xFFFF_FFFF
  const POOL_MIN_SLOTS: nat := 4096
  const POOL_MAX_SLOTS: nat := 0x10_0000

  // ----- capacity

  /** `next_pow2(count * 2)` in 32-bit arithmetic. */
  function Capacity(count: nat): nat { NextPow2((2 * count) % U32) }

  /** The capacity leaves a free slot exactly up to 2^30 entries: beyond that the doubling or the rounding wraps. */
  lemma CapacityExceedsCountExactlyWhen(count: nat)
    requires count < U32
    ensures count <= 0x4000_0000 <==> count < Capacity(count)
    ensures count <= 0x4000_0000 ==> LeastPow2(Capacity(count), 2 * count)
  {
    NextPow2IsLeast((2 * count) % U32);
    CapacityCases(count, (2 * count) % U32, Capacity(count));
  }

  lemma CapacityCases(count: nat, v: nat, p: nat)
    requires count < U32 && v == (2 * count) % U32
    requires if v <= 0x8000_0000 then LeastPow2(p, v) else p == 0
    ensures count <= 0x4000_0000 <==> count < p
    ensures count <= 0x4000_0000 ==> LeastPow2(p, 2 * count)
  {
    assert count <= 0x4000_0000 ==> v == 2 * count;
    if v <= 0x8000_0000 { LeastBelow31(p, v); }
  }

  lemma LeastBelow31(p: nat, v: nat)
    requires LeastPow2(p, v) && v <= 0x8000_0000
    ensures p <= 0x8000_0000
  {
    Pow2At32();
  }

  lemma {:induction false} HomeIsMod(h: nat, cap: nat)
    requires cap > 0
    ensures Home(h, cap) == h % cap
  {
    if h < cap {
      ModUnique(h, cap, 0, h);
    } else {
      HomeIsMod(h - cap, cap);
      var q := (h - cap) / cap;
      assert (q + 1) * cap == q * cap + cap;
      ModUnique(h, cap, q + 1, (h - cap) % cap);
    }
  }

  /** The mask of a power of two selects the home position. */
  lemma MaskIsHome(h: nat, cap: nat, k: nat)
    requires cap == Pow2(k)
    ensures And(h, cap - 1) == Home(h, cap)
  {
    AndMask(h, k);
    HomeIsMod(h, cap);
  }

  /** One step of a probe loop, `pos = (pos + 1) & mask`. */
  lemma NextProbe(home: nat, d: nat, cap: nat, k: nat)
    requires cap == Pow2(k) && home < cap && d < cap
    ensures And(Along(home, d, cap) + 1, cap - 1) == Along(home, d + 1, cap)
  {
    MaskIsHome(Along(home, d, cap) + 1, cap, k);
  }

  /** An insertion that stands `d` probes after `home`, with every slot so far occupied and an empty one ahead. */
  ghost predicate Probing(s: seq<HashSlot>, home: nat, pos: nat, d: nat) {
    home < |s| && d < |s| && pos == Along(home, d, |s|) && Probe(s, home, 0) == Probe(s, home, d) < |s|
  }

  lemma ProbeAdvances(s: seq<HashSlot>, home: nat, pos: nat, d: nat, k: nat)
    requires |s| == Pow2(k) && Probing(s, home, pos, d) && Occupied(s[pos])
    ensures Probing(s, home, And(pos + 1, |s| - 1), d + 1)
  {
    NextProbe(home, d, |s|, k);
  }

  lemma ProbeBegins(s: seq<HashSlot>, h: nat, k: nat)
    requires |s| == Pow2(k) && Load(s) < |s|
    ensures And(h, |s| - 1) == Home(h, |s|) && Probing(s, Home(h, |s|), Home(h, |s|), 0)
  {
    MaskIsHome(h, |s|, k);
    ProbeStops(s, Home(h, |s|));
  }

  lemma LeastIsPow2(cap: nat, v: nat) returns (k: nat)
    requires LeastPow2(cap, v)
    ensures cap == Pow2(k)
  {
    k :| k <= 31 && cap == Pow2(k);
  }

  // ----- what the lookups promise

  predicate Named(e: Entry, name: string, nh: nat) { e.nameHash == nh && e.name == name }

  predicate Accepts(e: Entry, ver: nat) { ver == 0 || e.version == 0 || e.version == ver }

  /** Index of the first entry from `i` on that satisfies `p`; the length if there is none. */
  function First(es: seq<Entry>, p: Entry -> bool, i: nat): (k: nat)
    requires i <= |es|
    ensures i <= k <= |es| && (k < |es| ==> p(es[k])) && forall j :: i <= j < k ==> !p(es[j])
    decreases |es| - i
  {
    if i == |es| || p(es[i]) then i else First(es, p, i + 1)
  }

  lemma FirstIs(es: seq<Entry>, p: Entry -> bool, k: nat)
    requires k <= |es| && (k < |es| ==> p(es[k])) && forall j :: 0 <= j < k ==> !p(es[j])
    ensures First(es, p, 0) == k
  {
  }

  /** The linear scan: the first entry of that name with an acceptable version decides. */
  function LinearFind(t: Table, name: Option<string>, nh: nat, sig: nat, ver: nat): (LookupResult, nat) {
    if name.None? || t.magic != TABLE_MAGIC then (BadTable, NO_INDEX)
    else
      var i := First(t.entries, e => Named(e, name.value, nh) && Accepts(e, ver), 0);
      if i == |t.entries| then (NotFound, NO_INDEX)
      else if t.entries[i].sig != sig then (SigMismatch, i) else (Ok, i)
  }

  /** The index: the first entry of that name decides, its version included. */
  function HashFind(t: Table, name: Option<string>, nh: nat, sig: nat, ver: nat): (LookupResult, nat) {
    if name.None? || t.magic != TABLE_MAGIC then (BadTable, NO_INDEX)
    else
      var i := First(t.entries, e => Named(e, name.value, nh), 0);
      if i == |t.entries| then (NotFound, NO_INDEX)
      else if !Accepts(t.entries[i], ver) then (VersionMismatch, i)
      else if t.entries[i].sig != sig then (SigMismatch, i) else (Ok, i)
  }

  /** Both `lookup` functions: the first entry with that name and signature. */
  function Lookup(t: Table, name: Option<string>, nh: nat, sig: nat): Option<nat> {
    if name.None? || t.magic != TABLE_MAGIC then None
    else
      var i := First(t.entries, e => Named(e, name.value, nh) && e.sig == sig, 0);
      if i == |t.entries| then None else Some(i)
  }

  /** Entry `i` is the lowest one of that name. */
  ghost predicate LowestNamed(es: seq<Entry>, name: string, nh: nat, i: int) {
    && 0 <= i < |es| && es[i].name == name && es[i].nameHash == nh
    && forall j :: 0 <= j < i ==> !(es[j].name == name && es[j].nameHash == nh)
  }

  /** The indexed search and the scan give the same result and index exactly when the lowest entry of that name, if
      there is one, has an acceptable version; otherwise the index reports a version mismatch there. */
  lemma HashAgreesExactlyWhen(t: Table, name: Option<string>, nh: nat, sig: nat, ver: nat)
    ensures HashFind(t, name, nh, sig, ver) == LinearFind(t, name, nh, sig, ver) <==>
      name.None? || t.magic != TABLE_MAGIC || forall i :: LowestNamed(t.entries, name.value, nh, i) ==>
        ver == 0 || t.entries[i].version == 0 || t.entries[i].version == ver
    ensures HashFind(t, name, nh, sig, ver) != LinearFind(t, name, nh, sig, ver) ==>
      var i := HashFind(t, name, nh, sig, ver).1;
      && HashFind(t, name, nh, sig, ver).0 == VersionMismatch && LowestNamed(t.entries, name.value, nh, i)
      && LinearFind(t, name, nh, sig, ver).0 != VersionMismatch
  {
    if name.Some? && t.magic == TABLE_MAGIC {
      var i := First(t.entries, e => Named(e, name.value, nh), 0);
      if i == |t.entries| || Accepts(t.entries[i], ver) {
        FirstIs(t.entries, e => Named(e, name.value, nh) && Accepts(e, ver), i);
      }
    }
  }

  /** A table in which they differ: two versions of one name, and a request for the second. */
  lemma HashAndLinearCanDiffer()
    ensures var t := Table(TABLE_MAGIC, [Entry("f", 9, 5, 1), Entry("f", 9, 5, 2)]);
      HashFind(t, Some("f"), 9, 5, 2) == (VersionMismatch, 0) && LinearFind(t, Some("f"), 9, 5, 2) == (Ok, 1)
  {
    var t := Table(TABLE_MAGIC, [Entry("f", 9, 5, 1), Entry("f", 9, 5, 2)]);
    FirstIs(t.entries, e => Named(e, "f", 9), 0);
    FirstIs(t.entries, e => Named(e, "f", 9) && Accepts(e, 2), 1);
  }

  // ----- the index as a value

  /** An index built over the table: the least sufficient power of two, filled in table order. */
  ghost predicate Indexes(s: seq<HashSlot>, cap: nat, mask: nat, t: Table) {
    && LeastPow2(cap, 2 * |t.entries|) && mask == cap - 1
    && |s| == cap > |t.entries| && s == Filled(t.entries, |t.entries|, cap)
  }

  /** `p` holds only of entries with hash `nh`. */
  ghost predicate Hashed(p: Entry -> bool, nh: nat) { forall e :: p(e) ==> e.nameHash == nh }

  /** No entry that satisfies `p` is closer to its home than `d`. */
  ghost predicate NoneBefore(es: seq<Entry>, reach: seq<nat>, d: nat, p: Entry -> bool)
    requires |reach| == |es|
  {
    forall i :: 0 <= i < |es| && p(es[i]) ==> d <= reach[i]
  }

  /** A lookup of `p` with hash `nh` in a well-placed index: it stands at `pos` after `d` rejected slots, and an
      empty slot lies ahead at distance `stop`. */
  ghost predicate Scanning(s: seq<HashSlot>, es: seq<Entry>, reach: seq<nat>, nh: nat, p: Entry -> bool, k: nat,
      stop: nat, pos: nat, d: nat) {
    && WellPlaced(s, es, reach) && |s| == Pow2(k) && Hashed(p, nh)
    && d <= stop < |s| && pos == Along(Home(nh, |s|), d, |s|) && !Occupied(s[Along(Home(nh, |s|), stop, |s|)])
    && NoneBefore(es, reach, d, p)
  }

  lemma ScanStarts(s: seq<HashSlot>, mask: nat, t: Table, nh: nat, p: Entry -> bool)
      returns (reach: seq<nat>, k: nat, stop: nat)
    requires Indexes(s, |s|, mask, t) && Hashed(p, nh)
    ensures Scanning(s, t.entries, reach, nh, p, k, stop, And(nh, mask), 0)
  {
    reach, stop := IndexIsWellPlaced(s, t.entries, Home(nh, |s|));
    k := LeastIsPow2(|s|, 2 * |t.entries|);
    MaskIsHome(nh, |s|, k);
  }

  lemma IndexIsWellPlaced(s: seq<HashSlot>, es: seq<Entry>, home: nat) returns (reach: seq<nat>, stop: nat)
    requires home < |s| && |es| < |s| && s == Filled(es, |es|, |s|)
    ensures WellPlaced(s, es, reach) && stop < |s| && !Occupied(s[Along(home, stop, |s|)])
  {
    reach, stop := Reaches(es, |s|), Probe(s, home, 0);
    FilledIsWellPlaced(s, es, reach);
    FilledLoad(es, |es|, |s|);
    ProbeStops(s, home);
    ProbeSkips(s, home, 0);
  }

  /** Under a lookup, an occupied slot names an entry of the table. */
  lemma ScanReads(s: seq<HashSlot>, es: seq<Entry>, reach: seq<nat>, nh: nat, p: Entry -> bool, k: nat, stop: nat,
      pos: nat, d: nat)
    requires Scanning(s, es, reach, nh, p, k, stop, pos, d)
    ensures pos < |s| &&
      (Occupied(s[pos]) ==> s[pos].indexPlus1 <= |es| && s[pos].hash == es[s[pos].indexPlus1 - 1].nameHash)
  {
    assert SlotOwned(s, es, reach, pos);
    if Occupied(s[pos]) { assert EntryPlaced(s, es, reach, s[pos].indexPlus1 - 1); }
  }

  /** A slot whose entry does not satisfy `p` is passed over. */
  lemma ScanRejects(s: seq<HashSlot>, es: seq<Entry>, reach: seq<nat>, nh: nat, p: Entry -> bool, k: nat, stop: nat,
      pos: nat, d: nat)
    requires Scanning(s, es, reach, nh, p, k, stop, pos, d) && pos < |s| && Occupied(s[pos])
    requires s[pos].indexPlus1 <= |es| ==> !p(es[s[pos].indexPlus1 - 1])
    ensures Scanning(s, es, reach, nh, p, k, stop, And(pos + 1, |s| - 1), d + 1)
  {
    NextProbe(Home(nh, |s|), d, |s|, k);
    forall i | 0 <= i < |es| && p(es[i]) ensures d + 1 <= reach[i] {
      assert EntryPlaced(s, es, reach, i);
    }
  }

  /** A slot whose entry satisfies `p` holds the lowest such entry. */
  lemma ScanAccepts(s: seq<HashSlot>, es: seq<Entry>, reach: seq<nat>, nh: nat, p: Entry -> bool, k: nat, stop: nat,
      pos: nat, d: nat)
    requires Scanning(s, es, reach, nh, p, k, stop, pos, d) && pos < |s| && Occupied(s[pos])
    requires s[pos].indexPlus1 <= |es| && s[pos].hash == nh && p(es[s[pos].indexPlus1 - 1])
    ensures First(es, p, 0) == s[pos].indexPlus1 - 1
  {
    var i := s[pos].indexPlus1 - 1;
    SlotAtDistance(s, es, reach, nh, d);
    forall j | 0 <= j < i ensures !p(es[j]) {
      assert Ordered(es, reach, j, i);
    }
    FirstIs(es, p, i);
  }

  /** A lookup that meets an empty slot has excluded every entry. */
  lemma ScanEnds(s: seq<HashSlot>, es: seq<Entry>, reach: seq<nat>, nh: nat, p: Entry -> bool, k: nat, stop: nat,
      pos: nat, d: nat)
    requires Scanning(s, es, reach, nh, p, k, stop, pos, d) && pos < |s| && !Occupied(s[pos])
    ensures First(es, p, 0) == |es|
  {
    forall i | 0 <= i < |es| && es[i].nameHash == nh ensures reach[i] < d {
      assert Linked(s, es, reach, i, d);
    }
    FirstIs(es, p, |es|);
  }

  // ----- the scans

  /** The entry is of that name, whatever its signature and version. */
  ghost predicate Bears(e: Entry, name: Option<string>, nh: nat) { Some(e.name) == name && e.nameHash == nh }

  /** A version is asked for and the entry has another one. */
  ghost predicate OtherVersion(e: Entry, ver: nat) { ver > 0 && e.version > 0 && e.version != ver }

  /** The first entry of that name which is not of another version decides, by its signature. */
  method FindLinear(t: Table, name: Option<string>, nh: nat, sig: nat, ver: nat) returns (r: LookupResult, out: nat)
    ensures (r, out) == LinearFind(t, name, nh, sig, ver)
    ensures r == BadTable <==> name == None || t.magic != 0xAB1E7A81
    ensures r == Ok || r == SigMismatch ==>
      && out < |t.entries| && Bears(t.entries[out], name, nh) && !OtherVersion(t.entries[out], ver)
      && (r == Ok <==> t.entries[out].sig == sig)
      && forall j :: 0 <= j < out && Bears(t.entries[j], name, nh) ==> OtherVersion(t.entries[j], ver)
    ensures r == NotFound <==>
      name != None && t.magic == 0xAB1E7A81 &&
      forall e :: e in t.entries && Bears(e, name, nh) ==> OtherVersion(e, ver)
    ensures r == BadTable || r == NotFound ==> out == 0xFFFF_FFFF
    ensures r != VersionMismatch
  {
    if name.None? || t.magic != TABLE_MAGIC { return BadTable, NO_INDEX; }
    ghost var p := (e: Entry) => Named(e, name.value, nh) && Accepts(e, ver);
    var i := 0;
    while i < |t.entries|
      invariant i <= |t.entries| && forall j :: 0 <= j < i ==> !p(t.entries[j])
    {
      var e := t.entries[i];
      if e.nameHash == nh && e.name == name.value && !(ver != 0 && e.version != 0 && e.version != ver) {
        FirstIs(t.entries, p, i);
        return if e.sig != sig then SigMismatch else Ok, i;
      }
      i := i + 1;
    }
    FirstIs(t.entries, p, i);
    return NotFound, NO_INDEX;
  }

  method LookupLinear(t: Table, name: Option<string>, nh: nat, sig: nat) returns (r: Option<nat>)
    ensures r == Lookup(t, name, nh, sig)
    ensures r.Some? ==>
      && t.magic == TABLE_MAGIC && r.value < |t.entries|
      && Bears(t.entries[r.value], name, nh) && t.entries[r.value].sig == sig
      && forall j :: 0 <= j < r.value && Bears(t.entries[j], name, nh) ==> t.entries[j].sig != sig
    ensures r == None && t.magic == TABLE_MAGIC ==> forall e :: e in t.entries && Bears(e, name, nh) ==> e.sig != sig
  {
    if name.None? || t.magic != TABLE_MAGIC { return None; }
    ghost var p := (e: Entry) => Named(e, name.value, nh) && e.sig == sig;
    var i := 0;
    while i < |t.entries|
      invariant i <= |t.entries| && forall j :: 0 <= j < i ==> !p(t.entries[j])
    {
      var e := t.entries[i];
      if e.nameHash == nh && e.sig == sig && e.name == name.value {
        FirstIs(t.entries, p, i);
        return Some(i);
      }
      i := i + 1;
    }
    FirstIs(t.entries, p, i);
    return None;
  }
}
