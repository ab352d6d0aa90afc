/** The process-wide recycle bin for slot buffers and the index that uses it (Runtime/Search.h).
    The pool's ledger says where every buffer ever allocated is: with one live index, in the pool,
    freed, or in the hands of an operation that is still running.
 */
module SymbolPool {
  import opened Options
  import opened Bits
  import opened SymbolSlots
  import opened SymbolIndex

  type Buffer = array<HashSlot>

  predicate InWindow(capacity: nat) { POOL_MIN_SLOTS <= capacity <= POOL_MAX_SLOTS }

  function Only(b: array?<HashSlot>): set<Buffer> { if b == null then {} else {b} }

  /** A buffer given up is parked if it fits the window and the parked one has another size. */
  predicate Parks(parked: array?<HashSlot>, buf: array?<HashSlot>) {
    buf != null && InWindow(buf.Length) && (parked == null || parked.Length != buf.Length)
  }

  /** The parked buffer after `buf` was given up. */
  function ParkedAfter(parked: array?<HashSlot>, buf: array?<HashSlot>): array?<HashSlot> {
    if Parks(parked, buf) then buf else parked
  }

  /** What giving `buf` up frees: the buffer it displaces, or itself. */
  function FreedBy(parked: array?<HashSlot>, buf: array?<HashSlot>): set<Buffer> {
    if Parks(parked, buf) then Only(parked) else Only(buf)
  }

  class SlotPool {
    var slots: array?<HashSlot>
    var capacity: nat
    ghost var indexes: set<HashIndex>
    ghost var owner: map<Buffer, HashIndex>
    ghost var freed: set<Buffer>
    ghost var lent: set<Buffer>
    ghost var issued: set<Buffer>

    ghost predicate Valid()
      reads this, indexes
    {
      && issued == owner.Keys + Only(slots) + freed + lent
      && owner.Keys !! freed && owner.Keys !! lent && freed !! lent
      && Only(slots) !! owner.Keys + freed + lent
      && (if slots == null then capacity == 0 else slots.Length == capacity && InWindow(capacity))
      && (forall b :: b in owner ==> owner[b] in indexes && owner[b].slots == b)
      && (forall x :: x in indexes && x.slots != null ==>
        x.slots in owner && owner[x.slots] == x && x.slots.Length == x.capacity)
    }

    constructor ()
      ensures Valid() && slots == null && indexes == {} && issued == {} && freed == {} && lent == {}
    {
      slots, capacity := null, 0;
      indexes, owner, freed, lent, issued := {}, map[], {}, {}, {};
    }

    /** Hands out the parked buffer on an exact capacity match. */
    method Take(want: nat) returns (out: array?<HashSlot>)
      requires Valid()
      modifies this
      ensures Valid() && indexes == old(indexes) && owner == old(owner) && freed == old(freed) && issued == old(issued)
      ensures out == (if old(slots) != null && old(capacity) == want then old(slots) else null)
      ensures slots == (if out == null then old(slots) else null) && lent == old(lent) + Only(out)
      ensures out != null ==> out.Length == want
    {
      out := null;
      if slots != null && capacity == want {
        out := slots;
        slots := null;
        capacity := 0;
        lent := lent + {out};
      }
    }

    /** A new buffer with arbitrary contents. */
    method Allocate(cap: nat) returns (buf: Buffer)
      requires Valid()
      modifies this`issued, this`lent
      ensures Valid() && fresh(buf) && buf.Length == cap && lent == old(lent) + {buf} && issued == old(issued) + {buf}
    {
      buf := new HashSlot[cap];
      issued, lent := issued + {buf}, lent + {buf};
    }

    /** Parks a buffer when the window allows it and the parked one has another size; frees whichever is left over. */
    method Offer(buf: array?<HashSlot>, cap: nat)
      requires Valid() && (buf != null ==> buf in lent && buf.Length == cap)
      modifies this
      ensures Valid() && indexes == old(indexes) && owner == old(owner) && issued == old(issued)
      ensures lent == old(lent) - Only(buf)
      ensures slots == ParkedAfter(old(slots), buf) && freed == old(freed) + FreedBy(old(slots), buf)
      ensures if buf != null && 4096 <= cap <= 0x10_0000 && (old(slots) == null || old(slots).Length != cap)
        then slots == buf && freed == old(freed) + (if old(slots) == null then {} else {old(slots)})
        else slots == old(slots) && freed == old(freed) + (if buf == null then {} else {buf})
    {
      var rest := buf;
      lent := lent - Only(buf);
      if buf != null && InWindow(cap) && (slots == null || capacity != cap) {
        rest := slots;
        slots := buf;
        capacity := cap;
      }
      freed := freed + Only(rest);
    }
  }

  class HashIndex {
    var slots: array?<HashSlot>
    var capacity: nat
    var mask: nat

    constructor (pool: SlotPool)
      requires pool.Valid()
      modifies pool
      ensures pool.Valid() && pool.indexes == old(pool.indexes) + {this} && slots == null && capacity == 0 && mask == 0
      ensures pool.slots == old(pool.slots) && pool.owner == old(pool.owner) && pool.freed == old(pool.freed)
      ensures pool.lent == old(pool.lent) && pool.issued == old(pool.issued)
    {
      slots, capacity, mask := null, 0, 0;
      new;
      pool.indexes := pool.indexes + {this};
    }

    /** The index is built over `t`. */
    ghost predicate BuiltOver(t: Table)
      reads this, slots
    {
      slots != null && slots.Length == capacity && Indexes(slots[..], capacity, mask, t)
    }

    /** Gives the buffer up to the pool, or frees it outside the window. */
    method Release(pool: SlotPool)
      requires pool.Valid() && this in pool.indexes
      modifies pool, this`slots
      ensures pool.Valid() && slots == null && pool.indexes == old(pool.indexes) && pool.lent == old(pool.lent) &&
        pool.issued == old(pool.issued)
      ensures pool.owner == old(pool.owner) - Only(old(slots))
      ensures pool.slots == ParkedAfter(old(pool.slots), old(slots))
      ensures pool.freed == old(pool.freed) + FreedBy(old(pool.slots), old(slots))
    {
      if slots != null {
        var buf := slots;
        pool.owner := pool.owner - {buf};
        pool.lent := pool.lent + {buf};
        slots := null;
        assert pool.Valid();
        if InWindow(capacity) {
          pool.Offer(buf, capacity);
        } else {
          pool.lent := pool.lent - {buf};
          pool.freed := pool.freed + {buf};
        }
      }
    }

    /** The probe loop of an insertion: the first empty slot from the home of `h` on. */
    static method SeekEmpty(a: Buffer, mask: nat, h: nat, ghost k: nat) returns (pos: nat)
      requires a.Length == Pow2(k) && mask == a.Length - 1 && Load(a[..]) < a.Length
      ensures pos == Along(Home(h, a.Length), Probe(a[..], Home(h, a.Length), 0), a.Length)
    {
      pos := And(h, mask);
      ghost var home, d, s := Home(h, a.Length), 0, a[..];
      ProbeBegins(s, h, k);
      while a[pos].indexPlus1 != 0
        invariant 0 <= pos < a.Length && 0 <= d < a.Length && Probing(s, home, pos, d)
        decreases a.Length - d
      {
        ProbeAdvances(s, home, pos, d, k);
        pos := And(pos + 1, mask);
        d := d + 1;
      }
    }

    /** Inserts the entries in table order into a cleared buffer. */
    static method InsertAll(a: Buffer, mask: nat, es: seq<Entry>, ghost k: nat)
      requires a.Length == Pow2(k) && mask == a.Length - 1 && |es| < a.Length && a[..] == Cleared(a.Length)
      modifies a
      ensures a[..] == Filled(es, |es|, a.Length)
    {
      var i := 0;
      while i < |es|
        invariant i <= |es| && a[..] == Filled(es, i, a.Length)
      {
        FilledLoad(es, i, a.Length);
        var pos := SeekEmpty(a, mask, es[i].nameHash, k);
        ghost var before := a[..];
        a[pos] := HashSlot(es[i].nameHash, i + 1);
        assert a[..] == before[pos := HashSlot(es[i].nameHash, i + 1)];
        i := i + 1;
      }
    }

    /** Zeroes the buffer and inserts the entries in table order; what the buffer held before does not matter. */
    static method Fill(a: Buffer, mask: nat, t: Table)
      requires LeastPow2(a.Length, 2 * |t.entries|) && a.Length > |t.entries| && mask == a.Length - 1
      modifies a
      ensures Indexes(a[..], a.Length, mask, t)
    {
      ghost var k := LeastIsPow2(a.Length, 2 * |t.entries|);
      forall p | 0 <= p < a.Length { a[p] := EMPTY; }
      assert a[..] == Cleared(a.Length);
      InsertAll(a, mask, t.entries, k);
    }

    /** Rebuilds the index over `t`; `granted` is the allocator's answer. The parked buffer is reused when its size
        fits. */
    method Build(pool: SlotPool, t: Table, granted: bool)
      requires pool.Valid() && this in pool.indexes && |t.entries| <= 0x4000_0000
      modifies pool, this, Only(pool.slots), Only(slots)
      ensures pool.Valid() && pool.indexes == old(pool.indexes) && pool.lent == old(pool.lent)
      ensures if slots == null then !granted && capacity == 0 && mask == 0 else BuiltOver(t)
      ensures granted ==> slots != null
      ensures Exchanged(pool)
      ensures forall x :: x in pool.indexes && x != this && x.slots != null ==> x.slots[..] == old(x.slots[..])
    {
      Acquire(pool, |t.entries|, granted);
      if slots != null { Fill(slots, mask, t); }
    }

    /** The whole ledger after a build: the buffer held before is parked or freed, the new one is the parked one if
        its size fits and otherwise newly issued, and nothing else changes hands. */
    twostate predicate Exchanged(pool: SlotPool)
      reads this, pool
    {
      var parked := ParkedAfter(old(pool.slots), old(slots));
      var reused := slots != null && parked != null && parked.Length == slots.Length;
      && (slots != null ==> if reused then slots == parked else fresh(slots))
      && pool.slots == (if reused then null else parked)
      && pool.freed == old(pool.freed) + FreedBy(old(pool.slots), old(slots))
      && pool.issued == old(pool.issued) + Only(slots)
      && pool.owner == (if slots == null then old(pool.owner) - Only(old(slots))
                        else (old(pool.owner) - Only(old(slots)))[slots := this])
    }

    /** The first half of a build: gives up the buffer held so far and gets one of the right capacity. */
    method Acquire(pool: SlotPool, count: nat, granted: bool)
      requires pool.Valid() && this in pool.indexes && count <= 0x4000_0000
      modifies pool, this
      ensures pool.Valid() && pool.indexes == old(pool.indexes) && pool.lent == old(pool.lent)
      ensures if slots == null then !granted && capacity == 0 && mask == 0
        else LeastPow2(capacity, 2 * count) && capacity > count && mask == capacity - 1 && slots.Length == capacity
      ensures Exchanged(pool)
    {
      Release(pool);
      capacity := CapacityFor(count);
      mask := capacity - 1;
      var buf := Obtain(pool, granted);
      if buf == null { capacity, mask := 0, 0; }
    }

    static method CapacityFor(count: nat) returns (cap: nat)
      requires count <= 0x4000_0000
      ensures LeastPow2(cap, 2 * count) && cap > count
    {
      cap := Capacity(count);
      CapacityExceedsCountExactlyWhen(count);
    }

    /** A buffer of the index's capacity, recycled or new, entered as this index's slots. */
    method Obtain(pool: SlotPool, granted: bool) returns (buf: array?<HashSlot>)
      requires pool.Valid() && this in pool.indexes && slots == null
      modifies pool, this`slots
      ensures pool.Valid() && pool.indexes == old(pool.indexes) && pool.lent == old(pool.lent) && slots == buf
      ensures pool.owner == if buf == null then old(pool.owner) else old(pool.owner)[buf := this]
      ensures buf == null ==> !granted
      ensures pool.freed == old(pool.freed) && pool.issued == old(pool.issued) + Only(buf)
      ensures var parked := old(pool.slots);
        && (buf != null ==>
              buf.Length == capacity && if parked != null && parked.Length == capacity then buf == parked
                else fresh(buf))
        && pool.slots == (if parked != null && parked.Length == capacity then null else parked)
    {
      buf := null;
      if InWindow(capacity) { buf := pool.Take(capacity); }
      if buf == null {
        if !granted { return; }
        buf := pool.Allocate(capacity);
      }
      slots := buf;
      pool.lent, pool.owner := pool.lent - {buf}, pool.owner[buf := this];
    }

    method Destroy(pool: SlotPool)
      requires pool.Valid() && this in pool.indexes
      modifies pool, this
      ensures pool.Valid() && slots == null && capacity == 0 && mask == 0
      ensures pool.indexes == old(pool.indexes) && pool.lent == old(pool.lent) && pool.issued == old(pool.issued)
      ensures pool.owner == old(pool.owner) - Only(old(slots))
      ensures pool.slots == ParkedAfter(old(pool.slots), old(slots))
      ensures pool.freed == old(pool.freed) + FreedBy(old(pool.slots), old(slots))
    {
      Release(pool);
      capacity, mask := 0, 0;
    }
  }

  // ----- lookups through the index

  method FindHash(t: Table, idx: HashIndex, name: Option<string>, nh: nat, sig: nat, ver: nat)
      returns (r: LookupResult, out: nat)
    requires idx.slots != null ==> idx.BuiltOver(t)
    ensures (r, out) == if idx.slots == null then (BadTable, NO_INDEX) else HashFind(t, name, nh, sig, ver)
    ensures r == BadTable <==> idx.slots == null || name == None || t.magic != TABLE_MAGIC
    ensures r == Ok || r == SigMismatch || r == VersionMismatch ==>
      && out < |t.entries| && Bears(t.entries[out], name, nh)
      && (forall j :: 0 <= j < out ==> !Bears(t.entries[j], name, nh))
      && (r == VersionMismatch <==> OtherVersion(t.entries[out], ver))
      && (r == Ok <==> !OtherVersion(t.entries[out], ver) && t.entries[out].sig == sig)
    ensures r == NotFound <==>
      idx.slots != null && name != None && t.magic == TABLE_MAGIC &&
      forall e :: e in t.entries ==> !Bears(e, name, nh)
    ensures r == BadTable || r == NotFound ==> out == NO_INDEX
  {
    if name.None? || t.magic != TABLE_MAGIC || idx.slots == null { return BadTable, NO_INDEX; }
    var a, mask := idx.slots, idx.mask;
    ghost var s := a[..];
    ghost var d: nat := 0;
    ghost var p := (e: Entry) => Named(e, name.value, nh);
    var pos := And(nh, mask);
    ghost var reach, k, stop := ScanStarts(s, mask, t, nh, p);
    ScanReads(s, t.entries, reach, nh, p, k, stop, pos, d);
    while a[pos].indexPlus1 != 0
      invariant 0 <= pos < a.Length && d <= stop && Scanning(s, t.entries, reach, nh, p, k, stop, pos, d)
      decreases stop - d
    {
      ScanReads(s, t.entries, reach, nh, p, k, stop, pos, d);
      var i := a[pos].indexPlus1 - 1;
      if a[pos].hash == nh && t.entries[i].name == name.value {
        ScanAccepts(s, t.entries, reach, nh, p, k, stop, pos, d);
        if ver != 0 && t.entries[i].version != 0 && t.entries[i].version != ver { return VersionMismatch, i; }
        return if t.entries[i].sig != sig then SigMismatch else Ok, i;
      }
      ScanRejects(s, t.entries, reach, nh, p, k, stop, pos, d);
      pos, d := And(pos + 1, mask), d + 1;
      ScanReads(s, t.entries, reach, nh, p, k, stop, pos, d);
    }
    ScanEnds(s, t.entries, reach, nh, p, k, stop, pos, d);
    return NotFound, NO_INDEX;
  }

  method LookupHash(t: Table, idx: HashIndex, name: Option<string>, nh: nat, sig: nat) returns (r: Option<nat>)
    requires idx.slots != null ==> idx.BuiltOver(t)
    ensures r == if idx.slots == null then None else Lookup(t, name, nh, sig)
    ensures r.Some? ==>
      && t.magic == TABLE_MAGIC && r.value < |t.entries|
      && Bears(t.entries[r.value], name, nh) && t.entries[r.value].sig == sig
      && forall j :: 0 <= j < r.value && Bears(t.entries[j], name, nh) ==> t.entries[j].sig != sig
    ensures r == None && idx.slots != null && t.magic == TABLE_MAGIC ==>
      forall e :: e in t.entries && Bears(e, name, nh) ==> e.sig != sig
  {
    if name.None? || t.magic != TABLE_MAGIC || idx.slots == null { return None; }
    var a, mask := idx.slots, idx.mask;
    ghost var s := a[..];
    ghost var d: nat := 0;
    ghost var p := (e: Entry) => Named(e, name.value, nh) && e.sig == sig;
    var pos := And(nh, mask);
    ghost var reach, k, stop := ScanStarts(s, mask, t, nh, p);
    ScanReads(s, t.entries, reach, nh, p, k, stop, pos, d);
    while a[pos].indexPlus1 != 0
      invariant 0 <= pos < a.Length && d <= stop && Scanning(s, t.entries, reach, nh, p, k, stop, pos, d)
      decreases stop - d
    {
      ScanReads(s, t.entries, reach, nh, p, k, stop, pos, d);
      var i := a[pos].indexPlus1 - 1;
      if a[pos].hash == nh && t.entries[i].sig == sig && t.entries[i].name == name.value {
        ScanAccepts(s, t.entries, reach, nh, p, k, stop, pos, d);
        return Some(i);
      }
      ScanRejects(s, t.entries, reach, nh, p, k, stop, pos, d);
      pos, d := And(pos + 1, mask), d + 1;
      ScanReads(s, t.entries, reach, nh, p, k, stop, pos, d);
    }
    ScanEnds(s, t.entries, reach, nh, p, k, stop, pos, d);
    return None;
  }

  /** The index when there is one, the scan otherwise. */
  method FindIndex(t: Table, idx: HashIndex, name: Option<string>, nh: nat, sig: nat, ver: nat)
      returns (r: LookupResult, out: nat)
    requires idx.slots != null ==> idx.BuiltOver(t)
    ensures (r, out) == if idx.slots == null then LinearFind(t, name, nh, sig, ver) else HashFind(t, name, nh, sig, ver)
  {
    if idx.slots != null {
      r, out := FindHash(t, idx, name, nh, sig, ver);
    } else {
      r, out := FindLinear(t, name, nh, sig, ver);
    }
  }
}
