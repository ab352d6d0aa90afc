/** The objects of the interface layer: the implementation registry (Interface/Registry.h), the two slot tables
    (Interface/Ref.h) and the two proxies that bind through them (Interface/Proxy.h). Object handles and adapters
    are numbers, 0 is the null pointer.
 */
module InterfaceProxy {
  import opened Options
  import opened InterfaceContract
  import opened SlotBinding

  /** `fill_slot_entries`: on failure nothing is stored. */
  method FillSlotEntries(entries: array<nat>, ms: seq<InterfaceMethod>, expected: seq<nat>)
      returns (status: InterfaceStatus, highest: nat)
    requires |expected| <= entries.Length
    modifies entries
    ensures status == FillVerdict(ms, entries.Length, expected)
    ensures status == BindOk ==> entries[..] == Stored(old(entries[..]), ms, |ms|) && highest == Highest(ms, |ms|)
    ensures status != BindOk ==> entries[..] == old(entries[..])
  {
    var fits;
    fits, highest := SpanOf(ms, entries.Length);
    if !fits { return MethodCapacityExceeded, highest; }
    status := CheckSlots(ms, expected);
    if status != BindOk { return; }
    var i := 0;
    while i < |ms|
      invariant i <= |ms| && entries[..] == Stored(old(entries[..]), ms, i)
    {
      entries[ms[i].slot] := ms[i].entry;
      i := i + 1;
    }
  }

  /** The first loop over a method table: every slot fits, and how far they reach. */
  method SpanOf(ms: seq<InterfaceMethod>, max: nat) returns (fits: bool, highest: nat)
    ensures fits <==> FitsSlots(ms, max)
    ensures fits ==> highest == Highest(ms, |ms|) <= max
  {
    highest := 0;
    var i := 0;
    while i < |ms|
      invariant i <= |ms| && highest == Highest(ms, i) <= max && forall j :: 0 <= j < i ==> ms[j].slot < max
    {
      if ms[i].slot >= max { return false, highest; }
      if ms[i].slot + 1 > highest { highest := ms[i].slot + 1; }
      i := i + 1;
    }
    return true, highest;
  }

  /** The signature check over all contract slots. */
  method CheckSlots(ms: seq<InterfaceMethod>, expected: seq<nat>) returns (status: InterfaceStatus)
    ensures status == FirstFault(ms, expected, 0)
  {
    var slot := 0;
    while slot < |expected|
      invariant slot <= |expected| && FirstFault(ms, expected, 0) == FirstFault(ms, expected, slot)
    {
      if expected[slot] != 0 {
        var i := 0;
        while i < |ms| && ms[i].slot != slot
          invariant i <= |ms| && FirstFor(ms, slot, 0) == FirstFor(ms, slot, i)
        {
          i := i + 1;
        }
        if i == |ms| || ms[i].entry == 0 { return MethodNotFound; }
        if ms[i].signature != expected[slot] { return SignatureMismatch; }
      }
      slot := slot + 1;
    }
    return BindOk;
  }

  class InterfaceRegistry {
    const capacity: nat
    var entries: seq<Implementation>
    var lookups: nat

    /** No two providers for the same type, interface and version. */
    ghost predicate Valid()
      reads this
    {
      && |entries| <= capacity
      && (forall i :: 0 <= i < |entries| ==>
        entries[i].methods.WellFormed() && entries[i].interfaceId != 0 && entries[i].concreteType != 0)
      && (forall i, j :: 0 <= i < j < |entries| ==>
        !Is(entries[i], entries[j].concreteType, entries[j].interfaceId, entries[j].version))
    }

    constructor (capacity: nat)
      ensures Valid() && entries == [] && this.capacity == capacity
    {
      this.capacity := capacity;
      entries, lookups := [], 0;
    }

    method Add(impl: Implementation) returns (status: InterfaceStatus)
      requires Valid()
      modifies this
      ensures Valid()
      ensures status ==
        if impl.interfaceId == 0 || impl.concreteType == 0 || !impl.methods.WellFormed() then InvalidTable
        else if exists e ::
          e in old(entries) && e.concreteType == impl.concreteType && e.interfaceId == impl.interfaceId &&
          e.version == impl.version
        then DuplicateImplementation
        else if |old(entries)| == capacity then CapacityExceeded
        else BindOk
      ensures entries == if status == BindOk then old(entries) + [impl] else old(entries)
    {
      if impl.interfaceId == 0 || impl.concreteType == 0 || (impl.methods.Count() != 0 && impl.methods.Null?) {
        return InvalidTable;
      }
      var known := FindExact(impl.concreteType, impl.interfaceId, impl.version);
      if known.Some? { return DuplicateImplementation; }
      if |entries| == capacity { return CapacityExceeded; }
      entries := entries + [impl];
      return BindOk;
    }

    method FindExact(concreteType: nat, interfaceId: nat, version: nat) returns (r: Option<Implementation>)
      ensures r == Exact(entries, concreteType, interfaceId, version)
    {
      var i := 0;
      while i < |entries|
        invariant i <= |entries| &&
          Exact(entries, concreteType, interfaceId, version) == Exact(entries[i..], concreteType, interfaceId, version)
      {
        var e := entries[i];
        if e.concreteType == concreteType && e.interfaceId == interfaceId && e.version == version { return Some(e); }
        i := i + 1;
      }
      return None;
    }

    method FindNewest(concreteType: nat, interfaceId: nat) returns (best: Option<Implementation>)
      ensures best == Newest(entries, concreteType, interfaceId)
    {
      best := None;
      var i := 0;
      while i < |entries|
        invariant i <= |entries| && best == Newest(entries[..i], concreteType, interfaceId)
      {
        var e := entries[i];
        assert entries[..i + 1][..i] == entries[..i];
        if e.concreteType == concreteType && e.interfaceId == interfaceId &&
          (best.None? || e.version >= best.value.version) {
          best := Some(e);
        }
        i := i + 1;
      }
      assert entries[..i] == entries;
    }

    /** Version 0 asks for the newest one. */
    method Find(concreteType: nat, interfaceId: nat, version: nat) returns (r: Option<Implementation>)
      modifies this`lookups
      ensures r == SlotBinding.Find(entries, concreteType, interfaceId, version) && lookups == old(lookups) + 1
    {
      lookups := lookups + 1;
      if version == 0 {
        r := FindNewest(concreteType, interfaceId);
      } else {
        r := FindExact(concreteType, interfaceId, version);
      }
    }

    /** The status of a failed lookup. */
    method Missing(concreteType: nat, interfaceId: nat) returns (status: InterfaceStatus)
      ensures status == NotFoundStatus(entries, concreteType, interfaceId)
    {
      var newest := FindNewest(concreteType, interfaceId);
      return if newest.Some? then VersionMismatch else InterfaceNotFound;
    }
  }

  /** The general handle: it makes no signature check when it binds, and keeps the signatures for later ones. */
  class InterfaceRef {
    const entries: array<nat>
    const signatures: array<nat>
    var object_: nat
    var methodCount: nat
    ghost var methods: seq<InterfaceMethod>

    /** What is cached is what the method table of the last successful binding stored. */
    ghost predicate Valid()
      reads this, entries, signatures
    {
      && entries != signatures && entries.Length == signatures.Length && FitsSlots(methods, entries.Length)
      && methodCount == Highest(methods, |methods|) <= entries.Length
      && entries[..] == Stored(Zeros(entries.Length), methods, |methods|)
      && signatures[..] == StoredSignatures(Zeros(entries.Length), methods, |methods|)
    }

    constructor (capacity: nat)
      ensures Valid() && methods == [] && object_ == 0 && entries.Length == capacity && fresh(entries) &&
        fresh(signatures)
    {
      entries := new nat[capacity](_ => 0);
      signatures := new nat[capacity](_ => 0);
      object_, methodCount, methods := 0, 0, [];
      new;
      assert entries[..] == Zeros(capacity) && signatures[..] == Zeros(capacity);
    }

    /** Binds any table whose slots fit; a failed binding leaves no slot callable. */
    method ResolveMethods(table: Listed<InterfaceMethod>, object_: nat) returns (r: InterfaceStatus)
      requires Valid()
      modifies this, entries, signatures
      ensures Valid()
      ensures r == if object_ == 0 || !table.WellFormed() then InvalidTable
                   else if !FitsSlots(table.Items(), entries.Length) then MethodCapacityExceeded
                   else BindOk
      ensures methods == (if r == BindOk then table.Items() else []) &&
        this.object_ == (if r == BindOk then object_ else 0)
    {
      this.object_, methodCount, methods := 0, 0, [];
      forall i | 0 <= i < entries.Length { entries[i] := 0; }
      forall i | 0 <= i < signatures.Length { signatures[i] := 0; }
      assert entries[..] == Zeros(entries.Length) && signatures[..] == Zeros(entries.Length);
      if object_ == 0 || (table.Count() != 0 && table.Null?) { return InvalidTable; }
      var ms := table.Items();
      var fits, highest := SpanOf(ms, entries.Length);
      if !fits { return MethodCapacityExceeded; }
      StoreAll(ms);
      this.object_, methodCount, methods := object_, highest, ms;
      return BindOk;
    }

    /** The store loop. */
    method StoreAll(ms: seq<InterfaceMethod>)
      requires entries != signatures && entries.Length == signatures.Length && FitsSlots(ms, entries.Length)
      modifies entries, signatures
      ensures entries[..] == Stored(old(entries[..]), ms, |ms|)
      ensures signatures[..] == StoredSignatures(old(signatures[..]), ms, |ms|)
    {
      var i := 0;
      while i < |ms|
        invariant i <= |ms| && entries[..] == Stored(old(entries[..]), ms, i)
        invariant signatures[..] == StoredSignatures(old(signatures[..]), ms, i)
      {
        entries[ms[i].slot] := ms[i].entry;
        signatures[ms[i].slot] := ms[i].signature;
        i := i + 1;
      }
    }

    /** `verify`: accepts a slot only if its cached adapter is recorded there with the expected signature. */
    method Verify(slot: nat, expected: nat) returns (r: InterfaceStatus)
      requires Valid()
      ensures r == BindOk && expected != 0 ==>
        slot < entries.Length && CachedAsExpected(entries[slot], methods, expected, slot)
      ensures r == MethodNotFound <==> slot >= methodCount || entries[slot] == 0
      ensures r != MethodNotFound ==>
        (r == SignatureMismatch <==> expected != 0 && signatures[slot] != expected) &&
          (r == BindOk || r == SignatureMismatch)
    {
      if slot >= methodCount || entries[slot] == 0 { return MethodNotFound; }
      VerifiedAdapterIsRecorded(methods, entries.Length, slot);
      if expected != 0 && signatures[slot] != expected { return SignatureMismatch; }
      return BindOk;
    }
  }

  /** The exclusive proxy with its inline slot cache. */
  class UniqueInterfaceProxy {
    const contract: Contract
    const entries: array<nat>
    var object_: nat
    var methodCount: nat
    var status: InterfaceStatus

    /** A proxy without an object has no callable slot. */
    ghost predicate Valid()
      reads this, entries
    {
      entries.Length == |contract.signatures| && (object_ == 0 ==> entries[..] == Zeros(entries.Length))
    }

    function Adapter(slot: nat): (entry: nat)
      reads this, entries
    {
      if slot >= entries.Length then 0 else entries[slot]
    }

    constructor (contract: Contract)
      ensures Valid() && this.contract == contract && status == InterfaceNotFound && object_ == 0 && fresh(entries)
    {
      this.contract := contract;
      entries := new nat[|contract.signatures|](_ => 0);
      object_, methodCount, status := 0, 0, InterfaceNotFound;
    }

    method Reset()
      requires entries.Length == |contract.signatures|
      modifies this`object_, this`methodCount, entries
      ensures Valid() && object_ == 0 && methodCount == 0 && entries[..] == Zeros(entries.Length)
    {
      object_, methodCount := 0, 0;
      forall i | 0 <= i < entries.Length { entries[i] := 0; }
    }

    method ResolveMethods(methods: Listed<InterfaceMethod>, object_: nat) returns (r: InterfaceStatus)
      requires Valid()
      modifies this, entries
      ensures Valid() && status == old(status)
      ensures object_ == 0 ==> r == InvalidTable && entries[..] == Zeros(entries.Length) && this.object_ == 0
      ensures object_ != 0 ==>
        (r, entries[..]) == TableBinding(methods, contract) && this.object_ == (if r == BindOk then object_ else 0)
    {
      Reset();
      if object_ == 0 || (methods.Count() != 0 && methods.Null?) { return InvalidTable; }
      var highest;
      r, highest := FillSlotEntries(entries, methods.Items(), contract.signatures);
      if r != BindOk {
        Reset();
        return;
      }
      this.object_, methodCount := object_, highest;
    }

    /** Binds through the registry: the status and the adapters are exactly what the registry and the contract
        determine; a failed bind leaves no slot callable. */
    method Bind(registry: InterfaceRegistry, object_: nat, concreteType: nat, version: nat) returns (r: InterfaceStatus)
      requires Valid()
      modifies this, entries, registry`lookups
      ensures Valid() && status == r
      ensures object_ != 0 ==> (r, entries[..]) == Binding(registry.entries, contract, concreteType, version)
      ensures object_ == 0 ==> r == InvalidTable
      ensures this.object_ == if r == BindOk then object_ else 0
      ensures r != BindOk ==> forall slot: nat :: Adapter(slot) == 0
    {
      Reset();
      if object_ == 0 {
        status := InvalidTable;
        return InvalidTable;
      }
      var impl := registry.Find(concreteType, contract.id, version);
      if impl.None? {
        r := registry.Missing(concreteType, contract.id);
      } else {
        r := ResolveMethods(impl.value.methods, object_);
      }
      status := r;
    }

    /** Binds a module's own method table, for exactly this contract's identity and version. */
    method BindMethods(interfaceId: nat, version: nat, methods: Listed<InterfaceMethod>, object_: nat)
        returns (r: InterfaceStatus)
      requires Valid()
      modifies this, entries
      ensures Valid() && status == r
      ensures r == if interfaceId != contract.id then InterfaceNotFound
                   else if version != contract.version then VersionMismatch
                   else if object_ == 0 then InvalidTable
                   else TableBinding(methods, contract).0
      ensures if r == BindOk then entries[..] == TableBinding(methods, contract).1 && this.object_ == object_
              else this.object_ == 0 && forall slot: nat :: Adapter(slot) == 0
    {
      if interfaceId != contract.id {
        Reset();
        status := InterfaceNotFound;
        return InterfaceNotFound;
      }
      if version != contract.version {
        Reset();
        status := VersionMismatch;
        return VersionMismatch;
      }
      r := ResolveMethods(methods, object_);
      status := r;
    }
  }

  /** A slot table that many shared proxies point at. */
  class InterfaceSlotTable {
    const capacity: nat
    const entries: array<nat>
    var methodCount: nat
    var ready: bool

    ghost predicate Valid()
      reads this, entries
    {
      entries.Length == capacity && (!ready ==> entries[..] == Zeros(capacity))
    }

    constructor (capacity: nat)
      ensures Valid() && !ready && this.capacity == capacity && fresh(entries)
    {
      this.capacity := capacity;
      entries := new nat[capacity](_ => 0);
      methodCount, ready := 0, false;
    }

    method Clear()
      requires entries.Length == capacity
      modifies this, entries
      ensures Valid() && !ready && entries[..] == Zeros(capacity)
    {
      methodCount, ready := 0, false;
      forall i | 0 <= i < entries.Length { entries[i] := 0; }
    }

    method Build(methods: Listed<InterfaceMethod>, contract: Contract) returns (r: InterfaceStatus)
      requires Valid() && capacity == |contract.signatures|
      modifies this, entries
      ensures Valid() && (r, entries[..]) == TableBinding(methods, contract) && ready == (r == BindOk)
    {
      Clear();
      if methods.Count() != 0 && methods.Null? { return InvalidTable; }
      var highest;
      r, highest := FillSlotEntries(entries, methods.Items(), contract.signatures);
      if r == BindOk { methodCount, ready := highest, true; }
    }

    /** `make_shared_slot_table` from the registry. */
    method Make(registry: InterfaceRegistry, contract: Contract, concreteType: nat, version: nat)
        returns (r: InterfaceStatus)
      requires Valid() && capacity == |contract.signatures|
      modifies this, entries, registry`lookups
      ensures Valid() && (r, entries[..]) == Binding(registry.entries, contract, concreteType, version) &&
        ready == (r == BindOk)
    {
      var impl := registry.Find(concreteType, contract.id, version);
      if impl.None? {
        Clear();
        r := registry.Missing(concreteType, contract.id);
      } else {
        r := Build(impl.value.methods, contract);
      }
    }
  }

  /** The shared proxy: an object handle and a pointer to a slot table. */
  class SharedInterfaceProxy {
    const contract: Contract
    var object_: nat
    var table: InterfaceSlotTable?
    var status: InterfaceStatus

    function Adapter(slot: nat): (entry: nat)
      reads this, table, if table == null then {} else {table.entries}
    {
      if table == null || slot >= table.entries.Length then 0 else table.entries[slot]
    }

    constructor (contract: Contract)
      ensures this.contract == contract && object_ == 0 && table == null && status == InterfaceNotFound
    {
      this.contract := contract;
      object_, table, status := 0, null, InterfaceNotFound;
    }

    /** Points the proxy at a table, also when the result is a failure. */
    method BindTable(table: InterfaceSlotTable, object_: nat) returns (r: InterfaceStatus)
      modifies this
      ensures this.table == table && this.object_ == object_ && status == r
      ensures r == if object_ != 0 && table.ready then BindOk else InvalidTable
    {
      this.table, this.object_ := table, object_;
      status := if object_ != 0 && table.ready then BindOk else InvalidTable;
      r := status;
    }

    /** Binds through the registry, building the table on the way. A failed bind leaves a slot callable exactly when the
        object is null and the registry would have given that slot an adapter. */
    method Bind(registry: InterfaceRegistry, object_: nat, concreteType: nat, table: InterfaceSlotTable, version: nat)
        returns (r: InterfaceStatus)
      requires table.Valid() && table.capacity == |contract.signatures|
      modifies this, table, table.entries, registry`lookups
      ensures table.Valid() && status == r
      ensures var made := Binding(registry.entries, contract, concreteType, version);
        && table.entries[..] == made.1
        && r == (if made.0 != BindOk then made.0 else if object_ == 0 then InvalidTable else BindOk)
        && this.table == (if made.0 == BindOk then table else null)
      ensures r != BindOk ==> forall slot: nat ::
        Adapter(slot) != 0 <==>
          object_ == 0 && slot < |contract.signatures| &&
            Binding(registry.entries, contract, concreteType, version).1[slot] != 0
    {
      this.table, this.object_ := null, 0;
      status := table.Make(registry, contract, concreteType, version);
      r := status;
      if r != BindOk { return; }
      r := BindTable(table, object_);
    }
  }

  /** A unique and a shared proxy of one contract, bound to the same registry, type, version and object, agree on the
      status and on the adapter at every slot. */
  method BindBoth(u: UniqueInterfaceProxy, s: SharedInterfaceProxy, table: InterfaceSlotTable,
      registry: InterfaceRegistry, object_: nat, concreteType: nat, version: nat)
    returns (ru: InterfaceStatus, rs: InterfaceStatus)
    requires u.Valid() && table.Valid() && u.contract == s.contract && table.capacity == |s.contract.signatures|
    requires u.entries != table.entries && object_ != 0
    modifies u, u.entries, s, table, table.entries, registry`lookups
    ensures ru == rs && forall slot: nat :: u.Adapter(slot) == s.Adapter(slot)
  {
    ru := u.Bind(registry, object_, concreteType, version);
    rs := s.Bind(registry, object_, concreteType, table, version);
  }

  /** Binding a shared proxy to a null object fails, and leaves its slot callable. */
  method NullObjectLeavesSlotCallable() returns (r: InterfaceStatus, adapter: nat)
    ensures r == InvalidTable && adapter == 100
  {
    var contract := Contract(1, 1, [7]);
    var ms := [InterfaceMethod(7, 100, 0)];
    var registry := new InterfaceRegistry(1);
    var added := registry.Add(Implementation(1, 2, Listed(ms), 1));
    var table := new InterfaceSlotTable(1);
    var proxy := new SharedInterfaceProxy(contract);
    OneMethodBinds(registry.entries, contract, ms);
    r := proxy.Bind(registry, 0, 2, table, 1);
    adapter := proxy.Adapter(0);
  }

  lemma OneMethodBinds(es: seq<Implementation>, contract: Contract, ms: seq<InterfaceMethod>)
    requires ms == [InterfaceMethod(7, 100, 0)] && es == [Implementation(1, 2, Listed(ms), 1)]
    requires contract == Contract(1, 1, [7])
    ensures Binding(es, contract, 2, 1) == (BindOk, [100])
  {
    assert FirstFor(ms, 0, 0) == 0;
    assert FirstFault(ms, [7], 1) == BindOk;
    assert FitsSlots(ms, 1) && FillVerdict(ms, 1, [7]) == BindOk;
    StoredLast(Zeros(1), ms, 1, 0, 0);
    assert Stored(Zeros(1), ms, 1) == [100];
    assert SlotBinding.Find(es, 2, 1, 1) == Some(es[0]);
  }
}
