/** The canonical type registry (Metadata/Registry.h) and the versioned runtime registry on top of it
    (Runtime/Registry.h): registration is all or nothing, and what it establishes never breaks.
 */
module TypeRegistry {
  import opened Options
  import opened InterfaceContract
  import opened TypeModel

  // ----- what registrations establish

  /** No two entries for one type and version; every entry is consistent and aligned. */
  ghost predicate EntriesOk(es: seq<RegistryEntry>) {
    && (forall i, j :: 0 <= i < j < |es| ==> !IsEntry(es[i], es[j].descriptor.typeId, es[j].version))
    && (forall i :: 0 <= i < |es| ==>
      TypeFits(es[i].descriptor, es[i].canonical, es[i].layout) && Aligned(es[i].layout.align))
  }

  /** Every field of every registered type is of a registered type. */
  ghost predicate FieldsResolve(es: seq<RegistryEntry>, all: seq<RegistryEntry>) {
    forall i, j :: 0 <= i < |es| && 0 <= j < |es[i].descriptor.fields.Items()| ==>
      HasId(all, es[i].descriptor.fields.Items()[j].typeId)
  }

  ghost predicate DistinctTypes(m: ModuleDescriptor) {
    forall i, j :: 0 <= i < j < |m.Types()| ==> m.Types()[i].typeId != m.Types()[j].typeId
  }

  /** The module has been accepted under this version: its types are there with its layouts, and what it refers to
      is too. */
  ghost predicate Accepted(es: seq<RegistryEntry>, m: ModuleDescriptor, version: nat) {
    && m.Sized() && ModuleFits(m) && DistinctTypes(m)
    && (forall i :: 0 <= i < m.typeCount ==> Aligned(m.types.value[i].align))
    && (forall i :: 0 <= i < m.typeCount ==> HasType(es, m.types.value[i].typeId, version))
    && (forall i :: 0 <= i < m.typeCount ==>
      LayoutAgrees(es, m.types.value[i].typeId, version, m.canonicalLayouts.value[i]))
    && (forall i :: 0 <= i < |m.Types()| ==> TypeRefsKnown(es, m, m.Types()[i]))
    && (forall i :: 0 <= i < |m.functions.Items()| ==> FunctionRefsKnown(es, m, m.functions.Items()[i]))
  }

  /** A check that passes says all of this. */
  lemma CheckedModule(es: seq<RegistryEntry>, capacity: nat, m: ModuleDescriptor, version: nat)
    requires m.Sized() && CheckStatus(es, capacity, m, version) == RegisterOk
    ensures ModuleFits(m) && DistinctTypes(m) && RefsKnown(es, m)
    ensures forall i :: 0 <= i < m.typeCount ==>
      Aligned(m.types.value[i].align) && LayoutAgrees(es, m.types.value[i].typeId, version, m.canonicalLayouts.value[i])
  {
    FirstTypeFaultOk(es, m, version, 0);
    forall i | 0 <= i < m.typeCount
      ensures Aligned(m.types.value[i].align) &&
        LayoutAgrees(es, m.types.value[i].typeId, version, m.canonicalLayouts.value[i])
      ensures forall j :: 0 <= j < i ==> m.types.value[j].typeId != m.types.value[i].typeId
    {
      assert TypeFault(es, m, version, i) == RegisterOk;
    }
  }

  /** What the added entries are. */
  lemma {:induction false} AddedEntries(es: seq<RegistryEntry>, m: ModuleDescriptor, version: nat, n: nat, k: nat)
      returns (i: nat)
    requires n <= m.typeCount && m.HasTypes() && k < |Added(es, m, version, n)|
    ensures i < n && Added(es, m, version, n)[k] == EntryOf(m, version, i) &&
      !HasType(es, m.types.value[i].typeId, version)
  {
    if k < |Added(es, m, version, n - 1)| {
      i := AddedEntries(es, m, version, n - 1, k);
    } else {
      i := n - 1;
    }
  }

  /** A type of the module that comes later is not among the entries added so far. */
  lemma NotAddedYet(es: seq<RegistryEntry>, m: ModuleDescriptor, version: nat, n: nat)
    requires n < m.typeCount && m.HasTypes() && DistinctTypes(m)
    ensures HasType(es + Added(es, m, version, n), m.types.value[n].typeId, version) <==>
      HasType(es, m.types.value[n].typeId, version)
  {
    var added, id := Added(es, m, version, n), m.types.value[n].typeId;
    forall k | 0 <= k < |added| ensures !IsEntry(added[k], id, version) {
      var i := AddedEntries(es, m, version, n, k);
      assert m.Types()[i].typeId != m.Types()[n].typeId;
    }
    if k :| 0 <= k < |es + added| && IsEntry((es + added)[k], id, version) {
      assert k < |es|;
      assert IsEntry(es[k], id, version);
    }
    if k :| 0 <= k < |es| && IsEntry(es[k], id, version) { assert IsEntry((es + added)[k], id, version); }
  }

  /** One more entry. */
  lemma EntriesGrow(es: seq<RegistryEntry>, e: RegistryEntry)
    requires EntriesOk(es) && !HasType(es, e.descriptor.typeId, e.version)
    requires TypeFits(e.descriptor, e.canonical, e.layout) && Aligned(e.layout.align)
    ensures EntriesOk(es + [e])
  {
    var es' := es + [e];
    forall i, j | 0 <= i < j < |es'| ensures !IsEntry(es'[i], es'[j].descriptor.typeId, es'[j].version) {
      if j == |es| { assert !IsEntry(es[i], e.descriptor.typeId, e.version); }
    }
  }

  lemma HasIdGrows(es: seq<RegistryEntry>, added: seq<RegistryEntry>, id: nat)
    requires HasId(es, id)
    ensures HasId(es + added, id)
  {
    var i :| 0 <= i < |es| && es[i].descriptor.typeId == id;
    assert (es + added)[i].descriptor.typeId == id;
  }

  lemma HasTypeGrows(es: seq<RegistryEntry>, added: seq<RegistryEntry>, id: nat, version: nat)
    requires HasType(es, id, version)
    ensures HasType(es + added, id, version)
  {
    var i :| 0 <= i < |es| && IsEntry(es[i], id, version);
    assert IsEntry((es + added)[i], id, version);
  }

  lemma KnownGrows(es: seq<RegistryEntry>, added: seq<RegistryEntry>, m: ModuleDescriptor, id: nat)
    requires Known(es, m, id)
    ensures Known(es + added, m, id)
  {
    if HasId(es, id) { HasIdGrows(es, added, id); }
  }

  lemma RefsGrow(es: seq<RegistryEntry>, added: seq<RegistryEntry>, m: ModuleDescriptor)
    requires RefsKnown(es, m)
    ensures RefsKnown(es + added, m)
  {
    var es' := es + added;
    forall i | 0 <= i < |m.Types()| ensures TypeRefsKnown(es', m, m.Types()[i]) {
      var fs := m.Types()[i].fields.Items();
      assert TypeRefsKnown(es, m, m.Types()[i]);
      forall j | 0 <= j < |fs| ensures Known(es', m, fs[j].typeId) { KnownGrows(es, added, m, fs[j].typeId); }
    }
    forall i | 0 <= i < |m.functions.Items()| ensures FunctionRefsKnown(es', m, m.functions.Items()[i]) {
      var f := m.functions.Items()[i];
      assert FunctionRefsKnown(es, m, f);
      KnownGrows(es, added, m, f.returnType);
      forall j | 0 <= j < |f.parameters.Items()| ensures Known(es', m, f.parameters.Items()[j]) {
        KnownGrows(es, added, m, f.parameters.Items()[j]);
      }
    }
  }

  /** Every type of the module is there after adding. */
  lemma {:induction false} AddedAll(es: seq<RegistryEntry>, m: ModuleDescriptor, version: nat, n: nat, i: nat)
    requires i < n <= m.typeCount && m.HasTypes()
    ensures HasType(es + Added(es, m, version, n), m.types.value[i].typeId, version)
  {
    var before, all := es + Added(es, m, version, n - 1), es + Added(es, m, version, n);
    var id := m.types.value[i].typeId;
    if i < n - 1 {
      AddedAll(es, m, version, n - 1, i);
      var k :| 0 <= k < |before| && IsEntry(before[k], id, version);
      assert all[k] == before[k];
    } else if HasType(es, id, version) {
      HasTypeGrows(es, Added(es, m, version, n), id, version);
    } else {
      assert all[|all| - 1] == EntryOf(m, version, i);
      assert IsEntry(all[|all| - 1], id, version);
    }
  }

  /** What is added agrees with the module's own layouts. */
  lemma AddedAgrees(es: seq<RegistryEntry>, m: ModuleDescriptor, version: nat, i: nat)
    requires m.HasTypes() && DistinctTypes(m) && i < m.typeCount
    requires LayoutAgrees(es, m.types.value[i].typeId, version, m.canonicalLayouts.value[i])
    ensures LayoutAgrees(es + Added(es, m, version, m.typeCount), m.types.value[i].typeId, version,
      m.canonicalLayouts.value[i])
  {
    var added := Added(es, m, version, m.typeCount);
    var all, id := es + added, m.types.value[i].typeId;
    forall k | 0 <= k < |all| && IsEntry(all[k], id, version)
      ensures SameLayout(all[k].layout, m.canonicalLayouts.value[i])
    {
      if k < |es| {
        assert IsEntry(es[k], id, version);
      } else {
        var j := AddedEntries(es, m, version, m.typeCount, k - |es|);
        assert m.Types()[j].typeId == m.Types()[i].typeId;
        assert j == i;
      }
    }
  }

  /** Registration makes the module accepted. */
  lemma RegisteredIsAccepted(es: seq<RegistryEntry>, capacity: nat, m: ModuleDescriptor, version: nat)
    requires m.Sized() && CheckStatus(es, capacity, m, version) == RegisterOk
    ensures Accepted(es + Added(es, m, version, m.typeCount), m, version)
  {
    CheckedModule(es, capacity, m, version);
    var added := Added(es, m, version, m.typeCount);
    forall i | 0 <= i < m.typeCount
      ensures HasType(es + added, m.types.value[i].typeId, version)
      ensures LayoutAgrees(es + added, m.types.value[i].typeId, version, m.canonicalLayouts.value[i])
    {
      AddedAll(es, m, version, m.typeCount, i);
      AddedAgrees(es, m, version, i);
    }
    RefsGrow(es, added, m);
  }

  /** Once accepted, always accepted: later entries are for other types or versions. */
  lemma AcceptedGrows(es: seq<RegistryEntry>, added: seq<RegistryEntry>, m: ModuleDescriptor, version: nat)
    requires Accepted(es, m, version) && EntriesOk(es + added)
    ensures Accepted(es + added, m, version)
  {
    var all := es + added;
    forall i | 0 <= i < m.typeCount
      ensures HasType(all, m.types.value[i].typeId, version)
      ensures LayoutAgrees(all, m.types.value[i].typeId, version, m.canonicalLayouts.value[i])
    {
      var id := m.types.value[i].typeId;
      HasTypeGrows(es, added, id, version);
      var k :| 0 <= k < |es| && IsEntry(es[k], id, version);
      assert all[k] == es[k];
      forall j | 0 <= j < |all| && IsEntry(all[j], id, version)
        ensures SameLayout(all[j].layout, m.canonicalLayouts.value[i])
      {
        assert IsEntry(all[k], all[j].descriptor.typeId, all[j].version) &&
          IsEntry(all[j], all[k].descriptor.typeId, all[k].version);
        assert j == k;
      }
    }
    RefsGrow(es, added, m);
  }

  /** Registering an accepted module again changes nothing and succeeds. */
  lemma ReRegisterIsNoOp(es: seq<RegistryEntry>, capacity: nat, m: ModuleDescriptor, version: nat)
    requires Accepted(es, m, version) && |es| <= capacity
    ensures CheckStatus(es, capacity, m, version) == RegisterOk && Added(es, m, version, m.typeCount) == []
  {
    FirstTypeFaultOk(es, m, version, 0);
    forall i | 0 <= i < m.typeCount ensures TypeFault(es, m, version, i) == RegisterOk {
      forall j | 0 <= j < i
        ensures m.types.value[j].typeId != m.types.value[i].typeId
      {
        assert m.Types()[j].typeId != m.Types()[i].typeId;
      }
    }
    NothingAdded(es, m, version, m.typeCount);
  }

  lemma {:induction false} NothingAdded(es: seq<RegistryEntry>, m: ModuleDescriptor, version: nat, n: nat)
    requires n <= m.typeCount && (n == 0 || m.HasTypes()) && forall i :: 0 <= i < n ==>
      HasType(es, m.types.value[i].typeId, version)
    ensures Added(es, m, version, n) == []
  {
    if n > 0 { NothingAdded(es, m, version, n - 1); }
  }

  /** Two modules accepted under one version agree on the layout of every type they share. */
  lemma AcceptedModulesAgree(es: seq<RegistryEntry>, m1: ModuleDescriptor, m2: ModuleDescriptor, version: nat, i: nat,
      j: nat)
    requires Accepted(es, m1, version) && Accepted(es, m2, version) && i < m1.typeCount && j < m2.typeCount
    requires m1.types.value[i].typeId == m2.types.value[j].typeId
    ensures m1.canonicalLayouts.value[i] == m2.canonicalLayouts.value[j]
  {
    var id := m1.types.value[i].typeId;
    var k :| 0 <= k < |es| && IsEntry(es[k], id, version);
    assert SameLayout(es[k].layout, m1.canonicalLayouts.value[i]) &&
      SameLayout(es[k].layout, m2.canonicalLayouts.value[j]);
  }

  /** A conflicting layout is refused, whatever else is registered. */
  lemma ConflictIsRefused(es: seq<RegistryEntry>, capacity: nat, m1: ModuleDescriptor, m2: ModuleDescriptor,
      version: nat, i: nat, j: nat)
    requires Accepted(es, m1, version) && m2.Sized() && m2.HasTypes() && i < m1.typeCount && j < m2.typeCount
    requires m1.types.value[i].typeId == m2.types.value[j].typeId &&
      m1.canonicalLayouts.value[i] != m2.canonicalLayouts.value[j]
    ensures CheckStatus(es, capacity, m2, version) != RegisterOk
  {
    var id := m1.types.value[i].typeId;
    var k :| 0 <= k < |es| && IsEntry(es[k], id, version);
    assert SameLayout(es[k].layout, m1.canonicalLayouts.value[i]);
    if CheckStatus(es, capacity, m2, version) == RegisterOk { CheckedModule(es, capacity, m2, version); }
  }

  // ----- the canonical registry

  datatype CanonicalStatus = CanonicalOk | InvalidDescriptor | CanonicalFull | AlreadyRegistered | CanonicalConflict

  datatype CanonicalEntry = CanonicalEntry(desc: TypeDesc, layout: TypeLayout)

  predicate DescriptorFits(desc: Option<TypeDesc>, layout: Option<TypeLayout>) {
    desc.Some? && layout.Some? && desc.value.id != 0 && layout.value.size != 0 && Aligned(layout.value.align)
  }

  predicate HasCanonical(cs: seq<CanonicalEntry>, id: nat) { exists i :: 0 <= i < |cs| && cs[i].desc.id == id }

  class CanonicalRegistry {
    const capacity: nat
    var entries: seq<CanonicalEntry>

    /** One valid layout per type. */
    ghost predicate Valid()
      reads this
    {
      && |entries| <= capacity
      && (forall i :: 0 <= i < |entries| ==> DescriptorFits(Some(entries[i].desc), Some(entries[i].layout)))
      && (forall i, j :: 0 <= i < j < |entries| ==> entries[i].desc.id != entries[j].desc.id)
    }

    constructor (capacity: nat)
      ensures Valid() && entries == [] && this.capacity == capacity
    {
      this.capacity := capacity;
      entries := [];
    }

    method FindById(id: nat) returns (r: Option<CanonicalEntry>)
      ensures r.None? <==> !HasCanonical(entries, id)
      ensures r.Some? ==> r.value in entries && r.value.desc.id == id
    {
      var i := 0;
      while i < |entries|
        invariant i <= |entries| && forall j :: 0 <= j < i ==> entries[j].desc.id != id
      {
        if entries[i].desc.id == id { return Some(entries[i]); }
        i := i + 1;
      }
      return None;
    }

    /** A known type is only compared; a new one is appended. */
    method RegisterType(desc: Option<TypeDesc>, layout: Option<TypeLayout>) returns (status: CanonicalStatus)
      requires Valid()
      modifies this
      ensures Valid()
      ensures status == InvalidDescriptor <==>
        desc == None || layout == None || desc.value.id == 0 || layout.value.size == 0 ||
        !PowerOfTwo(layout.value.align)
      ensures status != InvalidDescriptor ==>
        forall i :: 0 <= i < |old(entries)| && old(entries)[i].desc.id == desc.value.id ==>
          status == if old(entries)[i].layout == layout.value then AlreadyRegistered else CanonicalConflict
      ensures status != InvalidDescriptor &&
        desc.value.id !in (set i | 0 <= i < |old(entries)| :: old(entries)[i].desc.id)
        ==> status == if |old(entries)| == capacity then CanonicalFull else CanonicalOk
      ensures entries == if status == CanonicalOk then old(entries) + [CanonicalEntry(desc.value, layout.value)]
        else old(entries)
    {
      if layout.Some? { PowerOfTwoExactly(layout.value.align); }
      if !DescriptorFits(desc, layout) { return InvalidDescriptor; }
      var existing := FindById(desc.value.id);
      if existing.Some? {
        return if SameLayout(existing.value.layout, layout.value) then AlreadyRegistered else CanonicalConflict;
      }
      if |entries| == capacity { return CanonicalFull; }
      entries := entries + [CanonicalEntry(desc.value, layout.value)];
      return CanonicalOk;
    }
  }

  // ----- the runtime registry

  /** The latest among the newest entries of a type. */
  ghost predicate NewestEntry(es: seq<RegistryEntry>, id: nat, best: Option<nat>) {
    match best
    case None => !HasId(es, id)
    case Some(k) =>
      && k < |es| && es[k].descriptor.typeId == id
      && forall i :: 0 <= i < |es| && i != k && es[i].descriptor.typeId == id ==>
           if i < k then es[i].version <= es[k].version else es[i].version < es[k].version
  }

  ghost predicate AllCanonical(es: seq<RegistryEntry>, cs: seq<CanonicalEntry>) {
    forall i :: 0 <= i < |es| ==> HasCanonical(cs, es[i].descriptor.typeId)
  }

  class Registry {
    const capacity: nat
    const canonical: CanonicalRegistry
    var entries: seq<RegistryEntry>
    /** Every module accepted so far, with its version. */
    ghost var history: seq<(ModuleDescriptor, nat)>

    /** The state between two types of one module: everything but what needs the whole module. */
    ghost predicate Consistent()
      reads this, canonical
    {
      && canonical.Valid() && canonical.capacity == capacity
      && |canonical.entries| <= |entries| <= capacity
      && EntriesOk(entries) && AllCanonical(entries, canonical.entries)
    }

    ghost predicate Valid()
      reads this, canonical
    {
      && Consistent() && FieldsResolve(entries, entries)
      && (forall k :: 0 <= k < |history| ==> Accepted(entries, history[k].0, history[k].1))
    }

    constructor (capacity: nat)
      ensures Valid() && entries == [] && history == [] && this.capacity == capacity && fresh(canonical)
    {
      this.capacity := capacity;
      canonical := new CanonicalRegistry(capacity);
      entries, history := [], [];
    }

    method FindType(id: nat, version: nat) returns (r: Option<RegistryEntry>)
      ensures r.None? <==> !HasType(entries, id, version)
      ensures r.Some? ==> r.value in entries && IsEntry(r.value, id, version)
    {
      var i := 0;
      while i < |entries|
        invariant i <= |entries| && forall j :: 0 <= j < i ==> !IsEntry(entries[j], id, version)
      {
        if entries[i].descriptor.typeId == id && entries[i].version == version { return Some(entries[i]); }
        i := i + 1;
      }
      return None;
    }

    method FindById(id: nat) returns (best: Option<nat>)
      ensures NewestEntry(entries, id, best)
    {
      best := None;
      var i := 0;
      while i < |entries|
        invariant i <= |entries| && NewestEntry(entries[..i], id, best)
      {
        if entries[i].descriptor.typeId == id && (best.None? || entries[i].version >= entries[best.value].version) {
          best := Some(i);
        }
        i := i + 1;
      }
      assert entries[..i] == entries;
    }

    /** The module defines the type or the registry has it. */
    method KnownType(m: ModuleDescriptor, id: nat) returns (known: bool)
      ensures known <==> Known(entries, m, id)
    {
      var types := m.Types();
      var i := 0;
      while i < |types|
        invariant i <= |types| && forall j :: 0 <= j < i ==> types[j].typeId != id
      {
        if types[i].typeId == id { return true; }
        i := i + 1;
      }
      var found := FindById(id);
      return found.Some?;
    }

    /** The first loop of the check: every type by itself, counting the new ones. */
    method CheckTypes(m: ModuleDescriptor, version: nat) returns (status: RegisterStatus, newTypes: nat)
      requires EntriesOk(entries) && m.Sized() && (m.typeCount != 0 ==> m.HasTypes())
      ensures status == FirstTypeFault(entries, m, version, 0)
      ensures status == RegisterOk ==> newTypes == |Added(entries, m, version, m.typeCount)|
    {
      newTypes := 0;
      var i := 0;
      while i < m.typeCount
        invariant i <= m.typeCount && FirstTypeFault(entries, m, version, 0) == FirstTypeFault(entries, m, version, i)
        invariant newTypes == |Added(entries, m, version, i)|
      {
        status := CheckType(m, version, i);
        if status != RegisterOk { return; }
        var existing := FindType(m.types.value[i].typeId, version);
        if existing.None? { newTypes := newTypes + 1; }
        i := i + 1;
      }
      return RegisterOk, newTypes;
    }

    method CheckType(m: ModuleDescriptor, version: nat, i: nat) returns (status: RegisterStatus)
      requires EntriesOk(entries) && m.HasTypes() && i < m.typeCount
      ensures status == TypeFault(entries, m, version, i)
    {
      var types := m.types.value;
      var j := 0;
      while j < i
        invariant j <= i && forall k :: 0 <= k < j ==> types[k].typeId != types[i].typeId
      {
        if types[j].typeId == types[i].typeId { return DuplicateType; }
        j := j + 1;
      }
      if !Aligned(types[i].align) { return InvalidModule; }
      var existing := FindType(types[i].typeId, version);
      if existing.Some? {
        OneEntry(entries, types[i].typeId, version, existing.value, m.canonicalLayouts.value[i]);
        if !SameLayout(existing.value.layout, m.canonicalLayouts.value[i]) { return LayoutConflict; }
      }
      return RegisterOk;
    }

    /** The last two loops of the check: every type the module refers to. */
    method CheckRefs(m: ModuleDescriptor) returns (known: bool)
      ensures known <==> RefsKnown(entries, m)
    {
      var types, functions := m.Types(), m.functions.Items();
      var i := 0;
      while i < |types|
        invariant i <= |types| && forall k :: 0 <= k < i ==> TypeRefsKnown(entries, m, types[k])
      {
        var fs := types[i].fields.Items();
        var j := 0;
        while j < |fs|
          invariant j <= |fs| && forall k :: 0 <= k < j ==> Known(entries, m, fs[k].typeId)
        {
          known := KnownType(m, fs[j].typeId);
          if !known { return; }
          j := j + 1;
        }
        i := i + 1;
      }
      i := 0;
      while i < |functions|
        invariant i <= |functions| && forall k :: 0 <= k < i ==> FunctionRefsKnown(entries, m, functions[k])
      {
        known := KnownType(m, functions[i].returnType);
        if !known { return; }
        var ps := functions[i].parameters.Items();
        var j := 0;
        while j < |ps|
          invariant j <= |ps| && forall k :: 0 <= k < j ==> Known(entries, m, ps[k])
        {
          known := KnownType(m, ps[j]);
          if !known { return; }
          j := j + 1;
        }
        i := i + 1;
      }
      return true;
    }

    /** `check_module`: a dry run that reports the first fault. */
    method CheckModule(m: ModuleDescriptor, version: nat) returns (status: RegisterStatus)
      requires EntriesOk(entries) && |entries| <= capacity && m.Sized()
      ensures status == CheckStatus(entries, capacity, m, version)
    {
      var ok := ValidModule(m);
      if !ok { return InvalidModule; }
      var newTypes;
      status, newTypes := CheckTypes(m, version);
      if status != RegisterOk { return; }
      if newTypes > capacity - |entries| { return CapacityExceeded; }
      var known := CheckRefs(m);
      if !known { return UnknownTypeReference; }
    }

    /** Registration is all or nothing: the dry run decides, and once it passes nothing can fail on the way. */
    method RegisterModule(m: ModuleDescriptor, version: nat) returns (status: RegisterStatus)
      requires Valid() && m.Sized()
      modifies this, canonical
      ensures Valid() && status == CheckStatus(old(entries), capacity, m, version)
      ensures status != RegisterOk ==>
        entries == old(entries) && canonical.entries == old(canonical.entries) && history == old(history)
      ensures status == RegisterOk ==>
        entries == old(entries) + Added(old(entries), m, version, m.typeCount) &&
          history == old(history) + [(m, version)]
      ensures (m, version) in old(history) ==>
        status == RegisterOk && entries == old(entries) && canonical.entries == old(canonical.entries)
    {
      ghost var es := entries;
      if (m, version) in history { ReRegisterIsNoOp(entries, capacity, m, version); }
      status := CheckModule(m, version);
      if status != RegisterOk { return; }
      CheckedModule(entries, capacity, m, version);
      AddTypes(m, version);
      ValidAfter(es, capacity, m, version, history);
      history := history + [(m, version)];
    }

    /** The writes of an accepted module. */
    method AddTypes(m: ModuleDescriptor, version: nat)
      requires Consistent() && m.Sized() && CheckStatus(entries, capacity, m, version) == RegisterOk
      modifies this`entries, canonical
      ensures Consistent() && entries == old(entries) + Added(old(entries), m, version, m.typeCount)
      ensures Added(old(entries), m, version, m.typeCount) == [] ==> canonical.entries == old(canonical.entries)
    {
      ghost var es := entries;
      CheckedModule(es, capacity, m, version);
      var i := 0;
      while i < m.typeCount
        invariant i <= m.typeCount && Consistent() && entries == es + Added(es, m, version, i)
        invariant Added(es, m, version, i) == [] ==> canonical.entries == old(canonical.entries)
      {
        AddedMonotone(es, m, version, i + 1);
        AddNext(es, m, version, i);
        i := i + 1;
      }
    }

    /** One turn of the loop: a type that is there already is shared. */
    method AddNext(ghost es: seq<RegistryEntry>, m: ModuleDescriptor, version: nat, i: nat)
      requires Consistent() && m.Sized() && ModuleFits(m) && i < m.typeCount && Aligned(m.types.value[i].align)
      requires DistinctTypes(m) && entries == es + Added(es, m, version, i)
      requires |es| + |Added(es, m, version, i + 1)| <= capacity
      modifies this`entries, canonical
      ensures Consistent() && entries == es + Added(es, m, version, i + 1)
      ensures Added(es, m, version, i + 1) == Added(es, m, version, i) ==> canonical.entries == old(canonical.entries)
    {
      NotAddedYet(es, m, version, i);
      var found := FindType(m.types.value[i].typeId, version);
      if found.None? { AddType(m, version, i); }
    }

    /** One new type: its canonical record unless the type has one from another version, then its own entry. */
    method AddType(m: ModuleDescriptor, version: nat, i: nat)
      requires Consistent() && m.Sized() && ModuleFits(m) && i < m.typeCount && Aligned(m.types.value[i].align)
      requires !HasType(entries, m.types.value[i].typeId, version) && |entries| < capacity
      modifies this`entries, canonical
      ensures Consistent() && entries == old(entries) + [EntryOf(m, version, i)]
    {
      var e := EntryOf(m, version, i);
      EntriesGrow(entries, e);
      assert TypeFits(m.types.value[i], m.canonicalTypes.value[i], m.canonicalLayouts.value[i]);
      ghost var cs := canonical.entries;
      var known := canonical.FindById(e.descriptor.typeId);
      if known.None? {
        PowerOfTwoExactly(e.layout.align);
        var r := canonical.RegisterType(Some(e.canonical), Some(e.layout));
        assert r == CanonicalOk;
        assert canonical.entries[|cs|].desc.id == e.descriptor.typeId;
      }
      CanonicalGrows(entries, e, cs, canonical.entries);
      entries := entries + [e];
    }

    /** Every entry still resolves to the record it was validated with, in every reachable state. */
    method Validate() returns (status: RegisterStatus)
      ensures status == RegisterOk <==> forall i :: 0 <= i < |entries| ==> StillSound(entries[i], canonical.entries)
      ensures status == RegisterOk ==>
        forall e :: e in entries ==>
          && (exists c :: c in canonical.entries && c.desc.id == e.descriptor.typeId)
          && e.canonical == TypeDesc(e.descriptor.typeId)
          && e.layout == TypeLayout(e.descriptor.size, e.descriptor.align, e.descriptor.layoutHash)
      ensures status == InvalidModule ==>
        exists e :: e in entries &&
          ((forall c :: c in canonical.entries ==> c.desc.id != e.descriptor.typeId) ||
           e.canonical.id != e.descriptor.typeId)
      ensures status == LayoutConflict ==>
        exists e :: e in entries &&
          e.layout != TypeLayout(e.descriptor.size, e.descriptor.align, e.descriptor.layoutHash)
      ensures status in {RegisterOk, InvalidModule, LayoutConflict}
      ensures Valid() ==> status == RegisterOk
    {
      var i := 0;
      while i < |entries|
        invariant i <= |entries| && forall j :: 0 <= j < i ==> StillSound(entries[j], canonical.entries)
      {
        var e := entries[i];
        var known := canonical.FindById(e.descriptor.typeId);
        if known.None? { return InvalidModule; }
        if e.canonical.id != e.descriptor.typeId { return InvalidModule; }
        if e.descriptor.layoutHash != e.layout.layoutHash || e.descriptor.size != e.layout.size ||
          e.descriptor.align != e.layout.align {
          return LayoutConflict;
        }
        i := i + 1;
      }
      return RegisterOk;
    }
  }

  predicate StillSound(e: RegistryEntry, cs: seq<CanonicalEntry>) {
    && HasCanonical(cs, e.descriptor.typeId) && e.canonical.id == e.descriptor.typeId
    && e.descriptor.layoutHash == e.layout.layoutHash && e.descriptor.size == e.layout.size &&
      e.descriptor.align == e.layout.align
  }

  /** The entry for a type and version is unique, so its layout speaks for all. */
  lemma OneEntry(es: seq<RegistryEntry>, id: nat, version: nat, e: RegistryEntry, layout: TypeLayout)
    requires EntriesOk(es) && e in es && IsEntry(e, id, version)
    ensures SameLayout(e.layout, layout) <==> LayoutAgrees(es, id, version, layout)
  {
    var k :| 0 <= k < |es| && es[k] == e;
    forall j | 0 <= j < |es| && IsEntry(es[j], id, version) ensures j == k {
      assert IsEntry(es[k], es[j].descriptor.typeId, es[j].version) &&
        IsEntry(es[j], es[k].descriptor.typeId, es[k].version);
    }
  }

  lemma CanonicalGrows(es: seq<RegistryEntry>, e: RegistryEntry, cs: seq<CanonicalEntry>, cs': seq<CanonicalEntry>)
    requires AllCanonical(es, cs) && |cs| <= |cs'| && cs'[..|cs|] == cs && HasCanonical(cs', e.descriptor.typeId)
    ensures AllCanonical(es + [e], cs')
  {
    forall i | 0 <= i < |es| ensures HasCanonical(cs', es[i].descriptor.typeId) {
      assert HasCanonical(cs, es[i].descriptor.typeId);
      var k :| 0 <= k < |cs| && cs[k].desc.id == es[i].descriptor.typeId;
      assert cs'[k] == cs[k];
    }
  }

  lemma {:induction false} AddedMonotone(es: seq<RegistryEntry>, m: ModuleDescriptor, version: nat, n: nat)
    requires n <= m.typeCount && m.HasTypes()
    ensures |Added(es, m, version, n)| <= |Added(es, m, version, m.typeCount)|
    decreases m.typeCount - n
  {
    if n < m.typeCount { AddedMonotone(es, m, version, n + 1); }
  }

  /** After the writes, references resolve and every accepted module is still accepted. */
  lemma ValidAfter(es: seq<RegistryEntry>, capacity: nat, m: ModuleDescriptor, version: nat,
      history: seq<(ModuleDescriptor, nat)>)
    requires m.Sized() && CheckStatus(es, capacity, m, version) == RegisterOk &&
      EntriesOk(es + Added(es, m, version, m.typeCount))
    requires FieldsResolve(es, es) && forall k :: 0 <= k < |history| ==> Accepted(es, history[k].0, history[k].1)
    ensures var es' := es + Added(es, m, version, m.typeCount);
      && FieldsResolve(es', es') && Accepted(es', m, version)
      && forall k :: 0 <= k < |history| ==> Accepted(es', history[k].0, history[k].1)
  {
    var added := Added(es, m, version, m.typeCount);
    RegisteredIsAccepted(es, capacity, m, version);
    forall k | 0 <= k < |history| ensures Accepted(es + added, history[k].0, history[k].1) {
      AcceptedGrows(es, added, history[k].0, history[k].1);
    }
    AddedResolve(es, m, version);
  }

  /** The fields of old and new entries resolve in the grown registry. */
  lemma AddedResolve(es: seq<RegistryEntry>, m: ModuleDescriptor, version: nat)
    requires m.typeCount == 0 || m.HasTypes()
    requires FieldsResolve(es, es) && Accepted(es + Added(es, m, version, m.typeCount), m, version)
    ensures FieldsResolve(es + Added(es, m, version, m.typeCount), es + Added(es, m, version, m.typeCount))
  {
    var added := Added(es, m, version, m.typeCount);
    var all := es + added;
    forall i, j | 0 <= i < |all| && 0 <= j < |all[i].descriptor.fields.Items()|
      ensures HasId(all, all[i].descriptor.fields.Items()[j].typeId)
    {
      var id := all[i].descriptor.fields.Items()[j].typeId;
      if i < |es| {
        assert HasId(es, es[i].descriptor.fields.Items()[j].typeId);
        HasIdGrows(es, added, id);
      } else {
        var k := AddedEntries(es, m, version, m.typeCount, i - |es|);
        assert TypeRefsKnown(all, m, m.Types()[k]);
        KnownResolves(all, m, version, id);
      }
    }
  }

  lemma KnownResolves(es: seq<RegistryEntry>, m: ModuleDescriptor, version: nat, id: nat)
    requires Accepted(es, m, version) && Known(es, m, id)
    ensures HasId(es, id)
  {
    if i :| 0 <= i < |m.Types()| && m.Types()[i].typeId == id {
      assert HasType(es, m.types.value[i].typeId, version);
      var k :| 0 <= k < |es| && IsEntry(es[k], id, version);
      assert es[k].descriptor.typeId == id;
    }
  }
}
