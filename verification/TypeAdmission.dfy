/** What the check of a module amounts to, said without its loops and tests: which descriptors are sound, which types
    are new, which references resolve, and which of several faults is the one reported.
 */
module TypeAdmission {
  import opened Options
  import opened InterfaceContract
  import opened TypeModel
  import opened TypeRegistry

  /** The three records of one type say the same, and nothing in them is zero or out of bounds. */
  ghost predicate SoundType(t: TypeDescriptor, desc: TypeDesc, layout: TypeLayout) {
    && desc == TypeDesc(t.typeId) && layout == TypeLayout(t.size, t.align, t.layoutHash)
    && t.typeId > 0 && t.size > 0 && t.align > 0
    && !Dangling(t.fields)
    && (t.fields.Listed? ==> forall f :: f in t.fields.given ==> f.typeId > 0 && f.offset <= t.size)
  }

  ghost predicate SoundModule(m: ModuleDescriptor)
    requires m.Sized()
  {
    && m.name != None && m.version != None
    && (m.typeCount > 0 ==> m.types != None && m.canonicalTypes != None && m.canonicalLayouts != None)
    && !Dangling(m.functions) && !Dangling(m.symbols)
    && (forall i :: 0 <= i < m.typeCount ==>
          SoundType(m.types.value[i], m.canonicalTypes.value[i], m.canonicalLayouts.value[i]))
    && (m.functions.Listed? ==> forall f :: f in m.functions.given ==> f.returnType > 0 && !Dangling(f.parameters))
  }

  lemma TypeFitsExactly(t: TypeDescriptor, desc: TypeDesc, layout: TypeLayout)
    ensures TypeFits(t, desc, layout) <==> SoundType(t, desc, layout)
  {
    if TypeFits(t, desc, layout) && t.fields.Listed? {
      forall f | f in t.fields.given ensures f.typeId > 0 && f.offset <= t.size {
        var j :| 0 <= j < |t.fields.Items()| && t.fields.Items()[j] == f;
      }
    }
  }

  lemma FunctionsFitExactly(fs: seq<FunctionDescriptor>)
    ensures (forall i :: 0 <= i < |fs| ==> FunctionFits(fs[i])) <==>
      forall f :: f in fs ==> f.returnType > 0 && !Dangling(f.parameters)
  {
    assert forall f :: FunctionFits(f) <==> f.returnType > 0 && !Dangling(f.parameters);
    if forall i :: 0 <= i < |fs| ==> FunctionFits(fs[i]) {
      forall f | f in fs ensures FunctionFits(f) { var i :| 0 <= i < |fs| && fs[i] == f; }
    }
  }

  /** `valid` accepts exactly the sound descriptors. */
  lemma ModuleFitsExactly(m: ModuleDescriptor)
    requires m.Sized()
    ensures ModuleFits(m) <==> SoundModule(m)
  {
    if m.typeCount == 0 || m.HasTypes() {
      forall i | 0 <= i < m.typeCount
        ensures TypeFits(m.types.value[i], m.canonicalTypes.value[i], m.canonicalLayouts.value[i]) <==>
          SoundType(m.types.value[i], m.canonicalTypes.value[i], m.canonicalLayouts.value[i])
      {
        TypeFitsExactly(m.types.value[i], m.canonicalTypes.value[i], m.canonicalLayouts.value[i]);
      }
      FunctionsFitExactly(m.functions.Items());
    }
  }

  // ----- faults of one type

  ghost predicate Repeats(m: ModuleDescriptor, i: nat)
    requires m.HasTypes() && i < m.typeCount
  {
    m.types.value[i].typeId in set j | 0 <= j < i :: m.types.value[j].typeId
  }

  ghost predicate Conflicts(es: seq<RegistryEntry>, m: ModuleDescriptor, version: nat, i: nat)
    requires m.HasTypes() && i < m.typeCount
  {
    exists e :: e in es && e.descriptor.typeId == m.types.value[i].typeId && e.version == version &&
      e.layout != m.canonicalLayouts.value[i]
  }

  ghost predicate Faulty(es: seq<RegistryEntry>, m: ModuleDescriptor, version: nat, i: nat)
    requires m.HasTypes() && i < m.typeCount
  {
    Repeats(m, i) || !PowerOfTwo(m.types.value[i].align) || Conflicts(es, m, version, i)
  }

  lemma ConflictsExactly(es: seq<RegistryEntry>, m: ModuleDescriptor, version: nat, i: nat)
    requires m.HasTypes() && i < m.typeCount
    ensures Conflicts(es, m, version, i) <==>
      !LayoutAgrees(es, m.types.value[i].typeId, version, m.canonicalLayouts.value[i])
  {
    if Conflicts(es, m, version, i) {
      var e :| e in es && e.descriptor.typeId == m.types.value[i].typeId && e.version == version &&
        e.layout != m.canonicalLayouts.value[i];
      var k :| 0 <= k < |es| && es[k] == e;
      assert IsEntry(es[k], m.types.value[i].typeId, version);
    }
  }

  /** A repeated type is reported before a bad alignment, and that before a conflict. */
  lemma TypeFaultExactly(es: seq<RegistryEntry>, m: ModuleDescriptor, version: nat, i: nat)
    requires m.HasTypes() && i < m.typeCount
    ensures TypeFault(es, m, version, i) ==
      if Repeats(m, i) then DuplicateType
      else if !PowerOfTwo(m.types.value[i].align) then InvalidModule
      else if Conflicts(es, m, version, i) then LayoutConflict
      else RegisterOk
  {
    PowerOfTwoExactly(m.types.value[i].align);
    ConflictsExactly(es, m, version, i);
    if j :| 0 <= j < i && m.types.value[j].typeId == m.types.value[i].typeId { assert Repeats(m, i); }
  }

  /** The first faulty type decides. */
  lemma {:induction false} FirstFaultDecides(es: seq<RegistryEntry>, m: ModuleDescriptor, version: nat, from: nat,
      i: nat)
    requires m.HasTypes() && from <= i < m.typeCount && Faulty(es, m, version, i)
    requires forall k :: from <= k < i ==> !Faulty(es, m, version, k)
    ensures FirstTypeFault(es, m, version, from) == TypeFault(es, m, version, i) != RegisterOk
    decreases i - from
  {
    TypeFaultExactly(es, m, version, from);
    assert from < i ==> !Faulty(es, m, version, from);
    if from < i { FirstFaultDecides(es, m, version, from + 1, i); }
  }

  lemma NoFault(es: seq<RegistryEntry>, m: ModuleDescriptor, version: nat)
    requires (m.typeCount == 0 || m.HasTypes()) && forall k :: 0 <= k < m.typeCount ==> !Faulty(es, m, version, k)
    ensures FirstTypeFault(es, m, version, 0) == RegisterOk
  {
    FirstTypeFaultOk(es, m, version, 0);
    forall k | 0 <= k < m.typeCount ensures TypeFault(es, m, version, k) == RegisterOk {
      TypeFaultExactly(es, m, version, k);
      assert !Faulty(es, m, version, k);
    }
  }

  // ----- what is new

  ghost predicate Registered(es: seq<RegistryEntry>, id: nat, version: nat) {
    exists e :: e in es && e.descriptor.typeId == id && e.version == version
  }

  lemma RegisteredExactly(es: seq<RegistryEntry>, id: nat, version: nat)
    ensures Registered(es, id, version) <==> HasType(es, id, version)
  {
    if HasType(es, id, version) {
      var i :| 0 <= i < |es| && IsEntry(es[i], id, version);
      assert es[i] in es;
    }
    if Registered(es, id, version) {
      var e :| e in es && e.descriptor.typeId == id && e.version == version;
      var i :| 0 <= i < |es| && es[i] == e;
      assert IsEntry(es[i], id, version);
    }
  }

  /** The positions of the module's types that the registry does not have under this version. */
  ghost function NewAt(es: seq<RegistryEntry>, m: ModuleDescriptor, version: nat, n: nat): set<nat>
    requires n <= m.typeCount && (n == 0 || m.HasTypes())
  {
    set i: nat | i < n && !Registered(es, m.types.value[i].typeId, version)
  }

  /** The entries added are those of the new types, one each. */
  lemma {:induction false} AddedExactly(es: seq<RegistryEntry>, m: ModuleDescriptor, version: nat, n: nat)
    requires n <= m.typeCount && (n == 0 || m.HasTypes())
    ensures |Added(es, m, version, n)| == |NewAt(es, m, version, n)|
    ensures forall e :: e in Added(es, m, version, n) <==>
      exists i ::
        i in NewAt(es, m, version, n) &&
        e == RegistryEntry(m.types.value[i], m.canonicalTypes.value[i], m.canonicalLayouts.value[i], version)
  {
    if n > 0 {
      AddedExactly(es, m, version, n - 1);
      var id := m.types.value[n - 1].typeId;
      RegisteredExactly(es, id, version);
      var before := NewAt(es, m, version, n - 1);
      assert n - 1 !in before;
      assert NewAt(es, m, version, n) == if Registered(es, id, version) then before else before + {n - 1};
    }
  }

  // ----- references

  ghost function IdsOf(es: seq<RegistryEntry>, m: ModuleDescriptor): set<nat> {
    (set e | e in es :: e.descriptor.typeId) + (set t | t in m.Types() :: t.typeId)
  }

  /** Every field, return and parameter type is one of the registry's or of the module's own. */
  ghost predicate Closed(es: seq<RegistryEntry>, m: ModuleDescriptor) {
    && (forall t, f :: t in m.Types() && f in t.fields.Items() ==> f.typeId in IdsOf(es, m))
    && (forall f :: f in m.functions.Items() ==> f.returnType in IdsOf(es, m))
    && (forall f, p :: f in m.functions.Items() && p in f.parameters.Items() ==> p in IdsOf(es, m))
  }

  lemma KnownExactly(es: seq<RegistryEntry>, m: ModuleDescriptor, id: nat)
    ensures Known(es, m, id) <==> id in IdsOf(es, m)
  {
    if HasId(es, id) {
      var i :| 0 <= i < |es| && es[i].descriptor.typeId == id;
      assert es[i] in es;
    }
    if i :| 0 <= i < |m.Types()| && m.Types()[i].typeId == id { assert m.Types()[i] in m.Types(); }
  }

  lemma RefsKnownExactly(es: seq<RegistryEntry>, m: ModuleDescriptor)
    ensures RefsKnown(es, m) <==> Closed(es, m)
  {
    forall id: nat ensures Known(es, m, id) <==> id in IdsOf(es, m) { KnownExactly(es, m, id); }
    if RefsKnown(es, m) { KnownAreClosed(es, m); }
    if Closed(es, m) {
      forall i | 0 <= i < |m.Types()| ensures TypeRefsKnown(es, m, m.Types()[i]) {}
      forall i | 0 <= i < |m.functions.Items()| ensures FunctionRefsKnown(es, m, m.functions.Items()[i]) {}
    }
  }

  lemma KnownAreClosed(es: seq<RegistryEntry>, m: ModuleDescriptor)
    requires RefsKnown(es, m) && forall id: nat :: Known(es, m, id) <==> id in IdsOf(es, m)
    ensures Closed(es, m)
  {
    forall t, f | t in m.Types() && f in t.fields.Items() ensures f.typeId in IdsOf(es, m) {
      var i :| 0 <= i < |m.Types()| && m.Types()[i] == t;
      var j :| 0 <= j < |t.fields.Items()| && t.fields.Items()[j] == f;
      assert TypeRefsKnown(es, m, m.Types()[i]);
    }
    forall f | f in m.functions.Items() ensures FunctionRefsKnown(es, m, f) {
      var i :| 0 <= i < |m.functions.Items()| && m.functions.Items()[i] == f;
    }
  }

  // ----- main result

  ghost predicate FirstFaulty(es: seq<RegistryEntry>, m: ModuleDescriptor, version: nat, i: nat)
    requires m.HasTypes() && i < m.typeCount
  {
    Faulty(es, m, version, i) && forall k :: 0 <= k < i ==> !Faulty(es, m, version, k)
  }

  /** The status of every module, sound or not, against every registry: an unsound one is invalid, otherwise the first
      faulty type decides, then the room for the new types, then the references. */
  lemma CheckStatusExactly(es: seq<RegistryEntry>, capacity: nat, m: ModuleDescriptor, version: nat)
    requires m.Sized()
    ensures !SoundModule(m) ==> CheckStatus(es, capacity, m, version) == InvalidModule
    ensures SoundModule(m) ==>
      forall i: nat :: i < m.typeCount && FirstFaulty(es, m, version, i) ==>
        CheckStatus(es, capacity, m, version) ==
          if Repeats(m, i) then DuplicateType
          else if !PowerOfTwo(m.types.value[i].align) then InvalidModule
          else LayoutConflict
    ensures SoundModule(m) && (forall i: nat :: i < m.typeCount ==> !Faulty(es, m, version, i)) ==>
      CheckStatus(es, capacity, m, version) ==
        if |es| + |NewAt(es, m, version, m.typeCount)| > capacity then CapacityExceeded
        else if !Closed(es, m) then UnknownTypeReference
        else RegisterOk
  {
    ModuleFitsExactly(m);
    if SoundModule(m) {
      forall i: nat | i < m.typeCount && FirstFaulty(es, m, version, i)
        ensures CheckStatus(es, capacity, m, version) == TypeFault(es, m, version, i)
        ensures Repeats(m, i) ==> TypeFault(es, m, version, i) == DuplicateType
        ensures !Repeats(m, i) ==>
          TypeFault(es, m, version, i) ==
            if PowerOfTwo(m.types.value[i].align) then LayoutConflict else InvalidModule
      {
        FirstFaultDecides(es, m, version, 0, i);
        TypeFaultExactly(es, m, version, i);
      }
      if forall i: nat :: i < m.typeCount ==> !Faulty(es, m, version, i) {
        NoFault(es, m, version);
        AddedExactly(es, m, version, m.typeCount);
        RefsKnownExactly(es, m);
      }
    }
  }
}
