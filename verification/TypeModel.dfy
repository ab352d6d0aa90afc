/** Module descriptors (Metadata/Descriptor.h) and the rules for admitting one to the versioned type registry
    (Runtime/Registry.h). Type identities and hashes are opaque numbers in which 0 is the zero hash.
 */
module TypeModel {
  import opened Options
  import opened InterfaceContract
  import opened Bits

  datatype Field = Field(typeId: nat, offset: nat)

  datatype TypeDescriptor = TypeDescriptor(fields: Listed<Field>, typeId: nat, layoutHash: nat, size: nat, align: nat)

  datatype TypeDesc = TypeDesc(id: nat)

  datatype TypeLayout = TypeLayout(size: nat, align: nat, layoutHash: nat)

  datatype FunctionDescriptor = FunctionDescriptor(parameters: Listed<nat>, returnType: nat)

  /** The three type arrays share one count; each pointer may be null. */
  datatype ModuleDescriptor = ModuleDescriptor(
    name: Option<string>,
    version: Option<string>,
    typeCount: nat,
    types: Option<seq<TypeDescriptor>>,
    canonicalTypes: Option<seq<TypeDesc>>,
    canonicalLayouts: Option<seq<TypeLayout>>,
    functions: Listed<FunctionDescriptor>,
    symbols: Listed<nat>)
  {
    /** A non-null array has as many items as the count says. */
    predicate Sized() {
      && (types.Some? ==> |types.value| == typeCount)
      && (canonicalTypes.Some? ==> |canonicalTypes.value| == typeCount)
      && (canonicalLayouts.Some? ==> |canonicalLayouts.value| == typeCount)
    }
    predicate HasTypes() { Sized() && types.Some? && canonicalTypes.Some? && canonicalLayouts.Some? }
    function Types(): seq<TypeDescriptor> { if types.Some? then types.value else [] }
  }

  /** One type of the module is described consistently. */
  predicate TypeFits(type_: TypeDescriptor, desc: TypeDesc, layout: TypeLayout) {
    && type_.typeId == desc.id
    && type_.size == layout.size && type_.align == layout.align && type_.layoutHash == layout.layoutHash
    && type_.typeId != 0 && type_.size != 0 && type_.align != 0
    && type_.fields.WellFormed()
    && forall j :: 0 <= j < |type_.fields.Items()| ==>
      type_.fields.Items()[j].typeId != 0 && type_.fields.Items()[j].offset <= type_.size
  }

  predicate FunctionFits(f: FunctionDescriptor) { f.returnType != 0 && f.parameters.WellFormed() }

  /** What `valid` demands of a module descriptor. */
  predicate ModuleFits(m: ModuleDescriptor)
    requires m.Sized()
  {
    && m.name.Some? && m.version.Some?
    && (m.typeCount != 0 ==> m.HasTypes())
    && m.functions.WellFormed() && m.symbols.WellFormed()
    && (forall i :: 0 <= i < m.typeCount ==>
      TypeFits(m.types.value[i], m.canonicalTypes.value[i], m.canonicalLayouts.value[i]))
    && (forall i :: 0 <= i < |m.functions.Items()| ==> FunctionFits(m.functions.Items()[i]))
  }

  method ValidModule(m: ModuleDescriptor) returns (ok: bool)
    requires m.Sized()
    ensures ok <==> ModuleFits(m)
  {
    if m.name.None? || m.version.None? { return false; }
    if (m.typeCount != 0 && (m.types.None? || m.canonicalTypes.None? || m.canonicalLayouts.None?))
      || (m.functions.Count() != 0 && m.functions.Null?) || (m.symbols.Count() != 0 && m.symbols.Null?) {
        return false;
      }
    var i := 0;
    while i < m.typeCount
      invariant i <= m.typeCount
      invariant forall k :: 0 <= k < i ==>
        TypeFits(m.types.value[k], m.canonicalTypes.value[k], m.canonicalLayouts.value[k])
    {
      var fits := ValidType(m.types.value[i], m.canonicalTypes.value[i], m.canonicalLayouts.value[i]);
      if !fits { return false; }
      i := i + 1;
    }
    var fs := m.functions.Items();
    i := 0;
    while i < |fs|
      invariant i <= |fs| && forall k :: 0 <= k < i ==> FunctionFits(fs[k])
    {
      if fs[i].returnType == 0 || (fs[i].parameters.Count() != 0 && fs[i].parameters.Null?) { return false; }
      i := i + 1;
    }
    return true;
  }

  method ValidType(type_: TypeDescriptor, desc: TypeDesc, layout: TypeLayout) returns (ok: bool)
    ensures ok <==> TypeFits(type_, desc, layout)
  {
    if type_.typeId != desc.id { return false; }
    if type_.size != layout.size || type_.align != layout.align || type_.layoutHash != layout.layoutHash {
      return false;
    }
    if type_.typeId == 0 || type_.size == 0 || type_.align == 0 { return false; }
    if type_.fields.Count() != 0 && type_.fields.Null? { return false; }
    var fs := type_.fields.Items();
    var j := 0;
    while j < |fs|
      invariant j <= |fs| && forall k :: 0 <= k < j ==> fs[k].typeId != 0 && fs[k].offset <= type_.size
    {
      if fs[j].typeId == 0 || fs[j].offset > type_.size { return false; }
      j := j + 1;
    }
    return true;
  }

  // ----- alignment

  /** `align & (align - 1)` is zero, and `align` is not. */
  predicate Aligned(align: nat) { align != 0 && And(align, align - 1) == 0 }

  lemma {:induction false} AndSelf(x: nat)
    ensures And(x, x) == x
  {
    if x != 0 { AndSelf(x / 2); }
  }

  /** The alignments that pass are exactly the powers of two. */
  lemma {:induction false} AlignedExactlyPowersOfTwo(x: nat)
    ensures Aligned(x) <==> exists k: nat :: x == Pow2(k)
  {
    if x == 1 {
      assert x == Pow2(0);
    } else if x >= 2 && x % 2 == 1 {
      assert And(x, x - 1) == 2 * And(x / 2, (x - 1) / 2);
      assert (x - 1) / 2 == x / 2;
      AndSelf(x / 2);
      forall k: nat ensures x != Pow2(k) { if k > 0 { assert Pow2(k) % 2 == 0; } }
    } else if x >= 2 {
      assert And(x, x - 1) == 2 * And(x / 2, (x - 1) / 2);
      assert (x - 1) / 2 == x / 2 - 1;
      assert Aligned(x) <==> Aligned(x / 2);
      AlignedExactlyPowersOfTwo(x / 2);
      if Aligned(x) {
        var k: nat :| x / 2 == Pow2(k);
        assert x == Pow2(k + 1);
      }
      if k: nat :| x == Pow2(k) { assert x / 2 == Pow2(k - 1); }
    }
  }

  ghost predicate PowerOfTwo(x: nat) { exists k: nat :: x == Pow2(k) }

  lemma PowerOfTwoExactly(x: nat)
    ensures PowerOfTwo(x) <==> Aligned(x)
  {
    AlignedExactlyPowersOfTwo(x);
    if PowerOfTwo(x) {
      var k: nat :| x == Pow2(k);
      assert exists j: nat :: x == Pow2(j);
    }
  }

  // ----- registry entries as values

  datatype RegistryEntry = RegistryEntry(descriptor: TypeDescriptor, canonical: TypeDesc, layout: TypeLayout,
      version: nat)

  datatype RegisterStatus = RegisterOk | InvalidModule | DuplicateType | CapacityExceeded | UnknownTypeReference
      | LayoutConflict

  predicate IsEntry(e: RegistryEntry, id: nat, version: nat) { e.descriptor.typeId == id && e.version == version }

  predicate HasType(es: seq<RegistryEntry>, id: nat, version: nat) {
    exists i :: 0 <= i < |es| && IsEntry(es[i], id, version)
  }

  predicate HasId(es: seq<RegistryEntry>, id: nat) { exists i :: 0 <= i < |es| && es[i].descriptor.typeId == id }

  /** Size, alignment and layout hash are all there is to a layout. */
  predicate SameLayout(a: TypeLayout, b: TypeLayout): (same: bool)
    ensures same <==> a == b
  {
    a.size == b.size && a.align == b.align && a.layoutHash == b.layoutHash
  }

  /** Everything registered for that type and version has that layout. */
  predicate LayoutAgrees(es: seq<RegistryEntry>, id: nat, version: nat, layout: TypeLayout) {
    forall i :: 0 <= i < |es| && IsEntry(es[i], id, version) ==> SameLayout(es[i].layout, layout)
  }

  function EntryOf(m: ModuleDescriptor, version: nat, i: nat): RegistryEntry
    requires m.HasTypes() && i < m.typeCount
  {
    RegistryEntry(m.types.value[i], m.canonicalTypes.value[i], m.canonicalLayouts.value[i], version)
  }

  /** The entries a module adds: its types that are not there for this version yet, in order. */
  function Added(es: seq<RegistryEntry>, m: ModuleDescriptor, version: nat, n: nat): (added: seq<RegistryEntry>)
    requires n <= m.typeCount && (n == 0 || m.HasTypes())
    ensures |added| <= n
  {
    if n == 0 then []
    else if HasType(es, m.types.value[n - 1].typeId, version) then Added(es, m, version, n - 1)
    else Added(es, m, version, n - 1) + [EntryOf(m, version, n - 1)]
  }

  /** What is wrong with the `i`-th type of a module, in the order in which it is looked at. */
  function TypeFault(es: seq<RegistryEntry>, m: ModuleDescriptor, version: nat, i: nat): RegisterStatus
    requires m.HasTypes() && i < m.typeCount
  {
    if exists j :: 0 <= j < i && m.types.value[j].typeId == m.types.value[i].typeId then DuplicateType
    else if !Aligned(m.types.value[i].align) then InvalidModule
    else if !LayoutAgrees(es, m.types.value[i].typeId, version, m.canonicalLayouts.value[i]) then LayoutConflict
    else RegisterOk
  }

  function FirstTypeFault(es: seq<RegistryEntry>, m: ModuleDescriptor, version: nat, i: nat): RegisterStatus
    requires i <= m.typeCount && (i == m.typeCount || m.HasTypes())
    decreases m.typeCount - i
  {
    if i == m.typeCount then RegisterOk
    else if TypeFault(es, m, version, i) != RegisterOk then TypeFault(es, m, version, i)
    else FirstTypeFault(es, m, version, i + 1)
  }

  predicate Known(es: seq<RegistryEntry>, m: ModuleDescriptor, id: nat) {
    HasId(es, id) || exists i :: 0 <= i < |m.Types()| && m.Types()[i].typeId == id
  }

  predicate TypeRefsKnown(es: seq<RegistryEntry>, m: ModuleDescriptor, t: TypeDescriptor) {
    forall j :: 0 <= j < |t.fields.Items()| ==> Known(es, m, t.fields.Items()[j].typeId)
  }

  predicate FunctionRefsKnown(es: seq<RegistryEntry>, m: ModuleDescriptor, f: FunctionDescriptor) {
    Known(es, m, f.returnType) && forall j :: 0 <= j < |f.parameters.Items()| ==> Known(es, m, f.parameters.Items()[j])
  }

  predicate RefsKnown(es: seq<RegistryEntry>, m: ModuleDescriptor) {
    && (forall i :: 0 <= i < |m.Types()| ==> TypeRefsKnown(es, m, m.Types()[i]))
    && (forall i :: 0 <= i < |m.functions.Items()| ==> FunctionRefsKnown(es, m, m.functions.Items()[i]))
  }

  /** The status of checking a module against a registry of that capacity. */
  function CheckStatus(es: seq<RegistryEntry>, capacity: nat, m: ModuleDescriptor, version: nat): RegisterStatus
    requires m.Sized()
  {
    if !ModuleFits(m) then InvalidModule
    else if FirstTypeFault(es, m, version, 0) != RegisterOk then FirstTypeFault(es, m, version, 0)
    else if |es| + |Added(es, m, version, m.typeCount)| > capacity then CapacityExceeded
    else if !RefsKnown(es, m) then UnknownTypeReference
    else RegisterOk
  }

  lemma {:induction false} FirstTypeFaultOk(es: seq<RegistryEntry>, m: ModuleDescriptor, version: nat, i: nat)
    requires i <= m.typeCount && (i == m.typeCount || m.HasTypes())
    ensures FirstTypeFault(es, m, version, i) == RegisterOk <==>
      forall k :: i <= k < m.typeCount ==> TypeFault(es, m, version, k) == RegisterOk
    decreases m.typeCount - i
  {
    if i < m.typeCount { FirstTypeFaultOk(es, m, version, i + 1); }
  }
}
