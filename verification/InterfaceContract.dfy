/** Interface contracts and module manifests (Interface/Contract.h, Interface/Module.h). Identities, signatures
    and adapter addresses are opaque numbers in which 0 is the null value.
 */
module InterfaceContract {
  import opened Options

  /** A pointer and a count: a null pointer may come with any count, another one points at that many items. */
  datatype Listed<+T> = Null(claimed: nat) | Listed(given: seq<T>) {
    function Count(): nat { if Null? then claimed else |given| }
    /** A non-zero count needs a pointer. */
    predicate WellFormed() { Null? ==> claimed == 0 }
    function Items(): seq<T> { if Null? then [] else given }
  }

  datatype InterfaceMethod = InterfaceMethod(signature: nat, entry: nat, slot: nat)

  datatype ManifestEntry = ManifestEntry(interfaceId: nat, version: nat, methods: Listed<InterfaceMethod>)

  datatype Manifest = Manifest(manifestVersion: nat, interfaces: Listed<ManifestEntry>)

  datatype ManifestStatus =
    | ManifestOk | NullManifest | UnsupportedVersion | InvalidInterface | InvalidBinding | TooManyInterfaces
      | TooManyMethods

  const MANIFEST_VERSION: nat := 1
  const MAX_INTERFACES: nat := 4096
  const MAX_METHODS: nat := 65536

  predicate DistinctSlots(ms: seq<InterfaceMethod>) {
    forall i, j :: 0 <= i < j < |ms| ==> ms[i].slot != ms[j].slot
  }

  /** What is wrong with an entry, in the order in which it is looked at. */
  function EntryFault(e: ManifestEntry): ManifestStatus {
    if e.interfaceId == 0 then InvalidInterface
    else if e.methods.Count() > MAX_METHODS then TooManyMethods
    else if !e.methods.WellFormed() then InvalidInterface
    else if !DistinctSlots(e.methods.Items()) then InvalidBinding
    else ManifestOk
  }

  /** What is wrong with the manifest as a whole. */
  function HeaderFault(m: Option<Manifest>): ManifestStatus {
    if m.None? then NullManifest
    else if m.value.manifestVersion != MANIFEST_VERSION then UnsupportedVersion
    else if m.value.interfaces.Count() > MAX_INTERFACES then TooManyInterfaces
    else if !m.value.interfaces.WellFormed() then InvalidInterface
    else ManifestOk
  }

  /** A manifest that may be registered. */
  predicate ManifestFits(m: Manifest) {
    HeaderFault(Some(m)) == ManifestOk &&
    forall i :: 0 <= i < |m.interfaces.Items()| ==> EntryFault(m.interfaces.Items()[i]) == ManifestOk
  }

  /** A null pointer with a count above zero. */
  ghost predicate Dangling<T>(l: Listed<T>) { l.Null? && l.claimed > 0 }

  /** Accepts exactly the manifests of version 1 with at most 4096 interfaces, each with an identity and at most 65536
      methods in different slots; otherwise reports the first fault. */
  method ValidateManifest(m: Option<Manifest>) returns (status: ManifestStatus)
    ensures status == ManifestOk <==> m.Some? && ManifestFits(m.value)
    ensures status == ManifestOk <==>
      && m.Some? && m.value.manifestVersion == 1 && m.value.interfaces.Count() <= 4096 && !Dangling(m.value.interfaces)
      && forall e :: e in m.value.interfaces.Items() ==>
           && e.interfaceId > 0 && e.methods.Count() <= 65536 && !Dangling(e.methods)
           && forall i, j :: 0 <= i < j < |e.methods.Items()| ==> e.methods.Items()[i].slot != e.methods.Items()[j].slot
    ensures status == NullManifest <==> m == None
    ensures status == UnsupportedVersion <==> m.Some? && m.value.manifestVersion != 1
    ensures status == TooManyInterfaces <==>
      m.Some? && m.value.manifestVersion == 1 && m.value.interfaces.Count() > 4096
    ensures HeaderFault(m) != ManifestOk ==> status == HeaderFault(m)
    ensures HeaderFault(m) == ManifestOk && status != ManifestOk ==>
      exists i :: 0 <= i < |m.value.interfaces.Items()| && status == EntryFault(m.value.interfaces.Items()[i]) &&
        forall j :: 0 <= j < i ==> EntryFault(m.value.interfaces.Items()[j]) == ManifestOk
  {
    if m.None? { return NullManifest; }
    var manifest := m.value;
    if manifest.manifestVersion != MANIFEST_VERSION { return UnsupportedVersion; }
    if manifest.interfaces.Count() > MAX_INTERFACES { return TooManyInterfaces; }
    if manifest.interfaces.Count() != 0 && manifest.interfaces.Null? { return InvalidInterface; }
    var entries := manifest.interfaces.Items();
    var i := 0;
    while i < |entries|
      invariant i <= |entries| && forall j :: 0 <= j < i ==> EntryFault(entries[j]) == ManifestOk
    {
      status := ValidateEntry(entries[i]);
      if status != ManifestOk { return; }
      i := i + 1;
    }
    return ManifestOk;
  }

  method ValidateEntry(e: ManifestEntry) returns (status: ManifestStatus)
    ensures status == EntryFault(e)
    ensures status == TooManyMethods <==> e.interfaceId > 0 && e.methods.Count() > 65536
    ensures status == InvalidInterface <==> e.interfaceId == 0 || (e.methods.Null? && 1 <= e.methods.claimed <= 65536)
    ensures status == InvalidBinding ==>
      exists i, j :: 0 <= i < j < |e.methods.Items()| && e.methods.Items()[i].slot == e.methods.Items()[j].slot
    ensures status in {ManifestOk, TooManyMethods, InvalidInterface, InvalidBinding}
  {
    if e.interfaceId == 0 { return InvalidInterface; }
    if e.methods.Count() > MAX_METHODS { return TooManyMethods; }
    if e.methods.Count() != 0 && e.methods.Null? { return InvalidInterface; }
    var ms := e.methods.Items();
    var k := 0;
    while k < |ms|
      invariant k <= |ms| && DistinctSlots(ms[..k])
    {
      var slot := ms[k].slot;
      var previous := 0;
      while previous < k
        invariant previous <= k && forall j :: 0 <= j < previous ==> ms[j].slot != slot
      {
        if ms[previous].slot == slot { return InvalidBinding; }
        previous := previous + 1;
      }
      k := k + 1;
    }
    assert ms[..k] == ms;
    return ManifestOk;
  }
}
