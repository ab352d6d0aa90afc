/** The registry of discovered modules (Interface/ModuleRegistry.h): two fixed arrays that are compacted in
    place, kept equal to a plain list of registrations in the order in which they were made.
 */
module ModuleRegistry {
  import opened Options
  import opened InterfaceContract
  import opened Lease

  datatype ModuleStatus =
    | ModuleOk | AlreadyRegistered | InvalidManifest | InvalidState | CapacityExceeded
    | InterfaceCapacityExceeded | DuplicateInterface | NotRegistered | StillBusy

  /** The part of a module's control block that the registry uses; its lease count is behind `wait_for_idle`. */
  class ModuleControl {
    var id: nat
    var phase: ModuleState
    constructor ()
      ensures id == 0 && phase == Loading
    {
      id, phase := 0, Loading;
    }
  }

  datatype ModuleInterface = ModuleInterface(owner: nat, interfaceId: nat, version: nat,
      methods: Listed<InterfaceMethod>, control: ModuleControl?)

  datatype ModuleSlot = ModuleSlot(control: ModuleControl?, begin: int, count: int, used: bool)

  const FREE_SLOT: ModuleSlot := ModuleSlot(null, 0, 0, false)
  const NO_INTERFACE: ModuleInterface := ModuleInterface(0, 0, 0, Null(0), null)

  /** One accepted registration. */
  datatype Registration = Registration(control: ModuleControl, id: nat, bindings: seq<ModuleInterface>)

  /** The bindings a manifest entry list turns into. */
  function Bindings(es: seq<ManifestEntry>, control: ModuleControl, id: nat): (bs: seq<ModuleInterface>)
    ensures |bs| == |es|
    ensures forall i :: 0 <= i < |es| ==>
      bs[i] == ModuleInterface(id, es[i].interfaceId, es[i].version, es[i].methods, control)
  {
    seq(|es|, i requires 0 <= i < |es| => ModuleInterface(id, es[i].interfaceId, es[i].version, es[i].methods, control))
  }

  /** All bindings, in registration order. */
  function Flat(log: seq<Registration>): seq<ModuleInterface> {
    if log == [] then [] else Flat(log[..|log| - 1]) + log[|log| - 1].bindings
  }

  /** Where the bindings of the `k`-th registration begin. */
  function Offset(log: seq<Registration>, k: nat): nat
    requires k <= |log|
  {
    |Flat(log[..k])|
  }

  function Without<T>(xs: seq<T>, k: nat): (ys: seq<T>)
    requires k < |xs|
    ensures |ys| == |xs| - 1
    ensures forall j :: 0 <= j < |ys| ==> ys[j] == xs[if j < k then j else j + 1]
  {
    xs[..k] + xs[k + 1..]
  }

  lemma OffsetNext(log: seq<Registration>, k: nat)
    requires k < |log|
    ensures Offset(log, k + 1) == Offset(log, k) + |log[k].bindings|
  {
    assert log[..k + 1][..k] == log[..k];
  }

  lemma {:induction false} OffsetsGrow(log: seq<Registration>, j: nat, k: nat)
    requires j <= k <= |log|
    ensures Offset(log, j) <= Offset(log, k)
  {
    if j < k {
      OffsetNext(log, k - 1);
      OffsetsGrow(log, j, k - 1);
    }
  }

  lemma FlatLast(log: seq<Registration>)
    requires log != []
    ensures Flat(log) == Flat(log[..|log| - 1]) + log[|log| - 1].bindings
    ensures Offset(log, |log| - 1) + |log[|log| - 1].bindings| == |Flat(log)|
  {
  }

  /** What stands before and in the `k`-th registration. */
  lemma {:induction false} FlatPrefix(log: seq<Registration>, k: nat)
    requires k < |log|
    ensures Offset(log, k) <= Offset(log, k + 1) <= |Flat(log)|
    ensures Flat(log)[..Offset(log, k)] == Flat(log[..k]) &&
      Flat(log)[Offset(log, k)..Offset(log, k + 1)] == log[k].bindings
  {
    var n := |log| - 1;
    OffsetNext(log, k);
    FlatLast(log);
    if k == n {
      assert log[..k + 1] == log;
    } else {
      var front := log[..n];
      FlatPrefix(front, k);
      assert front[..k] == log[..k] && front[..k + 1] == log[..k + 1];
    }
  }

  /** The whole list splits into what stands before, in and after the `k`-th registration. */
  lemma {:induction false} FlatSplit(log: seq<Registration>, k: nat)
    requires k < |log|
    ensures Offset(log, k) <= Offset(log, k + 1) <= |Flat(log)|
    ensures Flat(log)[..Offset(log, k)] == Flat(log[..k]) &&
      Flat(log)[Offset(log, k)..Offset(log, k + 1)] == log[k].bindings
    ensures Flat(Without(log, k)) == Flat(log)[..Offset(log, k)] + Flat(log)[Offset(log, k + 1)..]
  {
    var n := |log| - 1;
    FlatPrefix(log, k);
    if k == n {
      assert log[..k + 1] == log;
      assert Without(log, k) == log[..k];
    } else {
      var front := log[..n];
      FlatSplit(front, k);
      FlatLast(log);
      assert front[..k] == log[..k] && front[..k + 1] == log[..k + 1];
      assert Without(log, k)[..n - 1] == Without(front, k);
      assert Without(log, k)[n - 1] == log[n];
    }
  }

  lemma OffsetsWithout(log: seq<Registration>, k: nat, j: nat)
    requires k < |log| && j < |log| - 1
    ensures Offset(Without(log, k), j) == if j <= k then Offset(log, j) else Offset(log, j + 1) - |log[k].bindings|
  {
    if j <= k {
      assert Without(log, k)[..j] == log[..j];
    } else {
      var front := log[..j + 1];
      assert Without(log, k)[..j] == Without(front, k);
      FlatSplit(front, k);
      OffsetNext(front, k);
    }
  }

  // ----- the slots

  ghost predicate SlotIs(slots: seq<ModuleSlot>, order: seq<nat>, log: seq<Registration>, k: nat)
    requires k < |log| == |order|
  {
    order[k] < |slots| && slots[order[k]] == ModuleSlot(log[k].control, Offset(log, k), |log[k].bindings|, true)
  }

  ghost predicate Distinct(order: seq<nat>) { forall j, k :: 0 <= j < k < |order| ==> order[j] != order[k] }

  /** The used slots, taken in the order `order`, tile the list of bindings in registration order. */
  ghost predicate Tiled(slots: seq<ModuleSlot>, order: seq<nat>, log: seq<Registration>) {
    && |order| == |log|
    && (forall k :: 0 <= k < |log| ==> SlotIs(slots, order, log, k))
    && Distinct(order)
    && (forall j :: 0 <= j < |slots| && slots[j].used ==> j in order)
  }

  /** Every binding belongs to its registration; instance numbers grow and controls differ. */
  ghost predicate Owned(log: seq<Registration>) {
    && (forall k, i :: 0 <= k < |log| && 0 <= i < |log[k].bindings| ==>
      log[k].bindings[i].control == log[k].control && log[k].bindings[i].owner == log[k].id)
    && (forall j, k :: 0 <= j < k < |log| ==> log[j].id < log[k].id && log[j].control != log[k].control)
    && (forall k :: 0 <= k < |log| ==> 0 < log[k].id)
  }

  /** A registration entered in a free slot, with its bindings behind all others, keeps the tiling. */
  lemma TiledAppend(slots: seq<ModuleSlot>, order: seq<nat>, log: seq<Registration>, at: nat, reg: Registration)
    requires Tiled(slots, order, log) && at < |slots| && !slots[at].used
    ensures Tiled(slots[at := ModuleSlot(reg.control, |Flat(log)|, |reg.bindings|, true)], order + [at], log + [reg])
    ensures Flat(log + [reg]) == Flat(log) + reg.bindings
  {
    var slots', order', log' := slots[at := ModuleSlot(reg.control, |Flat(log)|, |reg.bindings|, true)], order + [at],
      log + [reg];
    assert log'[..|log|] == log;
    forall k | 0 <= k < |log'| ensures SlotIs(slots', order', log', k) {
      if k < |log| {
        assert SlotIs(slots, order, log, k);
        assert log'[..k] == log[..k];
      }
    }
    forall j, k | 0 <= j < k < |order'| ensures order'[j] != order'[k] {
      assert SlotIs(slots, order, log, j);
    }
    forall j | 0 <= j < |slots'| && slots'[j].used ensures j in order' {
      if j == at { assert order'[|order|] == at; } else { assert j in order; }
    }
  }

  /** What `unregister_module` does to one slot. */
  function Shifted(slot: ModuleSlot, begin: int, count: int): ModuleSlot {
    if slot.used && slot.begin > begin then slot.(begin := slot.begin - count) else slot
  }

  ghost predicate ShiftedSlots(slots: seq<ModuleSlot>, slots': seq<ModuleSlot>, at: nat, begin: int, count: int) {
    |slots'| == |slots| && forall j :: 0 <= j < |slots| ==> slots'[j] == if j == at then FREE_SLOT
      else Shifted(slots[j], begin, count)
  }

  lemma ShiftedSlotIs(slots: seq<ModuleSlot>, slots': seq<ModuleSlot>, order: seq<nat>, log: seq<Registration>, k: nat,
      j: nat)
    requires Tiled(slots, order, log) && k < |log| && j < |log| - 1
    requires ShiftedSlots(slots, slots', order[k], Offset(log, k), |log[k].bindings|)
    ensures SlotIs(slots', Without(order, k), Without(log, k), j)
  {
    OffsetsWithout(log, k, j);
    OffsetNext(log, k);
    var i := if j < k then j else j + 1;
    assert SlotIs(slots, order, log, i);
    assert order[i] != order[k];
    if j < k { OffsetsGrow(log, j, k); } else { OffsetsGrow(log, k + 1, i); }
  }

  lemma TiledRemove(slots: seq<ModuleSlot>, slots': seq<ModuleSlot>, order: seq<nat>, log: seq<Registration>, k: nat)
    requires Tiled(slots, order, log) && k < |log|
    requires ShiftedSlots(slots, slots', order[k], Offset(log, k), |log[k].bindings|)
    ensures Tiled(slots', Without(order, k), Without(log, k))
  {
    var order', log' := Without(order, k), Without(log, k);
    forall j: nat | j < |log'| ensures SlotIs(slots', order', log', j) {
      ShiftedSlotIs(slots, slots', order, log, k, j);
    }
    forall j | 0 <= j < |slots'| && slots'[j].used ensures j in order' {
      assert j in order;
      var i :| 0 <= i < |order| && order[i] == j;
      assert i != k;
      assert order'[if i < k then i else i - 1] == j;
    }
  }

  /** The two arrays hold the list `log`. */
  ghost predicate Lists(slots: seq<ModuleSlot>, bindings: seq<ModuleInterface>, order: seq<nat>,
      log: seq<Registration>) {
    Tiled(slots, order, log) && Owned(log) && bindings == Flat(log)
  }

  /** A range of the bindings array taken out. */
  function Cut(bindings: seq<ModuleInterface>, begin: int, count: int): seq<ModuleInterface> {
    if 0 <= begin <= begin + count <= |bindings| then bindings[..begin] + bindings[begin + count..] else bindings
  }

  lemma CutIs(all: seq<ModuleInterface>, rest: seq<ModuleInterface>, begin: nat, count: nat)
    requires begin + count <= |all| == |rest| + count
    requires forall j :: 0 <= j < |rest| ==> rest[j] == all[if begin <= j then j + count else j]
    ensures rest == Cut(all, begin, count)
  {
  }

  lemma ListsRemove(slots: seq<ModuleSlot>, slots': seq<ModuleSlot>, bindings: seq<ModuleInterface>, order: seq<nat>,
      log: seq<Registration>, k: nat)
    requires Lists(slots, bindings, order, log) && k < |log| && order[k] < |slots|
    requires ShiftedSlots(slots, slots', order[k], slots[order[k]].begin, slots[order[k]].count)
    ensures Lists(slots', Cut(bindings, slots[order[k]].begin, slots[order[k]].count), Without(order, k),
      Without(log, k))
  {
    assert SlotIs(slots, order, log, k);
    TiledRemove(slots, slots', order, log, k);
    FlatSplit(log, k);
    OffsetNext(log, k);
  }

  lemma ListsAppend(slots: seq<ModuleSlot>, bindings: seq<ModuleInterface>, order: seq<nat>, log: seq<Registration>,
      at: nat, reg: Registration)
    requires Lists(slots, bindings, order, log) && at < |slots| && !slots[at].used && Owned(log + [reg])
    ensures Lists(slots[at := ModuleSlot(reg.control, |bindings|, |reg.bindings|, true)], bindings + reg.bindings,
      order + [at], log + [reg])
  {
    TiledAppend(slots, order, log, at, reg);
  }

  lemma OwnedAppend(log: seq<Registration>, control: ModuleControl, id: nat, es: seq<ManifestEntry>)
    requires Owned(log) && id > 0 && forall k :: 0 <= k < |log| ==> log[k].id < id && log[k].control != control
    ensures Owned(log + [Registration(control, id, Bindings(es, control, id))])
  {
  }

  /** Where a registration's slot says its bindings are. */
  lemma ListsSlot(slots: seq<ModuleSlot>, bindings: seq<ModuleInterface>, order: seq<nat>, log: seq<Registration>,
      k: nat)
    requires Lists(slots, bindings, order, log) && k < |log|
    ensures order[k] < |slots|
    ensures var slot := slots[order[k]];
      && slot.used && slot.control == log[k].control && 0 <= slot.begin <= slot.begin + slot.count <= |bindings|
      && bindings[slot.begin..slot.begin + slot.count] == log[k].bindings
  {
    assert SlotIs(slots, order, log, k);
    FlatSplit(log, k);
    OffsetNext(log, k);
  }

  ghost predicate Covers(slots: seq<ModuleSlot>, j: nat, p: nat) {
    j < |slots| && slots[j].used && slots[j].begin <= p < slots[j].begin + slots[j].count
  }

  lemma {:induction false} CoveringRegistration(log: seq<Registration>, p: nat) returns (k: nat)
    requires p < |Flat(log)|
    ensures k < |log| && Offset(log, k) <= p < Offset(log, k + 1)
  {
    var n := |log| - 1;
    assert log[..n + 1] == log;
    if p >= |Flat(log[..n])| {
      k := n;
    } else {
      k := CoveringRegistration(log[..n], p);
      assert log[..n][..k] == log[..k] && log[..n][..k + 1] == log[..k + 1];
    }
  }

  /** A covering slot is the slot of the registration whose range contains the position. */
  lemma CoveringSlot(slots: seq<ModuleSlot>, order: seq<nat>, log: seq<Registration>, j: nat, p: nat, k: nat)
    requires Tiled(slots, order, log) && Covers(slots, j, p) && k < |log| && Offset(log, k) <= p < Offset(log, k + 1)
    ensures j == order[k]
  {
    assert j in order;
    var i :| 0 <= i < |order| && order[i] == j;
    assert SlotIs(slots, order, log, i);
    OffsetNext(log, i);
    if i < k { OffsetsGrow(log, i + 1, k); }
    if k < i { OffsetsGrow(log, k + 1, i); }
  }

  /** The used slots' ranges tile the bindings: each binding lies in exactly one of them, and belongs to its module. */
  lemma BindingHasOneSlot(slots: seq<ModuleSlot>, bindings: seq<ModuleInterface>, order: seq<nat>,
      log: seq<Registration>, p: nat)
    requires Lists(slots, bindings, order, log) && p < |bindings|
    ensures exists j: nat :: Covers(slots, j, p) && bindings[p].control == slots[j].control
    ensures forall i: nat, j: nat :: Covers(slots, i, p) && Covers(slots, j, p) ==> i == j
  {
    var k := CoveringRegistration(log, p);
    OffsetNext(log, k);
    assert SlotIs(slots, order, log, k);
    assert Covers(slots, order[k], p);
    FlatSplit(log, k);
    var b := log[k].bindings;
    assert bindings[Offset(log, k)..Offset(log, k + 1)] == b;
    assert bindings[p] == b[p - Offset(log, k)];
    forall j: nat | Covers(slots, j, p) ensures j == order[k] { CoveringSlot(slots, order, log, j, p, k); }
  }

  /** Fewer registrations than slots leave a free slot. */
  lemma FreeSlotExists(slots: seq<ModuleSlot>, order: seq<nat>, log: seq<Registration>)
    requires Tiled(slots, order, log) && |log| < |slots|
    ensures exists j :: 0 <= j < |slots| && !slots[j].used
  {
    if forall j :: 0 <= j < |slots| ==> slots[j].used {
      BelowCount(|slots|);
      forall j | j in Below(|slots|) ensures j in order { assert slots[j].used; }
      CoveredBy(Below(|slots|), order);
    }
  }

  ghost function Below(n: nat): set<nat> {
    if n == 0 then {} else Below(n - 1) + {n - 1}
  }

  lemma {:induction false} BelowCount(n: nat)
    ensures |Below(n)| == n && forall j :: j in Below(n) ==> j < n
  {
    if n > 0 { BelowCount(n - 1); }
  }

  lemma {:induction false} CoveredBy(s: set<nat>, order: seq<nat>)
    requires forall j :: j in s ==> j in order
    ensures |s| <= |order|
  {
    if order != [] {
      var n := |order| - 1;
      CoveredBy(s - {order[n]}, order[..n]);
    } else {
      assert s == {};
    }
  }

  // ----- queries

  predicate Matches(b: ModuleInterface, interfaceId: nat, version: nat) {
    b.interfaceId == interfaceId && (version == 0 || b.version == version)
  }

  /** The matching bindings, in order. */
  function Matching(bs: seq<ModuleInterface>, interfaceId: nat, version: nat): seq<ModuleInterface> {
    if bs == [] then []
    else
      var rest := Matching(bs[..|bs| - 1], interfaceId, version);
      if Matches(bs[|bs| - 1], interfaceId, version) then rest + [bs[|bs| - 1]] else rest
  }

  /** The binding is of that interface, and of that version unless any will do (0). */
  ghost predicate Serves(b: ModuleInterface, interfaceId: nat, version: nat) {
    b.interfaceId == interfaceId && version in {0, b.version}
  }

  /** Every binding that serves is there as often as in the list, and no other. */
  lemma {:induction false} MatchingExactly(bs: seq<ModuleInterface>, interfaceId: nat, version: nat,
      b: ModuleInterface)
    ensures multiset(Matching(bs, interfaceId, version))[b] ==
      if Serves(b, interfaceId, version) then multiset(bs)[b] else 0
  {
    if bs != [] {
      var front := bs[..|bs| - 1];
      assert bs == front + [bs[|bs| - 1]];
      MatchingExactly(front, interfaceId, version, b);
    }
  }

  /** And they come in the order of the list. */
  lemma {:induction false} MatchingConcat(a: seq<ModuleInterface>, b: seq<ModuleInterface>, interfaceId: nat,
      version: nat)
    ensures Matching(a + b, interfaceId, version) ==
      Matching(a, interfaceId, version) + Matching(b, interfaceId, version)
  {
    if b == [] {
      assert a + b == a;
    } else {
      assert (a + b)[..|a + b| - 1] == a + b[..|b| - 1];
      MatchingConcat(a, b[..|b| - 1], interfaceId, version);
    }
  }

  /** The first `max` of them serve, and they are all there if there are fewer. */
  lemma FirstMatching(bs: seq<ModuleInterface>, interfaceId: nat, version: nat, max: nat)
    ensures var all := Matching(bs, interfaceId, version);
      var out := all[..if |all| <= max then |all| else max];
      && (forall b :: b in out ==> b in bs && Serves(b, interfaceId, version))
      && (|out| < max ==> forall b :: b in bs && Serves(b, interfaceId, version) ==> b in out)
  {
    var all := Matching(bs, interfaceId, version);
    var out := all[..if |all| <= max then |all| else max];
    forall b | b in out ensures b in bs && Serves(b, interfaceId, version) {
      MatchingExactly(bs, interfaceId, version, b);
      assert b in all && multiset(all)[b] > 0;
      assert multiset(bs)[b] > 0;
    }
    if |out| < max {
      assert out == all;
      forall b | b in bs && Serves(b, interfaceId, version) ensures b in out {
        MatchingExactly(bs, interfaceId, version, b);
        assert multiset(bs)[b] > 0;
      }
    }
  }

  /** The latest among the newest bindings that serve. */
  ghost predicate NewestLatest(bs: seq<ModuleInterface>, interfaceId: nat, version: nat, best: Option<nat>) {
    match best
    case None => forall i :: 0 <= i < |bs| ==> !Serves(bs[i], interfaceId, version)
    case Some(k) =>
      && k < |bs| && Serves(bs[k], interfaceId, version)
      && forall i :: 0 <= i < |bs| && i != k && Serves(bs[i], interfaceId, version) ==>
           if i < k then bs[i].version <= bs[k].version else bs[i].version < bs[k].version
  }

  /** Two entries declare the same interface and version. */
  ghost predicate DeclaresTwice(es: seq<ManifestEntry>) {
    exists i, j :: 0 <= i < j < |es| && es[i].interfaceId == es[j].interfaceId && es[i].version == es[j].version
  }

  class IdSource {
    var last: nat
    constructor ()
      ensures last == 0
    {
      last := 0;
    }
  }

  class Registry {
    const moduleCapacity: nat
    const interfaceCapacity: nat
    const modules: array<ModuleSlot>
    const interfaces: array<ModuleInterface>
    const ids: IdSource
    var moduleCount: nat
    var interfaceCount: nat
    ghost var order: seq<nat>
    ghost var log: seq<Registration>

    /** The arrays hold the list. */
    ghost predicate Layout()
      reads this, modules, interfaces
    {
      && modules.Length == (if moduleCapacity == 0 then 1 else moduleCapacity)
      && interfaces.Length == (if interfaceCapacity == 0 then 1 else interfaceCapacity)
      && moduleCount == |log| <= moduleCapacity && interfaceCount <= interfaceCapacity
      && Lists(modules[..], interfaces[..interfaceCount], order, log)
    }

    /** Registered modules have been activated and carry their number. */
    ghost predicate ControlsOk()
      reads this, ids, set k | 0 <= k < |log| :: log[k].control
    {
      (forall k :: 0 <= k < |log| ==> log[k].control.id == log[k].id <= ids.last && log[k].control.phase != Loading)
    }

    ghost predicate Valid()
      reads this, modules, interfaces, ids, set k | 0 <= k < |log| :: log[k].control
    {
      Layout() && ControlsOk()
    }

    constructor (moduleCapacity: nat, interfaceCapacity: nat, ids: IdSource)
      ensures Valid() && log == [] && this.moduleCapacity == moduleCapacity &&
        this.interfaceCapacity == interfaceCapacity && this.ids == ids
      ensures fresh(modules) && fresh(interfaces)
    {
      this.moduleCapacity, this.interfaceCapacity, this.ids := moduleCapacity, interfaceCapacity, ids;
      modules := new ModuleSlot[if moduleCapacity == 0 then 1 else moduleCapacity](_ => FREE_SLOT);
      interfaces := new ModuleInterface[if interfaceCapacity == 0 then 1 else interfaceCapacity](_ => NO_INTERFACE);
      moduleCount, interfaceCount := 0, 0;
      order, log := [], [];
    }

    /** `find_slot`: the slot of the registration with that number. */
    method FindSlot(id: nat) returns (at: Option<nat>, ghost k: nat)
      requires Valid()
      ensures at.None? <==> (forall j :: 0 <= j < |log| ==> log[j].id != id)
      ensures at.Some? ==> k < |log| && log[k].id == id && at.value == order[k]
    {
      k := 0;
      if id == 0 { return None, 0; }
      var i := 0;
      while i < modules.Length
        invariant i <= modules.Length
        invariant forall j :: 0 <= j < |log| && order[j] < i ==> log[j].id != id
      {
        if modules[i].used {
          k :| k < |order| && order[k] == i;
          assert SlotIs(modules[..], order, log, k);
          if modules[i].control.id == id { return Some(i), k; }
        }
        forall j | 0 <= j < |log| && order[j] == i
          ensures log[j].id != id
        {
          assert SlotIs(modules[..], order, log, j);
        }
        i := i + 1;
      }
      forall j | 0 <= j < |log| ensures log[j].id != id { assert SlotIs(modules[..], order, log, j); }
      return None, 0;
    }

    ghost predicate InLog(control: ModuleControl)
      reads this
    {
      exists k :: 0 <= k < |log| && log[k].control == control
    }

    method FindControl(control: ModuleControl) returns (found: bool)
      requires Valid()
      ensures found <==> InLog(control)
    {
      var i := 0;
      while i < modules.Length
        invariant i <= modules.Length && forall k :: 0 <= k < |log| && order[k] < i ==> log[k].control != control
      {
        if modules[i].used && modules[i].control == control {
          ghost var k :| 0 <= k < |order| && order[k] == i;
          assert SlotIs(modules[..], order, log, k);
          return true;
        }
        forall k | 0 <= k < |log| && order[k] == i
          ensures log[k].control != control
        {
          assert SlotIs(modules[..], order, log, k);
        }
        i := i + 1;
      }
      forall k | 0 <= k < |log| ensures log[k].control != control { assert SlotIs(modules[..], order, log, k); }
      return false;
    }

    /** The first free slot, which a registry below its capacity has. */
    method FirstFree() returns (at: nat)
      requires Valid() && |log| < moduleCapacity
      ensures at < modules.Length && !modules[at].used && forall j :: 0 <= j < at ==> modules[j].used
    {
      FreeSlotExists(modules[..], order, log);
      ghost var j :| 0 <= j < modules.Length && !modules[..][j].used;
      at := 0;
      while modules[at].used
        invariant at <= j && forall i :: 0 <= i < at ==> modules[i].used
        decreases j - at
      {
        at := at + 1;
      }
    }

    method AppendBindings(es: seq<ManifestEntry>, control: ModuleControl, id: nat)
      requires interfaceCount + |es| <= interfaces.Length
      modifies interfaces, this`interfaceCount
      ensures interfaceCount == old(interfaceCount) + |es|
      ensures interfaces[..interfaceCount] == old(interfaces[..interfaceCount]) + Bindings(es, control, id)
    {
      var i := 0;
      while i < |es|
        invariant i <= |es| && interfaceCount == old(interfaceCount) + i
        invariant interfaces[..interfaceCount] == old(interfaces[..interfaceCount]) + Bindings(es, control, id)[..i]
      {
        var binding := ModuleInterface(id, es[i].interfaceId, es[i].version, es[i].methods, control);
        interfaces[interfaceCount] := binding;
        interfaceCount := interfaceCount + 1;
        i := i + 1;
      }
    }

    /** Registers a module: the first failing check decides and then nothing has changed; otherwise the module is
        active under a number never used before and its bindings stand at the end. */
    method RegisterModule(control: ModuleControl, manifest: Manifest) returns (status: ModuleStatus)
      requires Valid()
      modifies this, modules, interfaces, ids, control
      ensures Valid()
      ensures status ==
        if !ManifestFits(manifest) then InvalidManifest
        else if exists k :: 0 <= k < |old(log)| && old(log)[k].control == control then AlreadyRegistered
        else if DeclaresTwice(manifest.interfaces.Items()) then DuplicateInterface
        else if |old(log)| == moduleCapacity then CapacityExceeded
        else if |Flat(old(log))| + |manifest.interfaces.Items()| > interfaceCapacity then InterfaceCapacityExceeded
        else if old(control.phase) != Loading then InvalidState
        else ModuleOk
      ensures status != ModuleOk ==>
        && log == old(log) && modules[..] == old(modules[..]) && interfaces[..] == old(interfaces[..])
        && control.phase == old(control.phase) && control.id == old(control.id) && ids.last == old(ids.last)
      ensures status == ModuleOk ==>
        && control.id == ids.last == old(ids.last) + 1 && control.phase == Active
        && log == old(log) + [Registration(control, control.id,
          Bindings(manifest.interfaces.Items(), control, control.id))]
    {
      var checked := ValidateManifest(Some(manifest));
      if checked != ManifestOk { return InvalidManifest; }
      var found := FindControl(control);
      if found { return AlreadyRegistered; }
      var es := manifest.interfaces.Items();
      var twice := FindTwice(es);
      if twice { return DuplicateInterface; }
      if moduleCount == moduleCapacity { return CapacityExceeded; }
      if interfaceCount + |es| > interfaceCapacity { return InterfaceCapacityExceeded; }
      var at := FirstFree();
      if control.phase != Loading { return InvalidState; }
      Admit(at, control, es);
      status := ModuleOk;
    }

    /** Activates the module, gives it the next number and enters it. */
    method Admit(at: nat, control: ModuleControl, es: seq<ManifestEntry>)
      requires Valid() && !InLog(control) && at < modules.Length && !modules[at].used
      requires |log| < moduleCapacity && interfaceCount + |es| <= interfaceCapacity
      modifies this, modules, interfaces, ids, control
      ensures Valid() && control.id == ids.last == old(ids.last) + 1 && control.phase == Active
      ensures log == old(log) + [Registration(control, control.id, Bindings(es, control, control.id))]
    {
      ghost var before := log;
      assert forall k :: 0 <= k < |log| ==> log[k].id < ids.last + 1 && log[k].control != control;
      control.phase := Active;
      ids.last := ids.last + 1;
      control.id := ids.last;
      Enter(at, control, control.id, es);
      forall k | 0 <= k < |log| ensures log[k].control.id == log[k].id <= ids.last && log[k].control.phase != Loading {
        if k < |before| { assert log[k] == before[k]; }
      }
    }

    /** The writes of an accepted registration to the arrays. */
    method Enter(at: nat, control: ModuleControl, id: nat, es: seq<ManifestEntry>)
      requires Layout() && at < modules.Length && !modules[at].used
      requires |log| < moduleCapacity && interfaceCount + |es| <= interfaceCapacity
      requires id > 0 && forall k :: 0 <= k < |log| ==> log[k].id < id && log[k].control != control
      modifies this, modules, interfaces
      ensures Layout() && log == old(log) + [Registration(control, id, Bindings(es, control, id))]
    {
      ghost var reg := Registration(control, id, Bindings(es, control, id));
      OwnedAppend(log, control, id, es);
      ListsAppend(modules[..], interfaces[..interfaceCount], order, log, at, reg);
      modules[at] := ModuleSlot(control, interfaceCount, |es|, true);
      moduleCount := moduleCount + 1;
      AppendBindings(es, control, id);
      order, log := order + [at], log + [reg];
    }

    /** Closes the gap that `count` bindings at `begin` leave, in place. */
    method Compact(begin: nat, count: nat)
      requires begin + count <= interfaceCount <= interfaces.Length
      modifies interfaces, this`interfaceCount
      ensures interfaceCount == old(interfaceCount) - count
      ensures interfaces[..interfaceCount] == Cut(old(interfaces[..interfaceCount]), begin, count)
    {
      ghost var all := interfaces[..interfaceCount];
      var i: nat := begin;
      while i + count < interfaceCount
        invariant interfaceCount == |all| && begin <= i <= |all| - count
        invariant forall j :: 0 <= j < |all| ==> interfaces[j] == all[if begin <= j < i then j + count else j]
      {
        interfaces[i] := interfaces[i + count];
        i := i + 1;
      }
      interfaceCount := interfaceCount - count;
      CutIs(all, interfaces[..interfaceCount], begin, count);
    }

    /** Moves the ranges that begin later down by `count`, and frees the slot at `at`. */
    method ShiftSlots(at: nat, begin: int, count: int)
      requires at < modules.Length
      modifies modules
      ensures ShiftedSlots(old(modules[..]), modules[..], at, begin, count)
    {
      var i := 0;
      while i < modules.Length
        invariant i <= modules.Length
        invariant forall j :: 0 <= j < i ==> modules[j] == Shifted(old(modules[j]), begin, count)
        invariant forall j :: i <= j < modules.Length ==> modules[j] == old(modules[j])
      {
        if modules[i].used && modules[i].begin > begin {
          modules[i] := modules[i].(begin := modules[i].begin - count);
        }
        i := i + 1;
      }
      modules[at] := FREE_SLOT;
    }

    /** Begins the unload and, once idle (`idle` is the answer of `wait_for_idle`), takes exactly that registration
        out of the list; a busy module stays registered and draining. */
    method UnregisterModule(id: nat, idle: bool) returns (status: ModuleStatus, ghost k: nat)
      requires Valid()
      modifies this, modules, interfaces, set j | 0 <= j < |log| :: log[j].control
      ensures Valid() && ids.last == old(ids.last)
      ensures status == (if forall j :: 0 <= j < |old(log)| ==> old(log)[j].id != id then NotRegistered
        else if idle then ModuleOk else StillBusy)
      ensures status != ModuleOk ==>
        log == old(log) && modules[..] == old(modules[..]) && interfaces[..] == old(interfaces[..])
      ensures status == NotRegistered ==>
        forall j :: 0 <= j < |log| ==> log[j].control.phase == old(log[j].control.phase)
      ensures status != NotRegistered ==>
        && k < |old(log)| && old(log)[k].id == id && Closed(old(log)[k].control.phase)
        && forall j :: 0 <= j < |old(log)| && j != k ==> old(log)[j].control.phase == old(log[j].control.phase)
      ensures status == ModuleOk ==> log == Without(old(log), k) && old(log)[k].control.phase == Unloaded
    {
      var at;
      at, k := FindSlot(id);
      if at.None? { return NotRegistered, k; }
      status := UnregisterFound(at.value, k, idle);
    }

    method UnregisterFound(at: nat, ghost k: nat, idle: bool) returns (status: ModuleStatus)
      requires Valid() && k < |log| && at == order[k]
      modifies this, modules, interfaces, log[k].control`phase
      ensures Valid() && Closed(old(log)[k].control.phase)
      ensures status == if idle then ModuleOk else StillBusy
      ensures !idle ==> log == old(log) && modules[..] == old(modules[..]) && interfaces[..] == old(interfaces[..])
      ensures idle ==> log == Without(old(log), k) && old(log)[k].control.phase == Unloaded
    {
      BeginUnload(at, k);
      if !idle { return StillBusy; }
      Discharge(at, k);
      return ModuleOk;
    }

    /** `begin_unload` on a registered module, which is active or past that. */
    method BeginUnload(at: nat, ghost k: nat)
      requires Valid() && k < |log| && at == order[k]
      modifies log[k].control`phase
      ensures Valid() && at < modules.Length && Closed(log[k].control.phase)
    {
      ListsSlot(modules[..], interfaces[..interfaceCount], order, log, k);
      var control := modules[at].control;
      if control.phase == Active { control.phase := Draining; }
    }

    /** Takes an idle module out and marks it unloaded. */
    method Discharge(at: nat, ghost k: nat)
      requires Valid() && k < |log| && at == order[k] < modules.Length
      modifies this, modules, interfaces, log[k].control`phase
      ensures Valid() && log == Without(old(log), k) && old(log)[k].control.phase == Unloaded
    {
      ListsSlot(modules[..], interfaces[..interfaceCount], order, log, k);
      var control := modules[at].control;
      Remove(at, k);
      control.phase := Unloaded;
    }

    /** The writes of an accepted removal. */
    method Remove(at: nat, ghost k: nat)
      requires Layout() && k < |log| && at == order[k] < modules.Length
      modifies this, modules, interfaces
      ensures Layout() && log == Without(old(log), k)
    {
      ghost var slots, bindings := modules[..], interfaces[..interfaceCount];
      ListsSlot(slots, bindings, order, log, k);
      var begin, count := modules[at].begin, modules[at].count;
      Compact(begin, count);
      ShiftSlots(at, begin, count);
      ListsRemove(slots, modules[..], bindings, order, log, k);
      moduleCount := moduleCount - 1;
      order, log := Without(order, k), Without(log, k);
    }

    /** `find_interface`: the first `max` matching bindings in registration order. */
    method FindInterface(interfaceId: nat, version: nat, max: nat) returns (out: seq<ModuleInterface>)
      requires Valid()
      ensures var all := Matching(Flat(log), interfaceId, version); out == all[..if |all| <= max then |all| else max]
      ensures |out| <= max && forall b :: b in out ==> b in Flat(log) && Serves(b, interfaceId, version)
      ensures |out| < max ==> forall b :: b in Flat(log) && Serves(b, interfaceId, version) ==> b in out
    {
      FirstMatching(Flat(log), interfaceId, version, max);
      out := [];
      var i := 0;
      while i < interfaceCount && |out| < max
        invariant i <= interfaceCount && |out| <= max && out == Matching(Flat(log)[..i], interfaceId, version)
      {
        var b := interfaces[i];
        assert Flat(log)[..i + 1][..i] == Flat(log)[..i];
        assert Flat(log)[i] == b;
        if b.interfaceId == interfaceId && (version == 0 || b.version == version) { out := out + [b]; }
        i := i + 1;
      }
      MatchingPrefix(Flat(log), interfaceId, version, i);
      if i == interfaceCount { assert Flat(log)[..i] == Flat(log); }
    }

    /** `find_first`: the newest matching binding, the latest one among equals. */
    method FindFirst(interfaceId: nat, version: nat) returns (best: Option<nat>)
      requires Valid()
      ensures NewestLatest(Flat(log), interfaceId, version, best)
    {
      best := None;
      var i := 0;
      while i < interfaceCount
        invariant i <= interfaceCount && NewestLatest(Flat(log)[..i], interfaceId, version, best)
      {
        var b := interfaces[i];
        assert Flat(log)[i] == b;
        if b.interfaceId == interfaceId && (version == 0 || b.version == version) {
          if best.None? || b.version >= interfaces[best.value].version { best := Some(i); }
        }
        i := i + 1;
      }
      assert Flat(log)[..i] == Flat(log);
    }
  }

  /** The same interface and version declared by two entries. */
  method FindTwice(es: seq<ManifestEntry>) returns (twice: bool)
    ensures twice <==> DeclaresTwice(es)
  {
    var i := 0;
    while i < |es|
      invariant i <= |es| && forall a, b :: 0 <= a < i && a < b < |es| ==>
        !(es[a].interfaceId == es[b].interfaceId && es[a].version == es[b].version)
    {
      var j := i + 1;
      while j < |es|
        invariant i < j <= |es| && forall b :: i < b < j ==>
          !(es[i].interfaceId == es[b].interfaceId && es[i].version == es[b].version)
      {
        if es[i].interfaceId == es[j].interfaceId && es[i].version == es[j].version {
          return true;
        }
        j := j + 1;
      }
      i := i + 1;
    }
    return false;
  }

  lemma {:induction false} MatchingPrefix(bs: seq<ModuleInterface>, interfaceId: nat, version: nat, i: nat)
    requires i <= |bs|
    ensures var all, front := Matching(bs, interfaceId, version), Matching(bs[..i], interfaceId, version);
      |front| <= |all| && all[..|front|] == front
    decreases |bs|
  {
    if i < |bs| {
      var n := |bs| - 1;
      assert bs[..n][..i] == bs[..i];
      MatchingPrefix(bs[..n], interfaceId, version, i);
    } else {
      assert bs[..i] == bs;
    }
  }
}
