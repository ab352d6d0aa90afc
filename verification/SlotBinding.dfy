/** Signature-checked slot binding (Interface/Ref.h) and the binding-time registry (Interface/Registry.h). */
module SlotBinding {
  import opened Options
  import opened InterfaceContract

  datatype InterfaceStatus =
    | BindOk | InvalidTable | DuplicateImplementation | CapacityExceeded | InterfaceNotFound
    | VersionMismatch | MethodNotFound | MethodCapacityExceeded | SignatureMismatch

  /** What a proxy expects: one signature per slot, 0 where the slot is not checked. */
  datatype Contract = Contract(id: nat, version: nat, signatures: seq<nat>)

  datatype Implementation = Implementation(interfaceId: nat, concreteType: nat, methods: Listed<InterfaceMethod>,
      version: nat)

  // ----- filling a slot table

  /** Position of the first method for a slot from `i` on; the length if there is none. */
  function FirstFor(ms: seq<InterfaceMethod>, slot: nat, i: nat): (k: nat)
    requires i <= |ms|
    ensures i <= k <= |ms| && (k < |ms| ==> ms[k].slot == slot) && forall j :: i <= j < k ==> ms[j].slot != slot
    decreases |ms| - i
  {
    if i == |ms| || ms[i].slot == slot then i else FirstFor(ms, slot, i + 1)
  }

  /** What the check of one contract slot reports: the first method for the slot decides. */
  function SlotFault(ms: seq<InterfaceMethod>, expected: nat, slot: nat): InterfaceStatus {
    var k := FirstFor(ms, slot, 0);
    if expected == 0 then BindOk
    else if k == |ms| || ms[k].entry == 0 then MethodNotFound
    else if ms[k].signature != expected then SignatureMismatch
    else BindOk
  }

  predicate FitsSlots(ms: seq<InterfaceMethod>, max: nat) { forall i :: 0 <= i < |ms| ==> ms[i].slot < max }

  /** The first fault among the contract slots from `slot` on. */
  function FirstFault(ms: seq<InterfaceMethod>, expected: seq<nat>, slot: nat): InterfaceStatus
    requires slot <= |expected|
    decreases |expected| - slot
  {
    if slot == |expected| then BindOk
    else if SlotFault(ms, expected[slot], slot) != BindOk then SlotFault(ms, expected[slot], slot)
    else FirstFault(ms, expected, slot + 1)
  }

  function FillVerdict(ms: seq<InterfaceMethod>, max: nat, expected: seq<nat>): InterfaceStatus {
    if !FitsSlots(ms, max) then MethodCapacityExceeded else FirstFault(ms, expected, 0)
  }

  /** The entries after storing the first `n` methods in order. */
  function Stored(es: seq<nat>, ms: seq<InterfaceMethod>, n: nat): (r: seq<nat>)
    requires n <= |ms| && FitsSlots(ms, |es|)
    ensures |r| == |es|
  {
    if n == 0 then es else Stored(es, ms, n - 1)[ms[n - 1].slot := ms[n - 1].entry]
  }

  /** The signatures recorded for the slots, stored in the same order as the entries. */
  function StoredSignatures(ss: seq<nat>, ms: seq<InterfaceMethod>, n: nat): (r: seq<nat>)
    requires n <= |ms| && FitsSlots(ms, |ss|)
    ensures |r| == |ss|
  {
    if n == 0 then ss else StoredSignatures(ss, ms, n - 1)[ms[n - 1].slot := ms[n - 1].signature]
  }

  function Zeros(n: nat): (z: seq<nat>)
    ensures |z| == n && forall i :: 0 <= i < n ==> z[i] == 0
  {
    seq(n, _ => 0)
  }

  /** One more than the highest slot among the first `n` methods. */
  function Highest(ms: seq<InterfaceMethod>, n: nat): (h: nat)
    requires n <= |ms|
    ensures forall i :: 0 <= i < n ==> ms[i].slot < h
    ensures h > 0 ==> exists i :: 0 <= i < n && ms[i].slot == h - 1
  {
    if n == 0 then 0 else var h := Highest(ms, n - 1); if ms[n - 1].slot + 1 > h then ms[n - 1].slot + 1 else h
  }

  /** Position of the last method for a slot among the first `n`, or `n` if there is none. */
  ghost predicate LastFor(ms: seq<InterfaceMethod>, n: nat, slot: nat, k: nat)
    requires n <= |ms|
  {
    k < n && ms[k].slot == slot && forall j :: k < j < n ==> ms[j].slot != slot
  }

  /** A slot keeps what the last method for it stored. */
  lemma {:induction false} StoredLast(es: seq<nat>, ms: seq<InterfaceMethod>, n: nat, slot: nat, k: nat)
    requires n <= |ms| && FitsSlots(ms, |es|) && LastFor(ms, n, slot, k)
    ensures slot < |es| && Stored(es, ms, n)[slot] == ms[k].entry
  {
    if k < n - 1 { StoredLast(es, ms, n - 1, slot, k); }
  }

  lemma {:induction false} SignatureLast(ss: seq<nat>, ms: seq<InterfaceMethod>, n: nat, slot: nat, k: nat)
    requires n <= |ms| && FitsSlots(ms, |ss|) && LastFor(ms, n, slot, k)
    ensures slot < |ss| && StoredSignatures(ss, ms, n)[slot] == ms[k].signature
  {
    if k < n - 1 { SignatureLast(ss, ms, n - 1, slot, k); }
  }

  /** A slot without a method keeps what it had. */
  lemma {:induction false} StoredNone(es: seq<nat>, ms: seq<InterfaceMethod>, n: nat, slot: nat)
    requires n <= |ms| && FitsSlots(ms, |es|) && slot < |es| && forall j :: 0 <= j < n ==> ms[j].slot != slot
    ensures Stored(es, ms, n)[slot] == es[slot]
  {
    if n > 0 { StoredNone(es, ms, n - 1, slot); }
  }

  lemma {:induction false} FirstFaultOk(ms: seq<InterfaceMethod>, expected: seq<nat>, slot: nat)
    requires slot <= |expected|
    ensures FirstFault(ms, expected, slot) == BindOk <==>
      forall s :: slot <= s < |expected| ==> SlotFault(ms, expected[s], s) == BindOk
    decreases |expected| - slot
  {
    if slot < |expected| { FirstFaultOk(ms, expected, slot + 1); }
  }

  /** A contract slot is served: some method is recorded for it with an adapter and the expected signature. */
  ghost predicate Served(ms: seq<InterfaceMethod>, expected: nat, slot: nat) {
    exists k :: 0 <= k < |ms| && ms[k].slot == slot && ms[k].entry != 0 && ms[k].signature == expected
  }

  lemma DistinctServed(ms: seq<InterfaceMethod>, expected: nat, slot: nat)
    requires DistinctSlots(ms) && expected != 0
    ensures SlotFault(ms, expected, slot) == BindOk <==> Served(ms, expected, slot)
  {
    if Served(ms, expected, slot) {
      var k :| 0 <= k < |ms| && ms[k].slot == slot && ms[k].entry != 0 && ms[k].signature == expected;
      assert FirstFor(ms, slot, 0) == k;
    }
  }

  /** With distinct slots, binding succeeds exactly when every slot fits and every expected slot is served. */
  lemma BindSucceedsExactlyWhen(ms: seq<InterfaceMethod>, max: nat, expected: seq<nat>)
    requires DistinctSlots(ms)
    ensures FillVerdict(ms, max, expected) == BindOk <==>
      && (forall m :: m in ms ==> m.slot < max)
      && (forall s :: 0 <= s < |expected| && expected[s] > 0 ==>
            exists m :: m in ms && m.slot == s && m.entry > 0 && m.signature == expected[s])
  {
    FirstFaultOk(ms, expected, 0);
    forall s | 0 <= s < |expected| && expected[s] != 0
      ensures SlotFault(ms, expected[s], s) == BindOk <==> Served(ms, expected[s], s)
    {
      DistinctServed(ms, expected[s], s);
    }
    if FitsSlots(ms, max) {
      forall m | m in ms ensures m.slot < max { var i :| 0 <= i < |ms| && ms[i] == m; }
    }
    forall s | 0 <= s < |expected| && expected[s] != 0
      ensures Served(ms, expected[s], s) <==>
        exists m :: m in ms && m.slot == s && m.entry > 0 && m.signature == expected[s]
    {
      ServedByMember(ms, expected[s], s);
    }
  }

  lemma ServedByMember(ms: seq<InterfaceMethod>, expected: nat, slot: nat)
    ensures Served(ms, expected, slot) <==>
      exists m :: m in ms && m.slot == slot && m.entry > 0 && m.signature == expected
  {
    if m :| m in ms && m.slot == slot && m.entry > 0 && m.signature == expected {
      var k :| 0 <= k < |ms| && ms[k] == m;
    }
  }

  /** A contract slot that a table does not serve with its first method for the slot. */
  ghost predicate Unserved(ms: seq<InterfaceMethod>, expected: seq<nat>, s: nat, k: nat)
    requires s < |expected|
  {
    && expected[s] > 0 && k <= |ms| && (forall j :: 0 <= j < k ==> ms[j].slot != s)
    && (k == |ms| || (ms[k].slot == s && (ms[k].entry == 0 || ms[k].signature != expected[s])))
  }

  /** The status of a fill that fails: a slot that does not fit comes first, then the first contract slot that is not
      served. */
  lemma FillFailsWith(ms: seq<InterfaceMethod>, max: nat, expected: seq<nat>)
    ensures FillVerdict(ms, max, expected) == MethodCapacityExceeded <==> exists m :: m in ms && m.slot >= max
    ensures (forall m :: m in ms ==> m.slot < max) ==>
      forall s: nat, k: nat ::
        s < |expected| && Unserved(ms, expected, s, k) &&
        (forall r: nat, j: nat :: r < s ==> !Unserved(ms, expected, r, j)) ==>
        FillVerdict(ms, max, expected) ==
          if k == |ms| || ms[k].entry == 0 then MethodNotFound else SignatureMismatch
  {
    FirstFaultIsNoCapacity(ms, expected, 0);
    if FitsSlots(ms, max) {
      forall m | m in ms ensures m.slot < max { var i :| 0 <= i < |ms| && ms[i] == m; }
    }
    forall s: nat, k: nat |
      s < |expected| && Unserved(ms, expected, s, k) &&
      (forall r: nat, j: nat :: r < s ==> !Unserved(ms, expected, r, j))
      ensures FirstFault(ms, expected, 0) ==
        if k == |ms| || ms[k].entry == 0 then MethodNotFound else SignatureMismatch
    {
      FirstUnserved(ms, expected, 0, s, k);
    }
  }

  lemma {:induction false} FirstFaultIsNoCapacity(ms: seq<InterfaceMethod>, expected: seq<nat>, slot: nat)
    requires slot <= |expected|
    ensures FirstFault(ms, expected, slot) != MethodCapacityExceeded
    decreases |expected| - slot
  {
    if slot < |expected| { FirstFaultIsNoCapacity(ms, expected, slot + 1); }
  }

  lemma {:induction false} FirstUnserved(ms: seq<InterfaceMethod>, expected: seq<nat>, from: nat, s: nat, k: nat)
    requires from <= s < |expected| && Unserved(ms, expected, s, k)
    requires forall r: nat, j: nat :: r < s ==> !Unserved(ms, expected, r, j)
    ensures FirstFault(ms, expected, from) ==
      if k == |ms| || ms[k].entry == 0 then MethodNotFound else SignatureMismatch
    decreases s - from
  {
    if from == s {
      assert FirstFor(ms, s, 0) == k;
    } else {
      assert !Unserved(ms, expected, from, FirstFor(ms, from, 0));
      FirstUnserved(ms, expected, from + 1, s, k);
    }
  }

  /** With distinct slots, what a successful bind caches: at every slot the adapter recorded for it, non-zero and of the
      expected signature where the contract expects one, and nothing at a slot without a method. */
  lemma BoundSlotsAreChecked(ms: seq<InterfaceMethod>, max: nat, expected: seq<nat>, slot: nat)
    requires DistinctSlots(ms) && FillVerdict(ms, max, expected) == BindOk && slot < max
    ensures var entry := Stored(Zeros(max), ms, |ms|)[slot];
      && (forall k :: 0 <= k < |ms| && ms[k].slot == slot ==> entry == ms[k].entry)
      && ((forall k :: 0 <= k < |ms| ==> ms[k].slot != slot) ==> entry == 0)
      && (slot < |expected| && expected[slot] != 0 ==>
            entry != 0 && exists k ::
              0 <= k < |ms| && ms[k].slot == slot && ms[k].entry == entry && ms[k].signature == expected[slot])
  {
    var k := FirstFor(ms, slot, 0);
    if k == |ms| {
      StoredNone(Zeros(max), ms, |ms|, slot);
    } else {
      StoredLast(Zeros(max), ms, |ms|, slot, k);
    }
    FirstFaultOk(ms, expected, 0);
    if slot < |expected| && expected[slot] != 0 { assert SlotFault(ms, expected[slot], slot) == BindOk; }
  }

  /** What a successful bind should cache at a contract slot: an adapter that is recorded there with the expected
      signature. */
  ghost predicate CachedAsExpected(entry: nat, ms: seq<InterfaceMethod>, expected: nat, slot: nat) {
    entry != 0 &&
    exists k :: 0 <= k < |ms| && ms[k].slot == slot && ms[k].entry == entry && ms[k].signature == expected
  }

  /** Some method of the slot has the expected signature and the adapter that the last method of the slot has. */
  ghost predicate LastAdapterExpected(ms: seq<InterfaceMethod>, expected: nat, slot: nat, last: nat)
    requires last < |ms|
  {
    ms[last].entry != 0 &&
    exists k :: 0 <= k < |ms| && ms[k].slot == slot && ms[k].entry == ms[last].entry && ms[k].signature == expected
  }

  /** The last method of a slot that some method has. */
  lemma {:induction false} LastExists(ms: seq<InterfaceMethod>, n: nat, slot: nat) returns (last: nat)
    requires n <= |ms| && exists k :: 0 <= k < n && ms[k].slot == slot
    ensures LastFor(ms, n, slot, last)
  {
    if ms[n - 1].slot == slot { last := n - 1; } else { last := LastExists(ms, n - 1, slot); }
  }

  /** With repeated slots the first method is checked and the last one is stored. A successful bind caches a callable
      adapter of the expected signature if and only if some method of the slot has that signature and the adapter of the
      slot's last method, which is not null. */
  lemma CachedAsExpectedExactlyWhen(ms: seq<InterfaceMethod>, max: nat, expected: seq<nat>, slot: nat)
    returns (last: nat)
    requires FillVerdict(ms, max, expected) == BindOk && slot < |expected| <= max && expected[slot] != 0
    ensures LastFor(ms, |ms|, slot, last)
    ensures CachedAsExpected(Stored(Zeros(max), ms, |ms|)[slot], ms, expected[slot], slot) <==>
      LastAdapterExpected(ms, expected[slot], slot, last)
  {
    FirstFaultOk(ms, expected, 0);
    assert SlotFault(ms, expected[slot], slot) == BindOk;
    assert ms[FirstFor(ms, slot, 0)].slot == slot;
    last := LastExists(ms, |ms|, slot);
    StoredLast(Zeros(max), ms, |ms|, slot, last);
  }

  /** A handle that keeps the signatures is safe for every table, repeated slots included: adapter and signature of
      a slot come from the same method. */
  lemma VerifiedAdapterIsRecorded(ms: seq<InterfaceMethod>, max: nat, slot: nat)
    requires FitsSlots(ms, max) && slot < max && Stored(Zeros(max), ms, |ms|)[slot] != 0
    ensures CachedAsExpected(Stored(Zeros(max), ms, |ms|)[slot], ms, StoredSignatures(Zeros(max), ms, |ms|)[slot], slot)
  {
    if forall k :: 0 <= k < |ms| ==> ms[k].slot != slot {
      StoredNone(Zeros(max), ms, |ms|, slot);
    } else {
      var last := LastExists(ms, |ms|, slot);
      StoredLast(Zeros(max), ms, |ms|, slot, last);
      SignatureLast(Zeros(max), ms, |ms|, slot, last);
    }
  }

  /** Tables with a repeated slot that bind: one caches an adapter of another signature, one caches nothing
      callable, and one is fine although its two adapters differ. */
  lemma RepeatedSlotEscapesCheck()
    ensures RepeatedSlot(8, 200) == (BindOk, 200)
      && !CachedAsExpected(200, [InterfaceMethod(7, 100, 0), InterfaceMethod(8, 200, 0)], 7, 0)
    ensures RepeatedSlot(7, 0) == (BindOk, 0)
    ensures RepeatedSlot(7, 200) == (BindOk, 200)
      && CachedAsExpected(200, [InterfaceMethod(7, 100, 0), InterfaceMethod(7, 200, 0)], 7, 0)
  {
    RepeatedSlotStores(8, 200);
    RepeatedSlotStores(7, 0);
    RepeatedSlotStores(7, 200);
    assert [InterfaceMethod(7, 100, 0), InterfaceMethod(7, 200, 0)][1].entry == 200;
  }

  /** Verdict and cached adapter of a table whose second method repeats the slot of the first. */
  function RepeatedSlot(signature: nat, entry: nat): (InterfaceStatus, nat) {
    var ms := [InterfaceMethod(7, 100, 0), InterfaceMethod(signature, entry, 0)];
    (FillVerdict(ms, 1, [7]), Stored(Zeros(1), ms, 2)[0])
  }

  lemma RepeatedSlotStores(signature: nat, entry: nat)
    ensures RepeatedSlot(signature, entry) == (BindOk, entry)
  {
    var ms := [InterfaceMethod(7, 100, 0), InterfaceMethod(signature, entry, 0)];
    assert FirstFor(ms, 0, 0) == 0;
    assert FirstFault(ms, [7], 1) == BindOk;
    StoredLast(Zeros(1), ms, 2, 0, 1);
  }

  // ----- the registry as a value

  /** The latest among the newest implementations of an interface by a type. */
  function Newest(es: seq<Implementation>, concreteType: nat, interfaceId: nat): (r: Option<Implementation>)
    ensures r.None? ==> forall i :: 0 <= i < |es| ==>
      es[i].concreteType != concreteType || es[i].interfaceId != interfaceId
    ensures r.Some? ==> r.value in es && r.value.concreteType == concreteType && r.value.interfaceId == interfaceId
    ensures r.Some? ==> forall i ::
      0 <= i < |es| && es[i].concreteType == concreteType && es[i].interfaceId == interfaceId ==>
        es[i].version <= r.value.version
  {
    if es == [] then None
    else
      var e, best := es[|es| - 1], Newest(es[..|es| - 1], concreteType, interfaceId);
      if e.concreteType != concreteType || e.interfaceId != interfaceId then best
      else if best.None? || e.version >= best.value.version then Some(e)
      else best
  }

  /** The implementation is for that type and interface, and of that version unless the newest is wanted (0). */
  ghost predicate Provides(e: Implementation, concreteType: nat, interfaceId: nat, version: nat) {
    (e.concreteType, e.interfaceId) == (concreteType, interfaceId) && version in {0, e.version}
  }

  /** What a lookup finds, and why it finds nothing. */
  lemma FindExactly(es: seq<Implementation>, concreteType: nat, interfaceId: nat, version: nat)
    ensures match Find(es, concreteType, interfaceId, version)
      case None => forall e :: e in es ==> !Provides(e, concreteType, interfaceId, version)
      case Some(best) =>
        && best in es && Provides(best, concreteType, interfaceId, version)
        && forall e :: e in es && Provides(e, concreteType, interfaceId, version) ==> e.version <= best.version
    ensures NotFoundStatus(es, concreteType, interfaceId) ==
      if exists e :: e in es && Provides(e, concreteType, interfaceId, 0) then VersionMismatch else InterfaceNotFound
  {
    forall e | e in es ensures exists i :: 0 <= i < |es| && es[i] == e {}
    if Newest(es, concreteType, interfaceId).Some? {
      assert Provides(Newest(es, concreteType, interfaceId).value, concreteType, interfaceId, 0);
    }
  }

  predicate Is(e: Implementation, concreteType: nat, interfaceId: nat, version: nat) {
    e.concreteType == concreteType && e.interfaceId == interfaceId && e.version == version
  }

  /** The first implementation with exactly that version. */
  function Exact(es: seq<Implementation>, concreteType: nat, interfaceId: nat,
      version: nat): (r: Option<Implementation>)
    ensures r.Some? ==> r.value in es && Is(r.value, concreteType, interfaceId, version)
    ensures r.None? <==> forall i :: 0 <= i < |es| ==> !Is(es[i], concreteType, interfaceId, version)
  {
    if es == [] then None
    else if Is(es[0], concreteType, interfaceId, version) then Some(es[0])
    else Exact(es[1..], concreteType, interfaceId, version)
  }

  function Find(es: seq<Implementation>, concreteType: nat, interfaceId: nat, version: nat): Option<Implementation> {
    if version == 0 then Newest(es, concreteType, interfaceId) else Exact(es, concreteType, interfaceId, version)
  }

  /** Why nothing was found. */
  function NotFoundStatus(es: seq<Implementation>, concreteType: nat, interfaceId: nat): InterfaceStatus {
    if Newest(es, concreteType, interfaceId).Some? then VersionMismatch else InterfaceNotFound
  }

  /** What binding a contract against the registry should give: a status, and the adapter of every slot. */
  function Binding(es: seq<Implementation>, contract: Contract, concreteType: nat,
      version: nat): (r: (InterfaceStatus, seq<nat>))
    ensures |r.1| == |contract.signatures| && (r.0 != BindOk ==> r.1 == Zeros(|contract.signatures|))
  {
    var impl := Find(es, concreteType, contract.id, version);
    if impl.None? then (NotFoundStatus(es, concreteType, contract.id), Zeros(|contract.signatures|))
    else TableBinding(impl.value.methods, contract)
  }

  function TableBinding(methods: Listed<InterfaceMethod>, contract: Contract): (r: (InterfaceStatus, seq<nat>))
    ensures |r.1| == |contract.signatures| && (r.0 != BindOk ==> r.1 == Zeros(|contract.signatures|))
  {
    var n := |contract.signatures|;
    if !methods.WellFormed() then (InvalidTable, Zeros(n))
    else
      var status := FillVerdict(methods.Items(), n, contract.signatures);
      (status, if status == BindOk then Stored(Zeros(n), methods.Items(), |methods.Items()|) else Zeros(n))
  }
}
