/** The state of `rcu::Domain` that its writer lock protects, and the effect of
    each writer-lock section on it.

    A retired node keeps the epoch it was queued at and one of two reclaim
    classes.  `retired` is the published list in list order, `reclaimed` the
    nodes whose callback has run, in the order in which the callbacks ran.
 */
module RcuDomain {

  type Obj = nat

  const EPOCH_BATCH: nat := 8      // SKL_ABIX_RCU_EPOCH_BATCH
  const BATCH_PUBLISH: nat := 64   // SKL_ABIX_RCU_BATCH_PUBLISH

  datatype ReclaimClass = Batched | Eager

  datatype Node = Node(obj: Obj, epoch: nat, cls: ReclaimClass)

  datatype Shared = Shared(
    global: nat,
    completed: nat,
    completedEager: nat,
    sync: nat,
    syncCount: nat,
    retired: seq<Node>,
    reclaimed: seq<Node>)

  const INITIAL := Shared(1, 0, 0, 0, 0, [], [])

  function Watermark(d: Shared, cls: ReclaimClass): nat {
    if cls == Eager then d.completedEager else d.completed
  }

  predicate Due(n: Node, safe: nat, cls: ReclaimClass) {
    n.cls == cls && n.epoch <= safe
  }

  /** The nodes that a collection of `cls` up to `safe` leaves in the list, in list order. */
  function Kept(nodes: seq<Node>, safe: nat, cls: ReclaimClass): seq<Node> {
    if nodes == [] then []
    else (if Due(nodes[0], safe, cls) then [] else [nodes[0]]) + Kept(nodes[1..], safe, cls)
  }

  /** The nodes it takes out, in the order their callbacks run. */
  function Taken(nodes: seq<Node>, safe: nat, cls: ReclaimClass): seq<Node> {
    if nodes == [] then []
    else (if Due(nodes[0], safe, cls) then [nodes[0]] else []) + Taken(nodes[1..], safe, cls)
  }

  /** `publish_local_batch_locked`: the batch is spliced in front of the list. */
  function Publish(d: Shared, batch: seq<Node>): Shared {
    d.(retired := batch + d.retired)
  }

  /** `collect`: each class has its own watermark, and a collection that would not raise it does nothing. */
  function Collect(d: Shared, safe: nat, cls: ReclaimClass): Shared {
    if safe <= Watermark(d, cls) then d
    else
      var taken := d.reclaimed + Taken(d.retired, safe, cls);
      var kept := Kept(d.retired, safe, cls);
      if cls == Eager then d.(completedEager := safe, retired := kept, reclaimed := taken)
      else d.(completed := safe, retired := kept, reclaimed := taken)
  }

  /** Both classes, eager first: what a proven bounded wait and `try_collect` do. */
  function CollectBoth(d: Shared, safe: nat): Shared {
    Collect(Collect(d, safe, Eager), safe, Batched)
  }

  /** The epoch advancement: the caller owns it until it clears `sync`. */
  function Advance(d: Shared): Shared {
    d.(global := d.global + 1, sync := d.global + 1)
  }

  function ClearSync(d: Shared): Shared {
    d.(sync := 0)
  }

  /** Outcome of the first lock section of `synchronize_impl`. */
  datatype SyncStart = Contended | NotDue | Advanced(prior: nat)

  function StartOutcome(d: Shared, eager: bool): SyncStart {
    if d.sync != 0 then Contended
    else if !eager && d.syncCount + 1 < EPOCH_BATCH then NotDue
    else Advanced(d.global)
  }

  /** First lock section of `synchronize_impl` (Domain.h:499-532). */
  function SyncBegin(d: Shared, batch: seq<Node>, eager: bool): Shared {
    var p := Publish(d, batch);
    match StartOutcome(p, eager)
    case Contended => p
    case NotDue => p.(syncCount := p.syncCount + 1)
    case Advanced(_) => Advance(if eager then p else p.(syncCount := 0))
  }

  /** Last lock section of `synchronize_impl` (Domain.h:536-539). */
  function SyncEnd(d: Shared, prior: nat, eager: bool): Shared {
    ClearSync(Collect(d, prior, if eager then Eager else Batched))
  }

  /** `begin_advance`. */
  function BeginAdvance(d: Shared, batch: seq<Node>): Shared {
    var p := Publish(d, batch);
    if p.sync != 0 then p else Advance(p)
  }

  /** `end_advance`. */
  function EndAdvance(d: Shared, prior: nat, proven: bool): Shared {
    ClearSync(if proven then CollectBoth(d, prior) else d)
  }

  /** `synchronize_impl` as one operation; when another thread owns the advancement the batch is published and the call
      waits for the owner. */
  function Synchronize(d: Shared, batch: seq<Node>, eager: bool): Shared {
    var b := SyncBegin(d, batch, eager);
    if StartOutcome(d, eager).Advanced? then SyncEnd(b, d.global, eager) else b
  }

  /** `synchronize_until` as one operation; a call that cannot get the advancement before its deadline has published its
      batch and no more. */
  function SynchronizeUntil(d: Shared, batch: seq<Node>, proven: bool): Shared {
    var b := BeginAdvance(d, batch);
    if d.sync != 0 then b else EndAdvance(b, d.global, proven)
  }

  /** `retire_impl`: the node joins its thread's batch, and a full batch is published. */
  function Queue(d: Shared, batch: seq<Node>, n: Node): (Shared, seq<Node>) {
    if |batch| + 1 >= BATCH_PUBLISH then (Publish(d, batch + [n]), []) else (d, batch + [n])
  }

  // ----- what a collection does to the list

  /** Membership form: exactly the due nodes leave, everything else stays. */
  lemma {:induction false} CollectSplitsList(nodes: seq<Node>, safe: nat, cls: ReclaimClass)
    ensures multiset(nodes) == multiset(Kept(nodes, safe, cls)) + multiset(Taken(nodes, safe, cls))
    ensures forall n :: n in Kept(nodes, safe, cls) <==> n in nodes && !(n.cls == cls && n.epoch <= safe)
    ensures forall n :: n in Taken(nodes, safe, cls) <==> n in nodes && n.cls == cls && n.epoch <= safe
  {
    if nodes != [] {
      assert nodes == [nodes[0]] + nodes[1..];
      CollectSplitsList(nodes[1..], safe, cls);
    }
  }

  lemma {:induction false} KeptConcat(a: seq<Node>, b: seq<Node>, safe: nat, cls: ReclaimClass)
    ensures Kept(a + b, safe, cls) == Kept(a, safe, cls) + Kept(b, safe, cls)
  {
    if a == [] {
      assert a + b == b;
    } else {
      assert (a + b)[0] == a[0] && (a + b)[1..] == a[1..] + b;
      KeptConcat(a[1..], b, safe, cls);
      var head := if Due(a[0], safe, cls) then [] else [a[0]];
      var x, y := Kept(a[1..], safe, cls), Kept(b, safe, cls);
      assert head + (x + y) == (head + x) + y;
    }
  }

  lemma {:induction false} TakenConcat(a: seq<Node>, b: seq<Node>, safe: nat, cls: ReclaimClass)
    ensures Taken(a + b, safe, cls) == Taken(a, safe, cls) + Taken(b, safe, cls)
  {
    if a == [] {
      assert a + b == b;
    } else {
      assert (a + b)[0] == a[0] && (a + b)[1..] == a[1..] + b;
      TakenConcat(a[1..], b, safe, cls);
      var head := if Due(a[0], safe, cls) then [a[0]] else [];
      var x, y := Taken(a[1..], safe, cls), Taken(b, safe, cls);
      assert head + (x + y) == (head + x) + y;
    }
  }

  /** Order form: what is kept and what is taken each come in list order. */
  lemma CollectKeepsOrder(a: seq<Node>, b: seq<Node>, safe: nat, cls: ReclaimClass)
    ensures Kept(a + b, safe, cls) == Kept(a, safe, cls) + Kept(b, safe, cls)
    ensures Taken(a + b, safe, cls) == Taken(a, safe, cls) + Taken(b, safe, cls)
  {
    KeptConcat(a, b, safe, cls);
    TakenConcat(a, b, safe, cls);
  }

  /** What a collection of one or both classes up to `safe` amounts to: watermarks only rise,
      and at most to `safe`; the list only loses nodes; only nodes due at `safe` are reclaimed. */
  ghost predicate CollectedTo(d: Shared, c: Shared, safe: nat) {
    && c.global == d.global && c.sync == d.sync && c.syncCount == d.syncCount
    && d.completed <= c.completed && (c.completed == d.completed || c.completed == safe)
    && d.completedEager <= c.completedEager && (c.completedEager == d.completedEager || c.completedEager == safe)
    && (forall n :: n in c.retired ==> n in d.retired)
    && (forall n :: n in c.reclaimed ==> n in d.reclaimed || (n in d.retired && n.epoch <= safe))
  }

  /** No node is lost or duplicated. */
  ghost predicate Conserved(d: Shared, c: Shared) {
    multiset(c.retired) + multiset(c.reclaimed) == multiset(d.retired) + multiset(d.reclaimed)
  }

  lemma CollectReaches(d: Shared, safe: nat, cls: ReclaimClass)
    ensures CollectedTo(d, Collect(d, safe, cls), safe) && Conserved(d, Collect(d, safe, cls))
    ensures safe <= Watermark(Collect(d, safe, cls), cls)
  {
    CollectSplitsList(d.retired, safe, cls);
  }

  lemma CollectBothReaches(d: Shared, safe: nat)
    ensures CollectedTo(d, CollectBoth(d, safe), safe) && Conserved(d, CollectBoth(d, safe))
    ensures safe <= CollectBoth(d, safe).completed && safe <= CollectBoth(d, safe).completedEager
  {
    CollectReaches(d, safe, Eager);
    CollectReaches(Collect(d, safe, Eager), safe, Batched);
  }
}
