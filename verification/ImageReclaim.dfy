/** `detail::retire_image` (DLL/Object.h) over serialized operations: the index slot
    array of a swapped-out image is retired in the eager class, the image itself in
    the batched class, and the outcome is read off the batched watermark.
 */
module ImageReclaim {
  import opened RcuDomain

  // Each image contributes two retired objects.
  function IndexOf(image: nat): Obj { 2 * image }
  function ImageOf(image: nat): Obj { 2 * image + 1 }

  datatype ReclaimOutcome = NotAttempted | Reclaimed | DeferredBatched | DeferredTimeout

  /** The policy of one operation.  `proven` tells whether a bounded wait proves its grace
      period before the deadline; an unbounded wait always does. */
  datatype Policy = Unbounded | Bounded(proven: bool)

  /** The epoch the image is queued at, and the domain before and after its synchronize call. */
  function ImageToken(d: Shared, p: Policy): nat {
    if p.Bounded? then d.global else d.global + 1
  }

  /** `retire_image` for `image`, with the thread's batch empty and no advancement in progress. */
  function RetireImage(d: Shared, image: nat, p: Policy): Shared {
    var index := Node(IndexOf(image), d.global, Eager);
    var img := Node(ImageOf(image), ImageToken(d, p), Batched);
    match p
    case Bounded(proven) => SynchronizeUntil(d, [index, img], proven)
    case Unbounded => Synchronize(Synchronize(d, [index], true), [img], false)
  }

  /** `retire_image` by a thread with nodes in its batch. A bounded call that finds the advancement taken until its
      deadline has published its batch and no more. */
  function RetireImageFrom(d: Shared, batch: seq<Node>, image: nat, p: Policy): Shared {
    var (d1, b1) := Queue(d, batch, Node(IndexOf(image), d.global, Eager));
    match p
    case Bounded(proven) =>
      var (d2, b2) := Queue(d1, b1, Node(ImageOf(image), d1.global, Batched));
      SynchronizeUntil(d2, b2, proven)
    case Unbounded =>
      var d2 := Synchronize(d1, b1, true);
      var (d3, b3) := Queue(d2, [], Node(ImageOf(image), d2.global, Batched));
      Synchronize(d3, b3, false)
  }

  /** With an empty batch and the advancement free it is `RetireImage`. */
  lemma RetireFromNothing(d: Shared, image: nat, p: Policy)
    requires d.sync == 0
    ensures RetireImageFrom(d, [], image, p) == RetireImage(d, image, p)
  {
    var index := Node(IndexOf(image), d.global, Eager);
    assert [] + [index] == [index];
    assert forall img: Node :: [index] + [img] == [index, img] && [] + [img] == [img];
  }

  // ----- one operation by any thread, whatever its batch holds

  /** Between operations the watermarks are below the epoch. */
  predicate Ahead(d: Shared) {
    1 <= d.global && d.completed < d.global && d.completedEager < d.global && d.syncCount < EPOCH_BATCH
  }

  lemma QueuePublishes(d: Shared, batch: seq<Node>, n: Node)
    ensures var (d', b') := Queue(d, batch, n);
      && d' == d.(retired := d'.retired)
      && (forall m :: m in b' + d'.retired <==> m == n || m in batch || m in d.retired)
  {
  }

  /** A retirement and then `synchronize` for its class: the node is reclaimed when the call is eager or the eighth. */
  lemma SynchronizeReaches(d: Shared, batch: seq<Node>, obj: Obj, eager: bool)
    requires Ahead(d) && d.sync == 0
    ensures var n := Node(obj, d.global, if eager then Eager else Batched);
      var (d1, b1) := Queue(d, batch, n);
      var d', due := Synchronize(d1, b1, eager), eager || d.syncCount + 1 == 8;
      && Ahead(d') && d'.sync == 0 && (forall m :: m in d.reclaimed ==> m in d'.reclaimed)
      && d'.global == (if due then d.global + 1 else d.global)
      && (due ==> n in d'.reclaimed) && (!due ==> n in d'.retired)
      && d'.completed == (if due && !eager then d.global else d.completed)
      && d'.completedEager == (if eager then d.global else d.completedEager)
      && d'.syncCount == (if eager then d.syncCount else if due then 0 else d.syncCount + 1)
  {
    var n := Node(obj, d.global, if eager then Eager else Batched);
    var (d1, b1) := Queue(d, batch, n);
    QueuePublishes(d, batch, n);
    CollectSplitsList(b1 + d1.retired, d.global, n.cls);
  }

  /** An unbounded operation runs the index callback at once, and the image callback with every eighth. */
  lemma UnboundedReaches(d: Shared, batch: seq<Node>, image: nat)
    requires Ahead(d) && d.sync == 0
    ensures var d', due := RetireImageFrom(d, batch, image, Unbounded), d.syncCount + 1 == 8;
      var index, img := Node(2 * image, d.global, Eager), Node(2 * image + 1, d.global + 1, Batched);
      && Ahead(d') && d'.sync == 0 && index in d'.reclaimed && d'.completedEager == d.global
      && (due ==> img in d'.reclaimed && d'.completed == d.global + 1)
      && (!due ==> img in d'.retired && d'.completed == d.completed)
      && d'.global == (if due then d.global + 2 else d.global + 1)
      && d'.syncCount == (if due then 0 else d.syncCount + 1)
  {
    var (d1, b1) := Queue(d, batch, Node(IndexOf(image), d.global, Eager));
    SynchronizeReaches(d, batch, IndexOf(image), true);
    SynchronizeReaches(Synchronize(d1, b1, true), [], ImageOf(image), false);
  }

  /** A bounded operation that is proven in time runs both callbacks, any other none. */
  lemma BoundedReaches(d: Shared, batch: seq<Node>, image: nat, proven: bool)
    requires Ahead(d)
    ensures var d', won := RetireImageFrom(d, batch, image, Bounded(proven)), proven && d.sync == 0;
      var index, img := Node(2 * image, d.global, Eager), Node(2 * image + 1, d.global, Batched);
      && Ahead(d') && d'.sync == d.sync && d'.syncCount == d.syncCount
      && d'.global == (if d.sync == 0 then d.global + 1 else d.global)
      && (won ==> index in d'.reclaimed && img in d'.reclaimed && d'.completed == d'.completedEager == d.global)
      && (!won ==>
            index in d'.retired && img in d'.retired && d'.reclaimed == d.reclaimed &&
            d'.completed == d.completed && d'.completedEager == d.completedEager)
  {
    var index, img := Node(IndexOf(image), d.global, Eager), Node(ImageOf(image), d.global, Batched);
    var (d1, b1) := Queue(d, batch, index);
    QueuePublishes(d, batch, index);
    var (d2, b2) := Queue(d1, b1, img);
    QueuePublishes(d1, b1, img);
    var all := b2 + d2.retired;
    CollectSplitsList(all, d.global, Eager);
    CollectSplitsList(Kept(all, d.global, Eager), d.global, Batched);
  }

  /** What a bounded wait answers when the advancement may be taken. */
  function Effective(d: Shared, p: Policy): Policy {
    if p.Bounded? then Bounded(p.proven && d.sync == 0) else p
  }

  function Outcome(after: Shared, token: nat, p: Policy): ReclaimOutcome {
    if token != 0 && token <= after.completed then Reclaimed
    else if p.Bounded? && !p.proven then DeferredTimeout
    else DeferredBatched
  }

  /** An image that got no node (token 0) is never recorded as reclaimed. */
  lemma UnqueuedImageIsNotReclaimed(after: Shared, p: Policy)
    ensures Outcome(after, 0, p) == if p == Bounded(false) then DeferredTimeout else DeferredBatched
  {
  }

  // ----- serialized runs: operation k retires image k

  function Serve(ops: seq<Policy>): Shared {
    if ops == [] then INITIAL else RetireImage(Serve(ops[..|ops| - 1]), |ops| - 1, ops[|ops| - 1])
  }

  /** How often `synchronize()` was called from operation k on. */
  function Synchronizes(ops: seq<Policy>): nat {
    if ops == [] then 0 else Synchronizes(ops[..|ops| - 1]) + if ops[|ops| - 1] == Unbounded then 1 else 0
  }

  function OfClass(nodes: seq<Node>, cls: ReclaimClass): seq<Node> {
    if nodes == [] then []
    else if nodes[0].cls == cls then [nodes[0]] + OfClass(nodes[1..], cls)
    else OfClass(nodes[1..], cls)
  }

  /** Nodes belong to operations already served and carry the class of their object. */
  predicate WellTyped(n: Node, served: nat) {
    n.obj < 2 * served && n.cls == (if n.obj % 2 == 0 then Eager else Batched)
  }

  /** Between operations: nobody owns the advancement, and waiting nodes are above their
      class's watermark and at or below the epoch. */
  ghost predicate Quiet(d: Shared, served: nat) {
    && 1 <= d.global && d.sync == 0 && d.syncCount < EPOCH_BATCH
    && d.completed < d.global && d.completedEager < d.global
    && (forall n :: n in d.retired ==> WellTyped(n, served) && Watermark(d, n.cls) < n.epoch <= d.global)
  }

  // ----- a collection that finds everything due takes the whole class

  lemma {:induction false} AllDue(nodes: seq<Node>, safe: nat, cls: ReclaimClass)
    requires forall n :: n in nodes ==> n.epoch <= safe
    ensures Taken(nodes, safe, cls) == OfClass(nodes, cls)
    ensures Kept(nodes, safe, cls) == OfClass(nodes, if cls == Eager then Batched else Eager)
  {
    if nodes != [] {
      assert nodes[0] in nodes;
      AllDue(nodes[1..], safe, cls);
    }
  }

  lemma {:induction false} OfClassMembers(nodes: seq<Node>, cls: ReclaimClass)
    ensures forall n :: n in OfClass(nodes, cls) <==> n in nodes && n.cls == cls
  {
    if nodes != [] {
      OfClassMembers(nodes[1..], cls);
      assert nodes == [nodes[0]] + nodes[1..];
    }
  }

  lemma {:induction false} OfClassAgain(nodes: seq<Node>, cls: ReclaimClass, other: ReclaimClass)
    ensures OfClass(OfClass(nodes, cls), other) == if other == cls then OfClass(nodes, cls) else []
  {
    if nodes != [] {
      OfClassAgain(nodes[1..], cls, other);
      OfClassCons(nodes[0], OfClass(nodes[1..], cls), other);
    }
  }

  lemma OfClassCons(n: Node, nodes: seq<Node>, cls: ReclaimClass)
    ensures OfClass([n] + nodes, cls) == (if n.cls == cls then [n] + OfClass(nodes, cls) else OfClass(nodes, cls))
  {
    assert ([n] + nodes)[1..] == nodes;
  }

  function IndexNode(d: Shared, image: nat): Node {
    Node(IndexOf(image), d.global, Eager)
  }

  function ImageNode(d: Shared, image: nat, p: Policy): Node {
    Node(ImageOf(image), ImageToken(d, p), Batched)
  }

  /** The eager and the batched nodes an operation queues or finds waiting. */
  function EagerDue(d: Shared, image: nat): seq<Node> {
    [IndexNode(d, image)] + OfClass(d.retired, Eager)
  }

  function BatchedDue(d: Shared, image: nat, p: Policy): seq<Node> {
    [ImageNode(d, image, p)] + OfClass(d.retired, Batched)
  }

  /** What one operation does, in the four cases that can arise. */
  function Effect(d: Shared, image: nat, p: Policy): Shared {
    var e, b := EagerDue(d, image), BatchedDue(d, image, p);
    match p
    case Bounded(false) =>
      d.(global := d.global + 1, retired := [IndexNode(d, image)] + ([ImageNode(d, image, p)] + d.retired))
    case Bounded(true) =>
      d.(global := d.global + 1, completed := d.global, completedEager := d.global,
         retired := [], reclaimed := d.reclaimed + e + b)
    case Unbounded =>
      if d.syncCount + 1 < EPOCH_BATCH then
        d.(global := d.global + 1, completedEager := d.global, syncCount := d.syncCount + 1,
           retired := b, reclaimed := d.reclaimed + e)
      else
        d.(global := d.global + 2, completed := d.global + 1, completedEager := d.global, syncCount := 0,
           retired := [], reclaimed := d.reclaimed + e + b)
  }

  lemma BatchedOnly(d: Shared, image: nat, p: Policy)
    requires Quiet(d, image)
    ensures var b := BatchedDue(d, image, p);
      && OfClass(b, Batched) == b && OfClass(b, Eager) == []
      && forall n :: n in b ==> n.epoch <= ImageToken(d, p)
  {
    OfClassAgain(d.retired, Batched, Batched);
    OfClassAgain(d.retired, Batched, Eager);
    OfClassCons(ImageNode(d, image, p), OfClass(d.retired, Batched), Batched);
    OfClassCons(ImageNode(d, image, p), OfClass(d.retired, Batched), Eager);
    OfClassMembers(d.retired, Batched);
  }

  lemma BoundedEffect(d: Shared, image: nat, proven: bool)
    requires Quiet(d, image)
    ensures RetireImage(d, image, Bounded(proven)) == Effect(d, image, Bounded(proven))
  {
    var index, img := IndexNode(d, image), ImageNode(d, image, Bounded(proven));
    assert [index, img] + d.retired == [index] + ([img] + d.retired);
    if proven {
      var all := [index] + ([img] + d.retired);
      var b := BatchedDue(d, image, Bounded(proven));
      OfClassCons(index, [img] + d.retired, Eager);
      OfClassCons(index, [img] + d.retired, Batched);
      OfClassCons(img, d.retired, Eager);
      OfClassCons(img, d.retired, Batched);
      AllDue(all, d.global, Eager);
      BatchedOnly(d, image, Bounded(proven));
      AllDue(b, d.global, Batched);
    }
  }

  /** The eager half of an unbounded operation leaves only batched nodes. */
  lemma EagerHalf(d: Shared, image: nat)
    requires Quiet(d, image)
    ensures Synchronize(d, [IndexNode(d, image)], true)
      == d.(global := d.global + 1, completedEager := d.global,
            retired := OfClass(d.retired, Batched), reclaimed := d.reclaimed + EagerDue(d, image))
  {
    AllDue([IndexNode(d, image)] + d.retired, d.global, Eager);
    OfClassCons(IndexNode(d, image), d.retired, Eager);
    OfClassCons(IndexNode(d, image), d.retired, Batched);
  }

  lemma UnboundedEffect(d: Shared, image: nat)
    requires Quiet(d, image)
    ensures RetireImage(d, image, Unbounded) == Effect(d, image, Unbounded)
  {
    EagerHalf(d, image);
    var e, b := Synchronize(d, [IndexNode(d, image)], true), BatchedDue(d, image, Unbounded);
    assert [ImageNode(d, image, Unbounded)] + e.retired == b;
    BatchedOnly(d, image, Unbounded);
    if d.syncCount + 1 >= EPOCH_BATCH {
      AllDue(b, d.global + 1, Batched);
    }
  }

  lemma OperationEffect(d: Shared, image: nat, p: Policy)
    requires Quiet(d, image)
    ensures RetireImage(d, image, p) == Effect(d, image, p)
  {
    match p
    case Bounded(proven) => BoundedEffect(d, image, proven);
    case Unbounded => UnboundedEffect(d, image);
  }

  lemma EffectQuiet(d: Shared, image: nat, p: Policy)
    requires Quiet(d, image)
    ensures Quiet(Effect(d, image, p), image + 1)
  {
    OfClassMembers(d.retired, Batched);
  }

  // ----- every object is waiting or reclaimed, exactly once

  function Count(nodes: seq<Node>, o: Obj): nat {
    if nodes == [] then 0 else (if nodes[0].obj == o then 1 else 0) + Count(nodes[1..], o)
  }

  lemma {:induction false} CountConcat(a: seq<Node>, b: seq<Node>, o: Obj)
    ensures Count(a + b, o) == Count(a, o) + Count(b, o)
  {
    if a == [] { assert a + b == b; } else {
      assert (a + b)[1..] == a[1..] + b;
      CountConcat(a[1..], b, o);
    }
  }

  lemma {:induction false} CountClasses(nodes: seq<Node>, o: Obj)
    ensures Count(OfClass(nodes, Eager), o) + Count(OfClass(nodes, Batched), o) == Count(nodes, o)
  {
    if nodes != [] {
      CountClasses(nodes[1..], o);
      assert nodes == [nodes[0]] + nodes[1..];
      assert Count([nodes[0]], o) == if nodes[0].obj == o then 1 else 0;
      CountConcat([nodes[0]], OfClass(nodes[1..], nodes[0].cls), o);
    }
  }

  lemma {:induction false} CountIn(nodes: seq<Node>, o: Obj)
    ensures Count(nodes, o) > 0 <==> exists n :: n in nodes && n.obj == o
  {
    if nodes != [] {
      CountIn(nodes[1..], o);
      assert nodes == [nodes[0]] + nodes[1..];
    }
  }

  predicate CompleteAt(d: Shared, served: nat, o: Obj) {
    Count(d.retired, o) + Count(d.reclaimed, o) == if o < 2 * served then 1 else 0
  }

  ghost predicate Complete(d: Shared, served: nat) {
    forall o: Obj :: CompleteAt(d, served, o)
  }

  lemma EffectCompleteAt(d: Shared, image: nat, p: Policy, o: Obj)
    requires CompleteAt(d, image, o)
    ensures CompleteAt(Effect(d, image, p), image + 1, o)
  {
    var e, b := EagerDue(d, image), BatchedDue(d, image, p);
    CountClasses(d.retired, o);
    CountConcat([IndexNode(d, image)], OfClass(d.retired, Eager), o);
    CountConcat([ImageNode(d, image, p)], OfClass(d.retired, Batched), o);
    CountConcat([IndexNode(d, image)], [ImageNode(d, image, p)] + d.retired, o);
    CountConcat([ImageNode(d, image, p)], d.retired, o);
    CountConcat(d.reclaimed, e, o);
    CountConcat(d.reclaimed + e, b, o);
  }

  // ----- an image's index is reclaimed before the image

  /** Every image in the order of reclamation has its index before it. */
  ghost predicate IndexFirst(done: seq<Node>) {
    forall j :: 0 <= j < |done| && done[j].obj % 2 == 1 ==> Count(done[..j], done[j].obj - 1) > 0
  }

  lemma IndexFirstExtends(done: seq<Node>, more: seq<Node>)
    requires IndexFirst(done)
    requires forall n :: n in more ==> n.obj % 2 == 0 || Count(done, n.obj - 1) > 0
    ensures IndexFirst(done + more)
  {
    var all := done + more;
    forall j | 0 <= j < |all| && all[j].obj % 2 == 1 ensures Count(all[..j], all[j].obj - 1) > 0 {
      if j < |done| {
        assert all[..j] == done[..j];
      } else {
        assert all[j] in more && all[..j] == done + more[..j - |done|];
        CountConcat(done, more[..j - |done|], all[j].obj - 1);
      }
    }
  }

  /** When an operation reclaims an image, its index is already reclaimed or goes in the same pass, eager first. */
  lemma IndexIsEarlier(d: Shared, image: nat, k: nat)
    requires Quiet(d, image) && Complete(d, image) && k <= image
    ensures Count(d.reclaimed + EagerDue(d, image), IndexOf(k)) > 0
  {
    var o := IndexOf(k);
    var e := EagerDue(d, image);
    CountConcat(d.reclaimed, e, o);
    if Count(d.reclaimed, o) == 0 {
      if k < image {
        assert CompleteAt(d, image, o);
        CountIn(d.retired, o);
        OfClassMembers(d.retired, Eager);
        var n :| n in d.retired && n.obj == o;
        assert n in e;
      } else {
        assert e[0].obj == o;
      }
      CountIn(e, o);
    }
  }

  lemma EffectIndexFirst(d: Shared, image: nat, p: Policy)
    requires Quiet(d, image) && Complete(d, image) && IndexFirst(d.reclaimed)
    ensures IndexFirst(Effect(d, image, p).reclaimed)
  {
    var e, b := EagerDue(d, image), BatchedDue(d, image, p);
    OfClassMembers(d.retired, Eager);
    OfClassMembers(d.retired, Batched);
    IndexFirstExtends(d.reclaimed, e);
    forall n | n in b ensures n.obj % 2 == 0 || Count(d.reclaimed + e, n.obj - 1) > 0 {
      if n.obj % 2 == 1 { IndexIsEarlier(d, image, (n.obj - 1) / 2); }
    }
    IndexFirstExtends(d.reclaimed + e, b);
  }

  // ----- the batching bound

  predicate Waits(d: Shared, o: Obj) {
    Count(d.retired, o) > 0
  }

  predicate Ran(d: Shared, o: Obj) {
    Count(d.reclaimed, o) > 0
  }

  /** An image still waiting has seen no more synchronize() calls than the batch counter shows. */
  ghost predicate WithinBatch(d: Shared, ops: seq<Policy>) {
    forall k: nat :: k < |ops| && Waits(d, ImageOf(k)) ==> Synchronizes(ops[k..]) <= d.syncCount
  }

  /** What waits after an operation waited before it, or is the image just retired. */
  lemma StillWaits(d: Shared, image: nat, p: Policy, k: nat)
    requires k < image && Waits(Effect(d, image, p), ImageOf(k))
    ensures Waits(d, ImageOf(k))
  {
    var d' := Effect(d, image, p);
    CountIn(d'.retired, ImageOf(k));
    OfClassMembers(d.retired, Batched);
    var n :| n in d'.retired && n.obj == ImageOf(k);
    assert n in d.retired;
    CountIn(d.retired, ImageOf(k));
  }

  lemma EffectWithinBatch(d: Shared, ops: seq<Policy>)
    requires ops != [] && WithinBatch(d, ops[..|ops| - 1])
    ensures WithinBatch(Effect(d, |ops| - 1, ops[|ops| - 1]), ops)
  {
    var image, p := |ops| - 1, ops[|ops| - 1];
    var d' := Effect(d, image, p);
    forall k | 0 <= k < |ops| && Waits(d', ImageOf(k)) ensures Synchronizes(ops[k..]) <= d'.syncCount {
      var tail := ops[k..];
      assert tail[..|tail| - 1] == ops[..image][k..] && tail[|tail| - 1] == p;
      if k < image {
        StillWaits(d, image, p, k);
      }
    }
  }

  // ----- main results

  ghost predicate Served(ops: seq<Policy>) {
    var d := Serve(ops);
    Quiet(d, |ops|) && Complete(d, |ops|) && IndexFirst(d.reclaimed) && WithinBatch(d, ops)
  }

  lemma {:induction false} ServedAlways(ops: seq<Policy>)
    ensures Served(ops)
  {
    if ops != [] {
      var before, image, p := ops[..|ops| - 1], |ops| - 1, ops[|ops| - 1];
      ServedAlways(before);
      var d := Serve(before);
      OperationEffect(d, image, p);
      EffectQuiet(d, image, p);
      var d', served := Effect(d, image, p), |ops|;
      forall o: Obj ensures CompleteAt(d', served, o) { EffectCompleteAt(d, image, p, o); }
      EffectIndexFirst(d, image, p);
      EffectWithinBatch(d, ops);
    }
  }

  /** After any serialized run, the outcome an operation reports is `Reclaimed` exactly when the
      callback of its image has run, and otherwise names the reason. */
  lemma OutcomeIsHonest(before: seq<Policy>, p: Policy)
    ensures var d, d' := Serve(before), RetireImage(Serve(before), |before|, p);
      var outcome := Outcome(d', ImageToken(d, p), p);
      && (outcome == Reclaimed <==> Ran(d', ImageOf(|before|)))
      && (outcome == DeferredTimeout <==> p == Bounded(false))
      && (outcome == DeferredBatched <==> p == Unbounded && d.syncCount + 1 < EPOCH_BATCH)
  {
    ServedAlways(before);
    OperationEffect(Serve(before), |before|, p);
    EffectIsHonest(Serve(before), |before|, p);
  }

  lemma EffectIsHonest(d: Shared, image: nat, p: Policy)
    requires Quiet(d, image) && Complete(d, image)
    ensures var d' := Effect(d, image, p);
      var outcome := Outcome(d', ImageToken(d, p), p);
      && (outcome == Reclaimed <==> Ran(d', ImageOf(image)))
      && (outcome == DeferredTimeout <==> p == Bounded(false))
      && (outcome == DeferredBatched <==> p == Unbounded && d.syncCount + 1 < EPOCH_BATCH)
  {
    var o := ImageOf(image);
    assert CompleteAt(d, image, o);
    CountConcat(d.reclaimed, EagerDue(d, image), o);
    CountConcat(d.reclaimed + EagerDue(d, image), BatchedDue(d, image, p), o);
    assert Count(BatchedDue(d, image, p), o) > 0;
    OfClassMembers(d.retired, Eager);
    CountIn(EagerDue(d, image), o);
  }

  /** An image that still waits has seen fewer than EPOCH_BATCH calls of synchronize() since it was retired. */
  lemma WaitIsBounded(ops: seq<Policy>, k: nat)
    requires k < |ops| && Synchronizes(ops[k..]) >= EPOCH_BATCH
    ensures Ran(Serve(ops), ImageOf(k)) && !Waits(Serve(ops), ImageOf(k))
  {
    ServedAlways(ops);
    assert CompleteAt(Serve(ops), |ops|, ImageOf(k));
  }

  // ----- the order of the callbacks, by position

  /** The callback of `o` is among the first `k`. */
  predicate Seen(done: seq<Node>, k: nat, o: Obj)
    requires k <= |done|
  {
    exists i :: 0 <= i < k && done[i].obj == o
  }

  lemma CountSeen(done: seq<Node>, k: nat, o: Obj)
    requires k <= |done|
    ensures Seen(done, k, o) <==> Count(done[..k], o) > 0
  {
    CountIn(done[..k], o);
    if Seen(done, k, o) {
      var i :| 0 <= i < k && done[i].obj == o;
      assert done[..k][i] == done[i];
    }
  }

  lemma TwicePositions(done: seq<Node>, i: nat, j: nat)
    requires i < j < |done| && done[i].obj == done[j].obj
    ensures Count(done, done[i].obj) >= 2
  {
    var o := done[i].obj;
    assert done == done[..j] + done[j..];
    CountConcat(done[..j], done[j..], o);
    CountSeen(done, j, o);
    assert done[j..][0] == done[j];
  }

  /** In every serialized run no callback runs twice, and each image's index callback runs before the image's own. */
  ghost predicate WellOrdered(done: seq<Node>) {
    && (forall i, j :: 0 <= i < j < |done| ==> done[i].obj != done[j].obj)
    && (forall j :: 0 <= j < |done| && done[j].obj % 2 == 1 ==> Seen(done, j, done[j].obj - 1))
  }

  lemma IndexReclaimedFirst(ops: seq<Policy>)
    ensures WellOrdered(Serve(ops).reclaimed)
  {
    ServedAlways(ops);
    OnceEach(Serve(ops), |ops|);
    IndexBeforeImage(Serve(ops).reclaimed);
  }

  lemma OnceEach(d: Shared, served: nat)
    requires Complete(d, served)
    ensures forall i, j :: 0 <= i < j < |d.reclaimed| ==> d.reclaimed[i].obj != d.reclaimed[j].obj
  {
    forall i, j | 0 <= i < j < |d.reclaimed| ensures d.reclaimed[i].obj != d.reclaimed[j].obj {
      assert CompleteAt(d, served, d.reclaimed[i].obj);
      if d.reclaimed[i].obj == d.reclaimed[j].obj {
        TwicePositions(d.reclaimed, i, j);
      }
    }
  }

  lemma IndexBeforeImage(done: seq<Node>)
    requires IndexFirst(done)
    ensures forall j :: 0 <= j < |done| && done[j].obj % 2 == 1 ==> Seen(done, j, done[j].obj - 1)
  {
    forall j | 0 <= j < |done| && done[j].obj % 2 == 1 ensures Seen(done, j, done[j].obj - 1) {
      CountSeen(done, j, done[j].obj - 1);
    }
  }

  // ----- the effect of the callbacks on slot buffers and images

  /** `destroyed`: images whose index has given up its buffer; `deleted`: images that are gone.
      `fault` is set when a callback touches a deleted image. */
  datatype Heap = Heap(destroyed: set<nat>, deleted: set<nat>, released: multiset<nat>, fault: bool)

  /** `reclaim_index` destroys the index; `reclaim_image` destroys it again (a no-op once its
      buffer is gone), unmaps the module and deletes the image. */
  function Callback(h: Heap, o: Obj): Heap {
    var image := o / 2;
    Heap(
      h.destroyed + {image},
      if o % 2 == 1 then h.deleted + {image} else h.deleted,
      if image in h.destroyed then h.released else h.released + multiset{image},
      h.fault || image in h.deleted)
  }

  /** The first `k` callbacks, in order. */
  function Callbacks(done: seq<Node>, k: nat): Heap
    requires k <= |done|
  {
    if k == 0 then Heap({}, {}, multiset{}, false) else Callback(Callbacks(done, k - 1), done[k - 1].obj)
  }

  /** The heap after `k` callbacks, as far as one image is concerned. */
  ghost predicate Tracks(h: Heap, done: seq<Node>, k: nat, image: nat)
    requires k <= |done|
  {
    && !h.fault
    && (image in h.deleted <==> Seen(done, k, ImageOf(image)))
    && (image in h.destroyed <==> Seen(done, k, IndexOf(image)))
    && h.released[image] == if Seen(done, k, IndexOf(image)) then 1 else 0
  }

  /** The next callback is new; an index comes before its image and an image after its index. */
  lemma NextCallback(done: seq<Node>, k: nat)
    requires WellOrdered(done) && k < |done|
    ensures var o := done[k].obj;
      && !Seen(done, k, o)
      && (if o % 2 == 1 then o == ImageOf(o / 2) && Seen(done, k, IndexOf(o / 2))
          else o == IndexOf(o / 2) && !Seen(done, k, ImageOf(o / 2)))
  {
  }

  lemma CallbackTracks(h: Heap, done: seq<Node>, k: nat, image: nat)
    requires WellOrdered(done) && k < |done|
    requires Tracks(h, done, k, image) && Tracks(h, done, k, done[k].obj / 2)
    ensures Tracks(Callback(h, done[k].obj), done, k + 1, image)
  {
    var o := done[k].obj;
    NextCallback(done, k);
    SeenStep(done, k + 1, ImageOf(image));
    SeenStep(done, k + 1, IndexOf(image));
    if image != o / 2 {
      assert o != IndexOf(image) && o != ImageOf(image);
    }
  }

  lemma {:induction false} CallbacksTrack(done: seq<Node>, k: nat, image: nat)
    requires WellOrdered(done) && k <= |done|
    ensures Tracks(Callbacks(done, k), done, k, image)
  {
    if k != 0 {
      CallbacksTrack(done, k - 1, image);
      CallbacksTrack(done, k - 1, done[k - 1].obj / 2);
      CallbackTracks(Callbacks(done, k - 1), done, k - 1, image);
    }
  }

  lemma SeenStep(done: seq<Node>, k: nat, o: Obj)
    requires 0 < k <= |done|
    ensures Seen(done, k, o) <==> Seen(done, k - 1, o) || done[k - 1].obj == o
  {
  }

  /** After any serialized run no callback has touched a deleted image, and each slot buffer has been
      released exactly once or, while its index still waits, not at all. */
  lemma BuffersReleasedOnce(ops: seq<Policy>, image: nat)
    requires image < |ops|
    ensures var d := Serve(ops);
      var h := Callbacks(d.reclaimed, |d.reclaimed|);
      && !h.fault
      && h.released[image] == (if Waits(d, IndexOf(image)) then 0 else 1)
      && (image in h.deleted <==> !Waits(d, ImageOf(image)))
  {
    var d := Serve(ops);
    ServedAlways(ops);
    IndexReclaimedFirst(ops);
    CallbacksTrack(d.reclaimed, |d.reclaimed|, image);
    assert d.reclaimed[..|d.reclaimed|] == d.reclaimed;
    CountSeen(d.reclaimed, |d.reclaimed|, IndexOf(image));
    CountSeen(d.reclaimed, |d.reclaimed|, ImageOf(image));
    assert CompleteAt(d, |ops|, IndexOf(image)) && CompleteAt(d, |ops|, ImageOf(image));
  }
}
