/** `dll::Control` and the load, reload and unload paths of `dll::Object`, on the
    linked-list domain.  What another thread decides (the writer lock taken before its
    deadline, a grace period proven before its deadline) is a parameter.
 */
module DllObject {
  import opened Options
  import opened RcuDomain
  import opened RcuList
  import opened ImageReclaim

  datatype ControlState = Active | Zombie

  datatype CallError = NoError | StaleHandle | LoadFailed | LockTimeout

  class Control {
    var image: Option<nat>
    var state: ControlState
    var reclaimTimeoutMs: nat
    var lastReclaim: ReclaimOutcome

    constructor ()
      ensures image == None && state == Zombie && reclaimTimeoutMs == 0 && lastReclaim == NotAttempted
    {
      image, state, reclaimTimeoutMs, lastReclaim := None, Zombie, 0, NotAttempted;
    }

    /** A timeout of 0 means an unbounded wait. */
    function PolicyFor(proven: bool): (p: Policy)
      reads this
      ensures p == Unbounded <==> reclaimTimeoutMs == 0
      ensures reclaimTimeoutMs > 0 ==> p == Bounded(proven)
    {
      if reclaimTimeoutMs != 0 then Bounded(proven) else Unbounded
    }
  }

  /** The domain and the calling thread's batch are well formed. */
  ghost predicate Ready(dom: Domain, batch: RetiredBatch)
    reads dom, dom.repr, batch, batch.repr
  {
    dom.Valid() && batch.Valid() && batch.repr !! dom.repr
  }

  /** An unbounded call waits for another owner of the advancement; a bounded one gives up. */
  ghost predicate Proceeds(dom: Domain, c: Control)
    reads dom, c
  {
    dom.sync == 0 || c.reclaimTimeoutMs != 0
  }

  /** One bounded wait covers both classes. */
  method RetireBounded(dom: Domain, batch: RetiredBatch, image: nat, proven: bool) returns (token: nat, inTime: bool)
    requires Ready(dom, batch)
    modifies dom, dom.repr, batch, batch.repr
    ensures Ready(dom, batch) && batch.spine == [] && dom.sync == old(dom.sync)
    ensures fresh(dom.repr + batch.repr - old(dom.repr) - old(batch.repr))
    ensures token == old(dom.global) && inTime == (proven && old(dom.sync) == 0)
    ensures dom.View() == RetireImageFrom(old(dom.View()), old(Values(batch.spine)), image, Bounded(proven))
  {
    var _ := dom.RetireImpl(batch, IndexOf(image), Eager, true);
    token := dom.RetireImpl(batch, ImageOf(image), Batched, true);
    inTime := dom.SynchronizeUntil(batch, proven);
  }

  /** The index is synchronized eagerly, the image on the batched schedule. */
  method RetireUnbounded(dom: Domain, batch: RetiredBatch, image: nat) returns (token: nat)
    requires Ready(dom, batch) && dom.sync == 0
    modifies dom, dom.repr, batch, batch.repr
    ensures Ready(dom, batch) && batch.spine == [] && dom.sync == 0 && token == old(dom.global) + 1
    ensures fresh(dom.repr + batch.repr - old(dom.repr) - old(batch.repr))
    ensures dom.View() == RetireImageFrom(old(dom.View()), old(Values(batch.spine)), image, Unbounded)
  {
    var _ := RetireAndSynchronize(dom, batch, IndexOf(image), Eager, true);
    token := RetireAndSynchronize(dom, batch, ImageOf(image), Batched, false);
  }

  /** One retirement, followed by a synchronize call for its class. */
  method RetireAndSynchronize(dom: Domain, batch: RetiredBatch, obj: Obj, cls: ReclaimClass, eager: bool)
      returns (token: nat)
    requires Ready(dom, batch) && dom.sync == 0
    modifies dom, dom.repr, batch, batch.repr
    ensures Ready(dom, batch) && batch.spine == [] && batch.repr == {} && dom.sync == 0 && token == old(dom.global)
    ensures fresh(dom.repr - old(dom.repr) - old(batch.repr))
    ensures var (d, b) := Queue(old(dom.View()), old(Values(batch.spine)), Node(obj, token, cls));
      dom.View() == RcuDomain.Synchronize(d, b, eager)
  {
    token := dom.RetireImpl(batch, obj, cls, true);
    dom.Synchronize(batch, eager);
  }

  /** What one operation with that timeout makes of an image (the odd object) and its index (the even one), and the
      outcome it has to record. */
  ghost predicate Settled(d: Shared, d': Shared, image: nat, timeoutMs: nat, proven: bool, outcome: ReclaimOutcome) {
    var index, img := Node(2 * image, d.global, Eager), Node(2 * image + 1, d.global, Batched);
    var later := Node(2 * image + 1, d.global + 1, Batched);
    Ahead(d) ==>
      && Ahead(d')
      && (timeoutMs == 0 && d.sync == 0 ==> index in d'.reclaimed && d'.completedEager == d.global)
      && (timeoutMs == 0 && d.sync == 0 && d.syncCount + 1 == 8 ==>
            later in d'.reclaimed && d'.completed == d.global + 1 && d'.syncCount == 0 && outcome == Reclaimed)
      && (timeoutMs == 0 && d.sync == 0 && d.syncCount + 1 != 8 ==>
            later in d'.retired && d'.completed == d.completed && d'.syncCount == d.syncCount + 1
            && outcome == DeferredBatched)
      && (timeoutMs != 0 && proven && d.sync == 0 ==>
            index in d'.reclaimed && img in d'.reclaimed && d'.completed == d'.completedEager == d.global
            && outcome == Reclaimed)
      && (timeoutMs != 0 && !(proven && d.sync == 0) ==>
            index in d'.retired && img in d'.retired && d'.reclaimed == d.reclaimed
            && d'.completed == d.completed && d'.completedEager == d.completedEager && outcome == DeferredTimeout)
  }

  lemma SettledBy(d: Shared, batch: seq<Node>, image: nat, c: Control, proven: bool)
    requires d.sync == 0 || c.reclaimTimeoutMs != 0
    ensures var d' := RetireImageFrom(d, batch, image, c.PolicyFor(proven));
      Settled(d, d', image, c.reclaimTimeoutMs, proven, Recorded(d', d, c.PolicyFor(proven)))
  {
    if Ahead(d) {
      if c.reclaimTimeoutMs == 0 {
        UnboundedReaches(d, batch, image);
      } else {
        BoundedReaches(d, batch, image, proven);
      }
    }
  }

  method RetireImage(dom: Domain, batch: RetiredBatch, c: Control, image: nat, proven: bool)
    requires Ready(dom, batch) && Proceeds(dom, c)
    modifies dom, dom.repr, batch, batch.repr, c`lastReclaim
    ensures Ready(dom, batch) && batch.spine == [] && dom.sync == old(dom.sync)
    ensures fresh(dom.repr + batch.repr - old(dom.repr) - old(batch.repr))
    ensures dom.View() == RetireImageFrom(old(dom.View()), old(Values(batch.spine)), image, c.PolicyFor(proven))
    ensures c.lastReclaim == Recorded(dom.View(), old(dom.View()), c.PolicyFor(proven))
    ensures Settled(old(dom.View()), dom.View(), image, c.reclaimTimeoutMs, proven, c.lastReclaim)
  {
    SettledBy(dom.View(), Values(batch.spine), image, c, proven);
    var bounded := c.reclaimTimeoutMs != 0;
    var token: nat;
    var inTime := true;
    if bounded {
      token, inTime := RetireBounded(dom, batch, image, proven);
    } else {
      token := RetireUnbounded(dom, batch, image);
    }
    if token != 0 && token <= dom.completed {
      c.lastReclaim := Reclaimed;
    } else if bounded && !inTime {
      c.lastReclaim := DeferredTimeout;
    } else {
      c.lastReclaim := DeferredBatched;
    }
  }

  /** The outcome recorded by an operation that took the domain from `before` to `after`. */
  function Recorded(after: Shared, before: Shared, p: Policy): ReclaimOutcome {
    Outcome(after, ImageToken(before, p), Effective(before, p))
  }

  /** `publish_image`: swap under the writer lock, retire the previous image outside it.  Without a
      previous image nothing is retired and the recorded outcome stays what it was. */
  method PublishImage(dom: Domain, batch: RetiredBatch, c: Control, loadedImage: nat, locked: bool, proven: bool)
      returns (ok: bool)
    requires Ready(dom, batch) && Proceeds(dom, c) && (c.reclaimTimeoutMs == 0 ==> locked)
    modifies dom, dom.repr, batch, batch.repr, c`image, c`state, c`lastReclaim
    ensures Ready(dom, batch) && dom.sync == old(dom.sync)
    ensures fresh(dom.repr + batch.repr - old(dom.repr) - old(batch.repr))
    ensures ok == locked
    ensures !ok ==> c.image == old(c.image) && c.state == old(c.state)
    ensures ok ==> c.image == Some(loadedImage) && c.state == Active
    ensures if ok && old(c.image).Some? then
        dom.View() == RetireImageFrom(
            old(dom.View()), old(Values(batch.spine)), old(c.image).value, c.PolicyFor(proven))
        && c.lastReclaim == Recorded(dom.View(), old(dom.View()), c.PolicyFor(proven)) && batch.spine == []
        && Settled(
            old(dom.View()), dom.View(), old(c.image).value, c.reclaimTimeoutMs, proven, c.lastReclaim)
      else
        dom.View() == old(dom.View()) && batch.spine == old(batch.spine) && c.lastReclaim == old(c.lastReclaim)
  {
    if !locked { return false; }
    var previous := c.image;
    c.image := Some(loadedImage);
    c.state := Active;
    if previous.Some? { RetireImage(dom, batch, c, previous.value, proven); }
    return true;
  }

  /** `load` and `reload`: `loaded` is the image the loader produced, if any. */
  method Load(dom: Domain, batch: RetiredBatch, c: Control, loaded: Option<nat>, locked: bool, proven: bool)
    returns (ok: bool, error: CallError)
    requires Ready(dom, batch) && Proceeds(dom, c) && (c.reclaimTimeoutMs == 0 ==> locked)
    modifies dom, dom.repr, batch, batch.repr, c`image, c`state, c`lastReclaim
    ensures Ready(dom, batch) && dom.sync == old(dom.sync)
    ensures fresh(dom.repr + batch.repr - old(dom.repr) - old(batch.repr))
    ensures error == (if loaded == None then LoadFailed else if !locked then LockTimeout else NoError)
    ensures ok == (error == NoError)
    ensures !ok ==> c.image == old(c.image) && c.state == old(c.state)
    ensures ok ==> c.image == loaded && c.state == Active
    ensures if ok && old(c.image).Some? then
        dom.View() == RetireImageFrom(
            old(dom.View()), old(Values(batch.spine)), old(c.image).value, c.PolicyFor(proven))
        && c.lastReclaim == Recorded(dom.View(), old(dom.View()), c.PolicyFor(proven)) && batch.spine == []
        && Settled(
            old(dom.View()), dom.View(), old(c.image).value, c.reclaimTimeoutMs, proven, c.lastReclaim)
      else
        dom.View() == old(dom.View()) && batch.spine == old(batch.spine) && c.lastReclaim == old(c.lastReclaim)
  {
    if loaded == None { return false, LoadFailed; }
    ok := PublishImage(dom, batch, c, loaded.value, locked, proven);
    error := if ok then NoError else LockTimeout;
  }

  /** `unload_impl`: refused while other handles share the control. */
  method Unload(dom: Domain, batch: RetiredBatch, c: Control, useCount: nat, locked: bool, proven: bool)
    returns (ok: bool, error: CallError)
    requires Ready(dom, batch) && Proceeds(dom, c) && (c.reclaimTimeoutMs == 0 ==> locked)
    modifies dom, dom.repr, batch, batch.repr, c`image, c`state, c`lastReclaim
    ensures Ready(dom, batch) && dom.sync == old(dom.sync)
    ensures fresh(dom.repr + batch.repr - old(dom.repr) - old(batch.repr))
    ensures error == (if useCount > 1 then StaleHandle else if !locked then LockTimeout else NoError)
    ensures ok == (error == NoError)
    ensures !ok ==> c.image == old(c.image) && c.state == old(c.state)
    ensures ok ==> c.image == None && c.state == Zombie
    ensures if ok && old(c.image).Some? then
        dom.View() == RetireImageFrom(
            old(dom.View()), old(Values(batch.spine)), old(c.image).value, c.PolicyFor(proven))
        && c.lastReclaim == Recorded(dom.View(), old(dom.View()), c.PolicyFor(proven)) && batch.spine == []
        && Settled(
            old(dom.View()), dom.View(), old(c.image).value, c.reclaimTimeoutMs, proven, c.lastReclaim)
      else
        dom.View() == old(dom.View()) && batch.spine == old(batch.spine) && c.lastReclaim == old(c.lastReclaim)
  {
    if useCount > 1 { return false, StaleHandle; }
    if !locked { return false, LockTimeout; }
    var previous := c.image;
    c.image := None;
    c.state := Zombie;
    if previous.Some? { RetireImage(dom, batch, c, previous.value, proven); }
    return true, NoError;
  }

  /** An operation that retires nothing leaves the outcome of the one before: a second unload still reports that an
      image was reclaimed. */
  method SecondUnloadReportsReclaimed() returns (first: ReclaimOutcome, second: ReclaimOutcome, advanced: bool)
    ensures first == Reclaimed && second == Reclaimed && !advanced
  {
    var dom := new Domain();
    var batch := new RetiredBatch();
    var c := new Control();
    c.reclaimTimeoutMs := 1;
    var _, _ := Load(dom, batch, c, Some(0), true, true);
    var _, _ := Unload(dom, batch, c, 1, true, true);
    first := c.lastReclaim;
    var epoch := dom.global;
    var _, _ := Unload(dom, batch, c, 1, true, true);
    second := c.lastReclaim;
    advanced := dom.global != epoch;
  }

  /** One reload of an object under the default policy, by a thread that has nothing else to retire. */
  method DefaultReload(dom: Domain, batch: RetiredBatch, c: Control, image: nat) returns (outcome: ReclaimOutcome)
    requires Ready(dom, batch) && c.reclaimTimeoutMs == 0 && c.image.Some? && dom.sync == 0 && Ahead(dom.View())
    modifies dom, dom.repr, batch, batch.repr, c`image, c`state, c`lastReclaim
    ensures Ready(dom, batch) && fresh(dom.repr + batch.repr - old(dom.repr) - old(batch.repr))
    ensures c.image.Some? && dom.sync == 0 && Ahead(dom.View())
    ensures dom.syncCount == (if old(dom.syncCount) == 7 then 0 else old(dom.syncCount) + 1)
    ensures outcome == if dom.syncCount == 0 then Reclaimed else DeferredBatched
  {
    var _, _ := Load(dom, batch, c, Some(image), true, true);
    outcome := c.lastReclaim;
  }

  /** Under the default policy every eighth reload reports that its image is reclaimed, and the others that it is kept
      for the batch. */
  method DefaultReloads(n: nat) returns (last: ReclaimOutcome)
    ensures n > 0 ==> last == if n % 8 == 0 then Reclaimed else DeferredBatched
  {
    var dom := new Domain();
    var batch := new RetiredBatch();
    var c := new Control();
    var _, _ := Load(dom, batch, c, Some(0), true, true);
    last := c.lastReclaim;
    for i := 0 to n
      invariant Ready(dom, batch) && fresh(dom.repr) && fresh(batch.repr)
      invariant c.reclaimTimeoutMs == 0 && c.image.Some? && dom.sync == 0 && Ahead(dom.View()) && dom.syncCount == i % 8
      invariant i > 0 ==> last == if i % 8 == 0 then Reclaimed else DeferredBatched
    {
      last := DefaultReload(dom, batch, c, i + 1);
    }
  }
}
