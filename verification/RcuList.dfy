/** The writer side of `rcu::Domain` on linked lists: the thread-local batch with its
    tail pointer, the splice that publishes it, and the in-place unlinking of `collect`.
    Each operation is proved against the effect `RcuDomain` gives its lock section.
 */
module RcuList {
  import opened RcuDomain

  class RetiredNode {
    const obj: Obj
    const epoch: nat
    const cls: ReclaimClass
    var next: RetiredNode?

    constructor (obj: Obj, epoch: nat, cls: ReclaimClass)
      ensures this.obj == obj && this.epoch == epoch && this.cls == cls && next == null
    {
      this.obj, this.epoch, this.cls, this.next := obj, epoch, cls, null;
    }

    function Value(): Node
    {
      Node(obj, epoch, cls)
    }
  }

  function Values(spine: seq<RetiredNode>): seq<Node> {
    seq(|spine|, i requires 0 <= i < |spine| => spine[i].Value())
  }

  ghost predicate Distinct(spine: seq<RetiredNode>) {
    forall i, j :: 0 <= i < j < |spine| ==> spine[i] != spine[j]
  }

  /** Following `next` from `head` visits `spine` and then reaches `last`. */
  ghost predicate Segment(head: RetiredNode?, spine: seq<RetiredNode>, last: RetiredNode?)
    reads spine
  {
    && head == (if spine == [] then last else spine[0])
    && (forall i {:trigger spine[i].next} :: 0 <= i < |spine| - 1 ==> spine[i].next == spine[i + 1])
    && (spine != [] ==> spine[|spine| - 1].next == last)
  }

  /** Visiting the first node of `rest` moves it from what is to be kept or taken to what has been. */
  lemma VisitFirst(kept: seq<RetiredNode>, taken: seq<Node>, rest: seq<RetiredNode>, safe: nat, cls: ReclaimClass)
    requires rest != []
    ensures var v, now, later := rest[0].Value(), Values(rest), Values(rest[1..]);
      if Due(v, safe, cls) then
        Kept(now, safe, cls) == Kept(later, safe, cls)
        && (taken + [v]) + Taken(later, safe, cls) == taken + Taken(now, safe, cls)
      else
        Values(kept + [rest[0]]) + Kept(later, safe, cls) == Values(kept) + Kept(now, safe, cls)
        && Taken(now, safe, cls) == Taken(later, safe, cls)
  {
    assert Values(rest)[1..] == Values(rest[1..]);
    assert Values(kept + [rest[0]]) == Values(kept) + [rest[0].Value()];
  }

  ghost predicate Within(spine: seq<RetiredNode>, repr: set<RetiredNode>) {
    forall i :: 0 <= i < |spine| ==> spine[i] in repr
  }

  class RetiredBatch {
    var head: RetiredNode?
    var tail: RetiredNode?
    var count: nat
    ghost var spine: seq<RetiredNode>
    ghost var repr: set<RetiredNode>

    ghost predicate Valid()
      reads this, repr
    {
      && Within(spine, repr)
      && Segment(head, spine, null)
      && Distinct(spine)
      && tail == (if spine == [] then null else spine[|spine| - 1])
      && count == |spine|
    }

    constructor ()
      ensures Valid() && spine == [] && repr == {}
    {
      head, tail, count, spine, repr := null, null, 0, [], {};
    }
  }

  class Domain {
    var global: nat
    var completed: nat
    var completedEager: nat
    var sync: nat
    var syncCount: nat
    var retired: RetiredNode?
    ghost var spine: seq<RetiredNode>
    ghost var repr: set<RetiredNode>
    ghost var done: seq<Node>   // callbacks run so far

    ghost predicate Valid()
      reads this, repr
    {
      Within(spine, repr) && Segment(retired, spine, null) && Distinct(spine)
    }

    ghost function View(): Shared
      reads this
    {
      Shared(global, completed, completedEager, sync, syncCount, Values(spine), done)
    }

    constructor ()
      ensures Valid() && View() == INITIAL && repr == {}
    {
      global, completed, completedEager, sync, syncCount := 1, 0, 0, 0, 0;
      retired, spine, repr, done := null, [], {}, [];
    }

    method PublishLocalBatchLocked(batch: RetiredBatch)
      requires Valid() && batch.Valid() && repr !! batch.repr
      modifies this`retired, this`spine, this`repr, batch, batch.repr
      ensures Valid() && batch.Valid() && batch.spine == [] && batch.repr == {}
      ensures repr == old(repr) + old(batch.repr)
      ensures View() == Publish(old(View()), old(Values(batch.spine)))
    {
      if batch.head != null {
        batch.tail.next := retired;
        assert batch.tail.next == (if spine == [] then null else spine[0]);
        retired := batch.head;
      }
      ghost var joined := batch.spine + spine;
      assert Values(joined) == Values(batch.spine) + Values(spine);
      assert Segment(retired, joined, null) by {
        forall i | 0 <= i < |joined| - 1 ensures joined[i].next == joined[i + 1] {
          var k := i - |batch.spine|;
          if k < 0 {
            assert joined[i] == batch.spine[i];
          } else {
            assert joined[i] == spine[k] && spine[k] in repr;
          }
        }
      }
      spine, repr := joined, repr + batch.repr;
      batch.head, batch.tail, batch.count, batch.spine, batch.repr := null, null, 0, [], {};
    }

    /** `retire_impl`: append at the batch's tail, publish when the batch is full; `granted` is the allocator's
        answer, and without a node nothing is queued. */
    method RetireImpl(batch: RetiredBatch, obj: Obj, cls: ReclaimClass, granted: bool) returns (token: nat)
      requires Valid() && batch.Valid() && repr !! batch.repr
      modifies this`retired, this`spine, this`repr, batch, batch.repr
      ensures Valid() && batch.Valid() && repr !! batch.repr
      ensures fresh(repr + batch.repr - old(repr) - old(batch.repr))
      ensures token == if granted then global else 0
      ensures var queued := old(Values(batch.spine)) + [Node(obj, token, cls)];
        if !granted then batch.spine == old(batch.spine) && Values(batch.spine) == old(Values(batch.spine)) &&
          View() == old(View())
        else if |queued| >= BATCH_PUBLISH then batch.spine == [] && View() == Publish(old(View()), queued)
        else Values(batch.spine) == queued && View() == old(View())
    {
      if !granted { return 0; }
      token := global;
      var r := new RetiredNode(obj, token, cls);
      if batch.tail != null {
        batch.tail.next := r;
      } else {
        batch.head := r;
      }
      batch.tail := r;
      batch.count := batch.count + 1;
      batch.spine, batch.repr := batch.spine + [r], batch.repr + {r};
      assert Values(batch.spine) == old(Values(batch.spine)) + [Node(obj, token, cls)];
      if batch.count >= BATCH_PUBLISH {
        PublishLocalBatchLocked(batch);
      }
    }

    /** The list while it is walked: `kept` up to the pointer that leads to `curr`, then `rest`. */
    ghost predicate Chain(prev: RetiredNode?, curr: RetiredNode?, kept: seq<RetiredNode>, rest: seq<RetiredNode>)
      reads this, repr
    {
      && Within(kept, repr) && Within(rest, repr)
      && Segment(curr, rest, null) && Segment(retired, kept, curr)
      && prev == (if kept == [] then null else kept[|kept| - 1])
      && Distinct(kept) && Distinct(rest)
      && (forall i, j :: 0 <= i < |kept| && 0 <= j < |rest| ==> kept[i] != rest[j])
    }

    /** Step over `curr`. */
    lemma Skip(prev: RetiredNode?, curr: RetiredNode, kept: seq<RetiredNode>, rest: seq<RetiredNode>)
      requires Chain(prev, curr, kept, rest)
      ensures rest != [] && curr == rest[0] && Chain(curr, curr.next, kept + [curr], rest[1..])
    {
    }

    /** Take `curr` out of the chain, through the pointer that leads to it. */
    method Unlink(prev: RetiredNode?, curr: RetiredNode, ghost kept: seq<RetiredNode>, ghost rest: seq<RetiredNode>)
      returns (next: RetiredNode?)
      requires Chain(prev, curr, kept, rest)
      modifies this`retired, repr
      ensures rest != [] && curr == rest[0] && Chain(prev, next, kept, rest[1..])
    {
      next := curr.next;
      if prev == null {
        retired := next;
      } else {
        prev.next := next;
      }
    }

    /** The loop of `collect`: unlinks the due nodes in place and runs their callbacks, keeping the order of the
        rest. */
    method Walk(safe: nat, cls: ReclaimClass) returns (ghost kept: seq<RetiredNode>, ghost taken: seq<Node>)
      requires Valid()
      modifies this`retired, repr
      ensures Within(kept, repr) && Segment(retired, kept, null) && Distinct(kept)
      ensures Values(kept) == Kept(Values(spine), safe, cls) && taken == Taken(Values(spine), safe, cls)
    {
      var prev: RetiredNode?, curr := null, retired;
      ghost var rest := spine;
      kept, taken := [], [];
      while curr != null
        invariant Chain(prev, curr, kept, rest)
        invariant Values(kept) + Kept(Values(rest), safe, cls) == Kept(Values(spine), safe, cls)
        invariant taken + Taken(Values(rest), safe, cls) == Taken(Values(spine), safe, cls)
        decreases |rest|
      {
        VisitFirst(kept, taken, rest, safe, cls);
        if curr.cls == cls && curr.epoch <= safe {
          taken := taken + [curr.Value()];
          curr := Unlink(prev, curr, kept, rest);
        } else {
          Skip(prev, curr, kept, rest);
          kept := kept + [curr];
          prev, curr := curr, curr.next;
        }
        rest := rest[1..];
      }
      assert rest == [];
    }

    /** `collect`: a collection that would not raise its class's watermark does nothing. */
    method Collect(safe: nat, cls: ReclaimClass)
      requires Valid()
      modifies this, repr
      ensures Valid() && repr == old(repr)
      ensures View() == RcuDomain.Collect(old(View()), safe, cls)
    {
      if safe <= (if cls == Eager then completedEager else completed) { return; }
      if cls == Eager { completedEager := safe; } else { completed := safe; }
      ghost var kept, taken := Walk(safe, cls);
      spine, done := kept, done + taken;
    }

    /** First lock section of `synchronize_impl`. */
    method SyncBegin(batch: RetiredBatch, eager: bool) returns (start: SyncStart)
      requires Valid() && batch.Valid() && repr !! batch.repr
      modifies this, batch, batch.repr
      ensures Valid() && batch.Valid() && batch.spine == [] && batch.repr == {} && repr == old(repr) + old(batch.repr)
      ensures start == StartOutcome(old(View()), eager)
      ensures View() == RcuDomain.SyncBegin(old(View()), old(Values(batch.spine)), eager)
    {
      PublishLocalBatchLocked(batch);
      if sync != 0 { return Contended; }
      if !eager {
        syncCount := syncCount + 1;
        if syncCount < EPOCH_BATCH { return NotDue; }
        syncCount := 0;
      }
      start := Advanced(global);
      global := global + 1;
      sync := global;
    }

    /** Last lock section of `synchronize_impl`. */
    method SyncEnd(prior: nat, eager: bool)
      requires Valid()
      modifies this, repr
      ensures Valid() && repr == old(repr)
      ensures View() == RcuDomain.SyncEnd(old(View()), prior, eager)
    {
      Collect(prior, if eager then Eager else Batched);
      sync := 0;
    }

    /** `begin_advance`: `prior` is the epoch to wait for when the advancement was won. */
    method BeginAdvance(batch: RetiredBatch) returns (won: bool, prior: nat)
      requires Valid() && batch.Valid() && repr !! batch.repr
      modifies this, batch, batch.repr
      ensures Valid() && batch.Valid() && batch.spine == [] && batch.repr == {} && repr == old(repr) + old(batch.repr)
      ensures won == (old(sync) == 0) && (won ==> prior == old(global))
      ensures View() == RcuDomain.BeginAdvance(old(View()), old(Values(batch.spine)))
    {
      PublishLocalBatchLocked(batch);
      if sync != 0 { return false, 0; }
      won, prior := true, global;
      global := global + 1;
      sync := prior + 1;
    }

    method EndAdvance(prior: nat, proven: bool)
      requires Valid()
      modifies this, repr
      ensures Valid() && repr == old(repr)
      ensures View() == RcuDomain.EndAdvance(old(View()), prior, proven)
    {
      if proven {
        Collect(prior, Eager);
        Collect(prior, Batched);
      }
      sync := 0;
    }

    /** `synchronize_impl`; the wait for readers, or for another owner of the advancement, leaves the writer side as
        it is. */
    method Synchronize(batch: RetiredBatch, eager: bool)
      requires Valid() && batch.Valid() && repr !! batch.repr
      modifies this, repr, batch, batch.repr
      ensures Valid() && batch.Valid() && batch.spine == [] && batch.repr == {} && repr == old(repr) + old(batch.repr)
      ensures sync == old(sync) && View() == RcuDomain.Synchronize(old(View()), old(Values(batch.spine)), eager)
    {
      var start := SyncBegin(batch, eager);
      if start.Advanced? { SyncEnd(start.prior, eager); }
    }

    /** `synchronize_until`: `inTime` tells whether the grace period is proven before the deadline; a call that finds
        another owner until its deadline gives up. */
    method SynchronizeUntil(batch: RetiredBatch, inTime: bool) returns (proven: bool)
      requires Valid() && batch.Valid() && repr !! batch.repr
      modifies this, repr, batch, batch.repr
      ensures Valid() && batch.Valid() && batch.spine == [] && batch.repr == {} && repr == old(repr) + old(batch.repr)
      ensures proven == (inTime && old(sync) == 0) && sync == old(sync)
      ensures View() == RcuDomain.SynchronizeUntil(old(View()), old(Values(batch.spine)), inTime)
    {
      var won, prior := BeginAdvance(batch);
      if !won { return false; }
      EndAdvance(prior, inTime);
      return inTime;
    }
  }
}
