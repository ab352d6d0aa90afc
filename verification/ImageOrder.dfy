/** The order of an image's two callbacks (DLL/Object.h) in every interleaving of the reclamation protocol, and what
    happens when it breaks: `reclaim_index` then runs inside an image that has been deleted.
 */
module ImageOrder {
  import opened RcuDomain
  import opened RcuProtocol
  import opened RcuSafety
  import opened RcuConservation
  import opened RcuFine
  import opened RcuTokens
  import ImageReclaim

  function IndexOf(i: nat): Obj { ImageReclaim.IndexOf(i) }

  function ImageOf(i: nat): Obj { ImageReclaim.ImageOf(i) }

  predicate HasObj(nodes: seq<Node>, o: Obj) { exists k :: 0 <= k < |nodes| && nodes[k].obj == o }

  lemma HasNode(nodes: seq<Node>, n: Node)
    requires n in nodes
    ensures HasObj(nodes, n.obj)
  {
    var k :| 0 <= k < |nodes| && nodes[k] == n;
    assert nodes[k].obj == n.obj;
  }

  // ----- how images are retired

  predicate Typed(n: Node) { n.cls == if n.obj % 2 == 0 then Eager else Batched }

  predicate AllTyped(nodes: seq<Node>) { forall n :: n in nodes ==> Typed(n) }

  predicate Retires(th: Thread, o: Obj) { th.wpc.Retiring? && th.wpc.obj == o }

  /** The retirement of `o` has been carried out, and if it has not been published yet it waits at `t`. */
  ghost predicate RetiredBy(s: State, t: Tid, o: Obj) {
    && o in s.tags
    && forall u: Tid :: u < |s.threads| ==> !Retires(s.threads[u], o) && (u != t ==> !HasObj(s.threads[u].batch, o))
  }

  /** `retire_image`: the index in the eager class, then, by the same thread, the image in the batched class. */
  ghost predicate RetiresInOrder(s: State, t: Tid, a: Step) {
    a.RetireLoad? ==>
      && a.cls == (if a.obj % 2 == 0 then Eager else Batched)
      && (a.obj % 2 == 1 ==> RetiredBy(s, t, a.obj - 1))
  }

  /** Every retirement in the run is one of `retire_image`; everything else is free. */
  ghost predicate Disciplined(s: State, sched: Schedule)
    requires Runs(s, sched)
    decreases |sched|
  {
    sched != [] ==>
      && RetiresInOrder(s, sched[0].0, sched[0].1)
      && Disciplined(Next(s, sched[0].0, sched[0].1), sched[1..])
  }

  // ----- what the discipline keeps

  /** While an index waits at `u`, its image is nowhere else. */
  ghost predicate Together(s: State, u: Tid, v: Tid, i: nat)
    requires u < |s.threads| && v < |s.threads|
  {
    HasObj(s.threads[u].batch, IndexOf(i)) ==>
      && !HasObj(s.d.retired, ImageOf(i)) && !HasObj(s.d.reclaimed, ImageOf(i))
      && (v != u ==> !HasObj(s.threads[v].batch, ImageOf(i)) && !Retires(s.threads[v], ImageOf(i)))
  }

  ghost predicate ThreadTyped(th: Thread) {
    AllTyped(th.batch) && (th.wpc.Retiring? ==> Typed(Node(th.wpc.obj, th.wpc.tag, th.wpc.cls)))
  }

  /** Once its image is retired, an index has been retired no later and is not being retired. */
  ghost predicate IndexOk(s: State, i: nat) {
    ImageOf(i) in s.tags ==>
      && IndexOf(i) in s.tags && s.tags[IndexOf(i)] <= s.tags[ImageOf(i)]
      && (forall u: Tid :: u < |s.threads| ==> !Retires(s.threads[u], IndexOf(i)))
      && (forall u: Tid, v: Tid :: u < |s.threads| && v < |s.threads| ==> Together(s, u, v, i))
  }

  ghost predicate NodesTyped(s: State) {
    && AllTyped(s.d.retired) && AllTyped(s.d.reclaimed)
    && forall u: Tid :: u < |s.threads| ==> ThreadTyped(s.threads[u])
  }

  // ----- the guard of the failing branches

  /** The step collects the eager class, or the batched class. */
  predicate EagerRuns(pc: WriterPc, a: Step) {
    (a.Finish? && pc.Proven? && (pc.call == Until || pc.call.eager)) || (a.TryFinish? && pc.TryScan? && pc.min > 1)
  }

  predicate BatchedRuns(pc: WriterPc, a: Step) {
    (a.Finish? && pc.Proven? && (pc.call == Until || !pc.call.eager)) || (a.TryFinish? && pc.TryScan? && pc.min > 1)
  }

  predicate HasDue(nodes: seq<Node>, o: Obj, safe: nat, cls: ReclaimClass) {
    exists k :: 0 <= k < |nodes| && nodes[k].obj == o && Due(nodes[k], safe, cls)
  }

  /** A collection of the batched class finds image `i` due while its index is still in the list, and does not
      collect the eager class: because it is the batched-only one, or because the eager watermark is already there. */
  predicate Breaking(s: State, t: Tid, a: Step, i: nat) {
    && Enabled(s, t, a)
    && var pc, safe := s.threads[t].wpc, SafeEpoch(s.threads[t].wpc);
    && BatchedRuns(pc, a) && s.d.completed < safe
    && HasDue(s.d.retired, ImageOf(i), safe, Batched) && HasObj(s.d.retired, IndexOf(i))
    && !(EagerRuns(pc, a) && s.d.completedEager < safe)
  }

  ghost predicate Breaks(s: State, sched: Schedule, i: nat)
    requires Runs(s, sched)
    decreases |sched|
  {
    sched != [] &&
      (Breaking(s, sched[0].0, sched[0].1, i) || Breaks(Next(s, sched[0].0, sched[0].1), sched[1..], i))
  }

  // ----- the order of callbacks

  /** The image's callback has run without its index's callback before it. */
  ghost predicate Early(done: seq<Node>, i: nat) {
    exists j :: 0 <= j < |done| && done[j].obj == ImageOf(i) && !ImageReclaim.Seen(done, j, IndexOf(i))
  }

  /** An index that was retired has not been reclaimed before its image. */
  ghost predicate OutOfOrder(s: State, i: nat) { HasObj(s.ever, IndexOf(i)) && Early(s.d.reclaimed, i) }

  lemma SeenPrefix(done: seq<Node>, more: seq<Node>, j: nat, o: Obj)
    requires j <= |done|
    ensures ImageReclaim.Seen(done + more, j, o) <==> ImageReclaim.Seen(done, j, o)
  {
    var all := done + more;
    if k :| 0 <= k < j && done[k].obj == o { assert all[k].obj == o; }
  }

  /** The callbacks of one step: first some of the eager class, then some of the batched class. */
  lemma EarlyAppend(done: seq<Node>, e: seq<Node>, b: seq<Node>, i: nat)
    requires !HasObj(e, ImageOf(i)) && !HasObj(b, IndexOf(i))
    ensures Early(done + e + b, i) <==>
      Early(done, i) || (HasObj(b, ImageOf(i)) && !HasObj(done, IndexOf(i)) && !HasObj(e, IndexOf(i)))
  {
    var all := done + e + b;
    assert all == done + (e + b);
    assert forall x :: |done| <= x < |done| + |e| ==> all[x] == e[x - |done|];
    if j :| 0 <= j < |done| && done[j].obj == ImageOf(i) && !ImageReclaim.Seen(done, j, IndexOf(i)) {
      SeenPrefix(done, e + b, j, IndexOf(i));
      assert all[j].obj == ImageOf(i);
    }
    if k :| 0 <= k < |b| && b[k].obj == ImageOf(i) {
      SeenInTail(done, e, b, k, i);
      assert all[|done| + |e| + k].obj == ImageOf(i);
    }
    if j :| 0 <= j < |all| && all[j].obj == ImageOf(i) && !ImageReclaim.Seen(all, j, IndexOf(i)) {
      if j < |done| {
        SeenPrefix(done, e + b, j, IndexOf(i));
        assert done[j].obj == ImageOf(i);
      } else {
        var k := j - |done| - |e|;
        assert b[k].obj == ImageOf(i);
        SeenInTail(done, e, b, k, i);
      }
    }
  }

  lemma SeenInTail(done: seq<Node>, e: seq<Node>, b: seq<Node>, k: nat, i: nat)
    requires k < |b| && !HasObj(b, IndexOf(i))
    ensures ImageReclaim.Seen(done + e + b, |done| + |e| + k, IndexOf(i)) <==>
      HasObj(done, IndexOf(i)) || HasObj(e, IndexOf(i))
  {
    var all, o := done + e + b, IndexOf(i);
    assert forall x :: |done| + |e| <= x < |all| ==> all[x] == b[x - |done| - |e|];
    if x :| 0 <= x < |done| && done[x].obj == o { assert all[x].obj == o; }
    if x :| 0 <= x < |e| && e[x].obj == o { assert all[|done| + x].obj == o; }
    if x :| 0 <= x < |done| + |e| + k && all[x].obj == o {
      if x < |done| {
        assert done[x].obj == o;
      } else {
        assert e[x - |done|].obj == o;
      }
    }
  }

  // ----- a step keeps what the discipline establishes

  /** A collection of the eager class, the batched class, or both, eager first. */
  function CollectSome(d: Shared, safe: nat, eager: bool, batched: bool): Shared {
    var mid := if eager then Collect(d, safe, Eager) else d;
    if batched then Collect(mid, safe, Batched) else mid
  }

  lemma CollectedOne(d: Shared, safe: nat, cls: ReclaimClass, on: bool) returns (part: seq<Node>)
    ensures var d' := if on then Collect(d, safe, cls) else d;
      && d'.reclaimed == d.reclaimed + part
      && (cls == Eager ==> d'.completed == d.completed)
      && (forall n :: n in part <==> on && Watermark(d, cls) < safe && n in d.retired && Due(n, safe, cls))
      && (forall n :: n in d'.retired <==> n in d.retired && !(on && Watermark(d, cls) < safe && Due(n, safe, cls)))
  {
    CollectSplitsList(d.retired, safe, cls);
    part := if on && Watermark(d, cls) < safe then Taken(d.retired, safe, cls) else [];
  }

  lemma CollectedSome(d: Shared, safe: nat, eager: bool, batched: bool) returns (e: seq<Node>, b: seq<Node>)
    ensures CollectSome(d, safe, eager, batched).reclaimed == d.reclaimed + e + b
    ensures forall n :: n in e <==> eager && d.completedEager < safe && n in d.retired && Due(n, safe, Eager)
    ensures forall n :: n in b <==> batched && d.completed < safe && n in d.retired && Due(n, safe, Batched)
  {
    var mid := if eager then Collect(d, safe, Eager) else d;
    e := CollectedOne(d, safe, Eager, eager);
    b := CollectedOne(mid, safe, Batched, batched);
  }

  lemma FinishCollects(s: State, t: Tid, a: Step)
    requires Enabled(s, t, a) && IsFinishStep(a)
    ensures var pc := s.threads[t].wpc;
      FinishStep(s, t, a).d.reclaimed == CollectSome(s.d, SafeEpoch(pc), EagerRuns(pc, a), BatchedRuns(pc, a)).reclaimed
  {
  }

  /** What a collecting step makes of the domain. */
  lemma CollectedParts(s: State, t: Tid, a: Step) returns (e: seq<Node>, b: seq<Node>)
    requires Enabled(s, t, a) && IsFinishStep(a)
    ensures var pc, safe := s.threads[t].wpc, SafeEpoch(s.threads[t].wpc);
      && FinishStep(s, t, a).d.reclaimed == s.d.reclaimed + e + b
      && (forall n :: n in e <==>
        EagerRuns(pc, a) && s.d.completedEager < safe && n in s.d.retired && Due(n, safe, Eager))
      && (forall n :: n in b <==>
        BatchedRuns(pc, a) && s.d.completed < safe && n in s.d.retired && Due(n, safe, Batched))
  {
    var pc := s.threads[t].wpc;
    FinishCollects(s, t, a);
    e, b := CollectedSome(s.d, SafeEpoch(pc), EagerRuns(pc, a), BatchedRuns(pc, a));
  }

  predicate Publishes(a: Step) { a.PublishBatch? || a.SyncEnter? || a.UntilEnter? || a.TryEnter? }

  /** How a step moves nodes between batches, list and callbacks. */
  ghost predicate Flow(s: State, t: Tid, a: Step, s': State) {
    && t < |s.threads| == |s'.threads|
    && (forall u: Tid :: u < |s.threads| && u != t ==> s'.threads[u] == s.threads[u])
    && var th, th' := s.threads[t], s'.threads[t];
    && (if a.RetireLoad? then s'.tags == s.tags[a.obj := s.d.global] else s'.tags == s.tags)
    && (if a.RetireLoad? then a.obj in th.pending && th'.wpc == Retiring(a.obj, a.cls, s.d.global)
        else th'.wpc == th.wpc || !th'.wpc.Retiring?)
    && (if a.RetireAppend? then
          th.wpc.Retiring? && !th'.wpc.Retiring? && th'.batch == th.batch + [Node(th.wpc.obj, th.wpc.tag, th.wpc.cls)]
          && s'.ever == s.ever + [Node(th.wpc.obj, th.wpc.tag, th.wpc.cls)]
        else th'.batch == (if Publishes(a) then [] else th.batch) && s'.ever == s.ever)
    && (if IsFinishStep(a) then
          (forall n :: n in s'.d.retired ==> n in s.d.retired)
          && (forall n :: n in s'.d.reclaimed ==> n in s.d.reclaimed || n in s.d.retired)
        else s'.d.retired == (if Publishes(a) then th.batch else []) + s.d.retired && s'.d.reclaimed == s.d.reclaimed)
  }

  lemma RetireFlows(s: State, t: Tid, a: Step)
    requires Enabled(s, t, a) && IsRetireStep(a)
    ensures Flow(s, t, a, RetireStep(s, t, a))
  {
  }

  lemma EnterFlows(s: State, t: Tid, a: Step)
    requires Enabled(s, t, a) && IsEnterStep(a)
    ensures Flow(s, t, a, EnterStep(s, t, a))
  {
  }

  lemma ScanFlows(s: State, t: Tid, a: Step)
    requires Enabled(s, t, a) && IsScanStep(a)
    ensures Flow(s, t, a, ScanStep(s, t, a))
  {
  }

  lemma ReaderFlows(s: State, t: Tid, a: Step)
    requires Enabled(s, t, a) && IsReaderStep(a)
    ensures Flow(s, t, a, ReaderStep(s, t, a))
  {
  }

  lemma FinishFlows(s: State, t: Tid, a: Step)
    requires Inv(s) && Enabled(s, t, a) && IsFinishStep(a)
    ensures Flow(s, t, a, FinishStep(s, t, a))
  {
    FinishDomain(s, t, a);
  }

  lemma StepFlows(s: State, t: Tid, a: Step)
    requires Inv(s) && Enabled(s, t, a)
    ensures Flow(s, t, a, Next(s, t, a))
  {
    if IsRetireStep(a) { RetireFlows(s, t, a); }
    else if IsEnterStep(a) { EnterFlows(s, t, a); }
    else if IsScanStep(a) { ScanFlows(s, t, a); }
    else if IsFinishStep(a) { FinishFlows(s, t, a); }
    else { ReaderFlows(s, t, a); }
  }

  lemma TypedAfter(s: State, t: Tid, a: Step, s': State)
    requires Flow(s, t, a, s') && NodesTyped(s) && RetiresInOrder(s, t, a)
    ensures NodesTyped(s')
  {
    assert ThreadTyped(s.threads[t]);
    forall u: Tid | u < |s'.threads| ensures ThreadTyped(s'.threads[u]) { assert ThreadTyped(s.threads[u]); }
  }

  lemma TaggedObj(s: State, nodes: seq<Node>, o: Obj)
    requires AllTagged(s, nodes) && o !in s.tags
    ensures !HasObj(nodes, o)
  {
    forall k | 0 <= k < |nodes| ensures nodes[k].obj != o { assert Tagged(s, nodes[k]); }
  }

  /** An object that has not been tagged is queued nowhere. */
  lemma UntaggedIsNowhere(s: State, o: Obj, u: Tid)
    requires Inv(s) && o !in s.tags && u < |s.threads|
    ensures !HasObj(s.d.retired, o) && !HasObj(s.d.reclaimed, o) && !HasObj(s.threads[u].batch, o) &&
      !Retires(s.threads[u], o)
  {
    assert ObjectsOk(s, u);
    TaggedObj(s, s.d.retired, o);
    TaggedObj(s, s.d.reclaimed, o);
    TaggedObj(s, s.threads[u].batch, o);
  }

  lemma HasObjConcat(a: seq<Node>, b: seq<Node>, o: Obj)
    ensures HasObj(a + b, o) <==> HasObj(a, o) || HasObj(b, o)
  {
    var c := a + b;
    if k :| 0 <= k < |a| && a[k].obj == o { assert c[k].obj == o; }
    if k :| 0 <= k < |b| && b[k].obj == o { assert c[|a| + k].obj == o; }
    if k :| 0 <= k < |c| && c[k].obj == o {
      if k < |a| { assert a[k].obj == o; } else { assert b[k - |a|].obj == o; }
    }
  }

  /** The nodes of the list after a step were in the list or in the batch that was published. */
  lemma ListAfter(s: State, t: Tid, a: Step, s': State, o: Obj)
    requires Flow(s, t, a, s') && (HasObj(s'.d.retired, o) || HasObj(s'.d.reclaimed, o))
    ensures HasObj(s.d.retired, o) || HasObj(s.d.reclaimed, o) || (Publishes(a) && HasObj(s.threads[t].batch, o))
  {
    if IsFinishStep(a) {
      if k :| 0 <= k < |s'.d.retired| && s'.d.retired[k].obj == o { HasNode(s.d.retired, s'.d.retired[k]); }
      if k :| 0 <= k < |s'.d.reclaimed| && s'.d.reclaimed[k].obj == o {
        var n := s'.d.reclaimed[k];
        if n in s.d.reclaimed { HasNode(s.d.reclaimed, n); } else { HasNode(s.d.retired, n); }
      }
    } else {
      HasObjConcat(if Publishes(a) then s.threads[t].batch else [], s.d.retired, o);
    }
  }

  lemma BatchAfter(s: State, t: Tid, a: Step, s': State, u: Tid, o: Obj)
    requires Flow(s, t, a, s') && u < |s.threads| && HasObj(s'.threads[u].batch, o)
    ensures HasObj(s.threads[u].batch, o) || (u == t && a.RetireAppend? && Retires(s.threads[t], o))
    ensures u == t ==> !Publishes(a)
  {
    if u == t && a.RetireAppend? {
      var th := s.threads[t];
      HasObjConcat(th.batch, [Node(th.wpc.obj, th.wpc.tag, th.wpc.cls)], o);
    }
  }

  /** The image has just been tagged. */
  lemma TogetherAtFirst(s: State, t: Tid, a: Step, s': State, i: nat, u: Tid, v: Tid)
    requires Inv(s) && Flow(s, t, a, s') && RetiresInOrder(s, t, a) && u < |s.threads| && v < |s.threads|
    requires a == RetireLoad(ImageOf(i), Batched)
    ensures Together(s', u, v, i)
  {
    assert ObjectsOk(s, t);
    UntaggedIsNowhere(s, ImageOf(i), v);
    UntaggedIsNowhere(s, ImageOf(i), t);
    assert RetiredBy(s, t, IndexOf(i));
    HasObjConcat([], s.d.retired, ImageOf(i));
    assert [] + s.d.retired == s.d.retired;
  }

  /** The image was tagged before. */
  lemma TogetherStays(s: State, t: Tid, a: Step, s': State, i: nat, u: Tid, v: Tid)
    requires Inv(s) && Flow(s, t, a, s') && u < |s.threads| && v < |s.threads| && IndexOk(s, i) && ImageOf(i) in s.tags
    ensures Together(s', u, v, i)
  {
    if HasObj(s'.threads[u].batch, IndexOf(i)) {
      assert ObjectsOk(s, t);
      assert Together(s, u, v, i) && Together(s, u, t, i);
      BatchAfter(s, t, a, s', u, IndexOf(i));
      if HasObj(s'.d.retired, ImageOf(i)) || HasObj(s'.d.reclaimed, ImageOf(i)) { ListAfter(s, t, a, s', ImageOf(i)); }
      if HasObj(s'.threads[v].batch, ImageOf(i)) { BatchAfter(s, t, a, s', v, ImageOf(i)); }
    }
  }

  lemma IndexOkAfter(s: State, t: Tid, a: Step, s': State, i: nat)
    requires Inv(s) && Flow(s, t, a, s') && RetiresInOrder(s, t, a) && IndexOk(s, i)
    ensures IndexOk(s', i)
  {
    if ImageOf(i) in s'.tags {
      assert ObjectsOk(s, t);
      if ImageOf(i) !in s.tags {
        assert a.RetireLoad? && a.obj == ImageOf(i) && a.cls == Batched;
        assert RetiredBy(s, t, IndexOf(i));
      }
      forall u: Tid, v: Tid | u < |s.threads| && v < |s.threads| ensures Together(s', u, v, i) {
        if ImageOf(i) in s.tags { TogetherStays(s, t, a, s', i, u, v); } else { TogetherAtFirst(s, t, a, s', i, u, v); }
      }
    }
  }

  // ----- one step breaks the order exactly when its guard holds

  ghost predicate Ready(s: State) {
    Inv(s) && Balanced(s) && OnceOnly(s) && NodesTyped(s) && forall i: nat :: IndexOk(s, i)
  }

  lemma {:induction false} QueuedFrom(threads: seq<Thread>, n: Node) returns (u: nat)
    requires n in Queued(threads)
    ensures u < |threads| && n in threads[u].batch
  {
    if n in threads[0].batch {
      u := 0;
    } else {
      u := QueuedFrom(threads[1..], n);
      u := u + 1;
    }
  }

  /** The retired index of an image in the list is in the list too, or has been reclaimed. */
  lemma IndexIsPublished(s: State, i: nat)
    requires Ready(s) && HasObj(s.ever, IndexOf(i)) && HasObj(s.d.retired, ImageOf(i))
    ensures HasObj(s.d.retired, IndexOf(i)) || HasObj(s.d.reclaimed, IndexOf(i))
  {
    var k :| 0 <= k < |s.ever| && s.ever[k].obj == IndexOf(i);
    var n := s.ever[k];
    assert n in multiset(s.ever);
    var j :| 0 <= j < |s.d.retired| && s.d.retired[j].obj == ImageOf(i);
    assert Tagged(s, s.d.retired[j]) && IndexOk(s, i);
    forall u: Tid | u < |s.threads| ensures !HasObj(s.threads[u].batch, IndexOf(i)) { assert Together(s, u, u, i); }
    if n in Queued(s.threads) {
      var u := QueuedFrom(s.threads, n);
      HasNode(s.threads[u].batch, n);
      assert false;
    } else if n in s.d.retired {
      HasNode(s.d.retired, n);
    } else {
      HasNode(s.d.reclaimed, n);
    }
  }

  /** An index in the list was retired, and has not been reclaimed. */
  lemma IndexInList(s: State, i: nat)
    requires Ready(s) && HasObj(s.d.retired, IndexOf(i))
    ensures HasObj(s.ever, IndexOf(i)) && !HasObj(s.d.reclaimed, IndexOf(i))
  {
    var k :| 0 <= k < |s.d.retired| && s.d.retired[k].obj == IndexOf(i);
    var n := s.d.retired[k];
    OnePlace(s, n);
    assert n in multiset(s.d.retired) && n in multiset(s.ever);
    HasNode(s.ever, n);
    forall j | 0 <= j < |s.d.reclaimed| ensures s.d.reclaimed[j].obj != IndexOf(i) {
      var m := s.d.reclaimed[j];
      assert Tagged(s, n) && Tagged(s, m) && Typed(n) && Typed(m);
      assert m in multiset(s.d.reclaimed);
    }
  }

  lemma NoneObj(nodes: seq<Node>, o: Obj)
    requires forall n :: n !in nodes
    ensures !HasObj(nodes, o)
  {
    assert forall k :: 0 <= k < |nodes| ==> nodes[k] in nodes;
  }

  lemma NoObj(nodes: seq<Node>, o: Obj, cls: ReclaimClass)
    requires (forall n :: n in nodes ==> Typed(n) && n.cls == cls) && cls != (if o % 2 == 0 then Eager else Batched)
    ensures !HasObj(nodes, o)
  {
    forall k | 0 <= k < |nodes| ensures nodes[k].obj != o { assert Typed(nodes[k]); }
  }

  /** What the batched part takes: the images that are due. */
  lemma TakesDue(s: State, t: Tid, a: Step, b: seq<Node>, i: nat)
    requires t < |s.threads| && BatchedRuns(s.threads[t].wpc, a) && s.d.completed < SafeEpoch(s.threads[t].wpc)
    requires forall n :: n in b <==> n in s.d.retired && Due(n, SafeEpoch(s.threads[t].wpc), Batched)
    ensures HasObj(b, ImageOf(i)) <==> HasDue(s.d.retired, ImageOf(i), SafeEpoch(s.threads[t].wpc), Batched)
  {
    if k :| 0 <= k < |b| && b[k].obj == ImageOf(i) {
      assert b[k] in b;
      var j :| 0 <= j < |s.d.retired| && s.d.retired[j] == b[k];
      assert s.d.retired[j].obj == ImageOf(i);
    }
    var safe := SafeEpoch(s.threads[t].wpc);
    if j :| 0 <= j < |s.d.retired| && s.d.retired[j].obj == ImageOf(i) && Due(s.d.retired[j], safe, Batched) {
      HasNode(b, s.d.retired[j]);
    }
  }

  /** An eager part that collects takes the index of every image that is due. */
  lemma EagerTakesIndex(s: State, t: Tid, e: seq<Node>, i: nat)
    requires Ready(s) && t < |s.threads| && HasDue(s.d.retired, ImageOf(i), SafeEpoch(s.threads[t].wpc), Batched)
    requires forall n :: n in e <==> n in s.d.retired && Due(n, SafeEpoch(s.threads[t].wpc), Eager)
    requires HasObj(s.d.retired, IndexOf(i))
    ensures HasObj(e, IndexOf(i))
  {
    var safe := SafeEpoch(s.threads[t].wpc);
    var j :| 0 <= j < |s.d.retired| && s.d.retired[j].obj == ImageOf(i) && Due(s.d.retired[j], safe, Batched);
    var k :| 0 <= k < |s.d.retired| && s.d.retired[k].obj == IndexOf(i);
    assert Tagged(s, s.d.retired[j]) && Tagged(s, s.d.retired[k]) && Typed(s.d.retired[k]) && IndexOk(s, i);
    HasNode(e, s.d.retired[k]);
  }

  lemma FinishOrder(s: State, t: Tid, a: Step, i: nat)
    requires Ready(s) && Enabled(s, t, a) && IsFinishStep(a)
    ensures OutOfOrder(FinishStep(s, t, a), i) <==> OutOfOrder(s, i) || Breaking(s, t, a, i)
  {
    var e, b := CollectedParts(s, t, a);
    var pc, safe := s.threads[t].wpc, SafeEpoch(s.threads[t].wpc);
    FinishFlows(s, t, a);
    NoObj(e, ImageOf(i), Eager);
    NoObj(b, IndexOf(i), Batched);
    EarlyAppend(s.d.reclaimed, e, b, i);
    if BatchedRuns(pc, a) && s.d.completed < safe {
      TakesDue(s, t, a, b, i);
      if HasDue(s.d.retired, ImageOf(i), safe, Batched) { BreaksWhenLeft(s, t, a, e, b, i); }
    } else {
      NoneObj(b, ImageOf(i));
    }
  }

  /** An image is due: its index is out of order exactly when it is in the list and the eager part does not run. */
  lemma BreaksWhenLeft(s: State, t: Tid, a: Step, e: seq<Node>, b: seq<Node>, i: nat)
    requires Ready(s) && Enabled(s, t, a)
    requires var pc, safe := s.threads[t].wpc, SafeEpoch(s.threads[t].wpc);
      && HasDue(s.d.retired, ImageOf(i), safe, Batched)
      && (forall n :: n in e <==>
        EagerRuns(pc, a) && s.d.completedEager < safe && n in s.d.retired && Due(n, safe, Eager))
    ensures (HasObj(s.ever, IndexOf(i)) && !HasObj(s.d.reclaimed, IndexOf(i)) && !HasObj(e, IndexOf(i))) <==>
      HasObj(s.d.retired, IndexOf(i)) &&
        !(EagerRuns(s.threads[t].wpc, a) && s.d.completedEager < SafeEpoch(s.threads[t].wpc))
  {
    var pc, safe := s.threads[t].wpc, SafeEpoch(s.threads[t].wpc);
    var j :| 0 <= j < |s.d.retired| && s.d.retired[j].obj == ImageOf(i) && Due(s.d.retired[j], safe, Batched);
    assert HasObj(s.d.retired, ImageOf(i));
    if HasObj(s.d.retired, IndexOf(i)) {
      IndexInList(s, i);
      if EagerRuns(pc, a) && s.d.completedEager < safe { EagerTakesIndex(s, t, e, i); } else { NoneObj(e, IndexOf(i)); }
    } else if HasObj(s.ever, IndexOf(i)) {
      IndexIsPublished(s, i);
    }
  }

  lemma OtherOrder(s: State, t: Tid, a: Step, s': State, i: nat)
    requires Ready(s) && Flow(s, t, a, s') && !IsFinishStep(a)
    ensures (OutOfOrder(s', i) <==> OutOfOrder(s, i)) && !Breaking(s, t, a, i)
  {
    if a.RetireAppend? {
      var th := s.threads[t];
      HasObjConcat(s.ever, [Node(th.wpc.obj, th.wpc.tag, th.wpc.cls)], IndexOf(i));
      if Retires(th, IndexOf(i)) {
        assert IndexOk(s, i);
        TaggedObj(s, s.d.reclaimed, ImageOf(i));
      }
    }
  }

  lemma StepOrder(s: State, t: Tid, a: Step, i: nat)
    requires Ready(s) && Enabled(s, t, a)
    ensures OutOfOrder(Next(s, t, a), i) <==> OutOfOrder(s, i) || Breaking(s, t, a, i)
  {
    if IsFinishStep(a) {
      FinishOrder(s, t, a, i);
    } else {
      StepFlows(s, t, a);
      OtherOrder(s, t, a, Next(s, t, a), i);
    }
  }

  lemma StepReady(s: State, t: Tid, a: Step)
    requires Ready(s) && Enabled(s, t, a) && RetiresInOrder(s, t, a)
    ensures Ready(Next(s, t, a))
  {
    var s' := Next(s, t, a);
    StepPreservesInv(s, t, a);
    StepBalances(s, t, a);
    if IsRetireStep(a) { RetireOnceOnly(s, t, a); } else { OtherOnceOnly(s, t, a); }
    StepFlows(s, t, a);
    TypedAfter(s, t, a, s');
    forall i: nat ensures IndexOk(s', i) { IndexOkAfter(s, t, a, s', i); }
  }

  lemma {:induction false} RunOrder(s: State, sched: Schedule, i: nat)
    requires Ready(s) && Runs(s, sched) && Disciplined(s, sched)
    ensures Ready(Run(s, sched))
    ensures OutOfOrder(Run(s, sched), i) <==> OutOfOrder(s, i) || Breaks(s, sched, i)
    decreases |sched|
  {
    if sched != [] {
      StepReady(s, sched[0].0, sched[0].1);
      StepOrder(s, sched[0].0, sched[0].1, i);
      RunOrder(Next(s, sched[0].0, sched[0].1), sched[1..], i);
    }
  }

  lemma InitReady(threads: nat)
    ensures Ready(Init(threads))
  {
    InitInv(threads);
    QueuedEmpty(threads);
  }

  // ----- results

  /** In every interleaving of `retire_image` calls with everything else, an image is reclaimed before its retired index
      if and only if some collection of the batched class met the guard `Breaking`. */
  lemma OrderBreaksExactlyWhen(threads: nat, sched: Schedule, i: nat)
    requires Runs(Init(threads), sched) && Disciplined(Init(threads), sched)
    ensures OutOfOrder(Run(Init(threads), sched), i) <==> Breaks(Init(threads), sched, i)
  {
    InitReady(threads);
    RunOrder(Init(threads), sched, i);
  }

  /** Heap effect of the callbacks, with the images that are gone so far. */
  lemma {:induction false} DeletedSoFar(done: seq<Node>, k: nat, image: nat)
    requires k <= |done|
    ensures image in ImageReclaim.Callbacks(done, k).deleted <==> ImageReclaim.Seen(done, k, ImageOf(image))
  {
    if k > 0 {
      DeletedSoFar(done, k - 1, image);
      ImageReclaim.SeenStep(done, k, ImageOf(image));
    }
  }

  /** Some callback among the first `k` was the index callback of an image already deleted. */
  ghost predicate Touches(done: seq<Node>, k: nat)
    requires k <= |done|
  {
    exists j :: 0 <= j < k && ImageReclaim.Seen(done, j, ImageOf(done[j].obj / 2))
  }

  lemma {:induction false} FaultSoFar(done: seq<Node>, k: nat)
    requires k <= |done|
    ensures ImageReclaim.Callbacks(done, k).fault <==> Touches(done, k)
  {
    if k > 0 {
      FaultSoFar(done, k - 1);
      DeletedSoFar(done, k - 1, done[k - 1].obj / 2);
      if j :| 0 <= j < k && ImageReclaim.Seen(done, j, ImageOf(done[j].obj / 2)) {
        if j < k - 1 { assert Touches(done, k - 1); }
      }
      if Touches(done, k - 1) {
        var j :| 0 <= j < k - 1 && ImageReclaim.Seen(done, j, ImageOf(done[j].obj / 2));
        assert Touches(done, k);
      }
    }
  }

  ghost predicate Distinct(done: seq<Node>) { forall x, y :: 0 <= x < y < |done| ==> done[x].obj != done[y].obj }

  lemma TouchIsEarly(done: seq<Node>, j: nat)
    requires Distinct(done) && j < |done| && ImageReclaim.Seen(done, j, ImageOf(done[j].obj / 2))
    ensures Early(done, done[j].obj / 2) && HasObj(done, IndexOf(done[j].obj / 2))
  {
    var i := done[j].obj / 2;
    var x :| 0 <= x < j && done[x].obj == ImageOf(i);
    assert done[j].obj == IndexOf(i);
    assert !ImageReclaim.Seen(done, x, IndexOf(i));
  }

  lemma EarlyTouches(done: seq<Node>, i: nat)
    requires Distinct(done) && Early(done, i) && HasObj(done, IndexOf(i))
    ensures Touches(done, |done|)
  {
    var x :| 0 <= x < |done| && done[x].obj == ImageOf(i) && !ImageReclaim.Seen(done, x, IndexOf(i));
    var j :| 0 <= j < |done| && done[j].obj == IndexOf(i);
    assert x < j && done[j].obj / 2 == i;
    assert ImageReclaim.Seen(done, j, ImageOf(done[j].obj / 2));
  }

  /** When no callback runs twice, a deleted image is touched exactly by an index that comes after its image. */
  lemma TouchedExactlyWhen(done: seq<Node>)
    requires Distinct(done)
    ensures Touches(done, |done|) <==> exists i: nat :: Early(done, i) && HasObj(done, IndexOf(i))
  {
    if j :| 0 <= j < |done| && ImageReclaim.Seen(done, j, ImageOf(done[j].obj / 2)) { TouchIsEarly(done, j); }
    if i: nat :| Early(done, i) && HasObj(done, IndexOf(i)) { EarlyTouches(done, i); }
  }

  /** In every such interleaving a callback runs inside a deleted image if and only if the guard was met for some
      image and that image's index has been reclaimed since. */
  lemma FaultExactlyWhen(threads: nat, sched: Schedule)
    requires Runs(Init(threads), sched) && Disciplined(Init(threads), sched)
    ensures var done := Run(Init(threads), sched).d.reclaimed;
      ImageReclaim.Callbacks(done, |done|).fault <==>
      exists i: nat :: Breaks(Init(threads), sched, i) && HasObj(done, IndexOf(i))
  {
    var s := Run(Init(threads), sched);
    var done := s.d.reclaimed;
    FaultSoFar(done, |done|);
    forall x, y | 0 <= x < y < |done|
      ensures done[x].obj != done[y].obj
    {
      CallbackRunsAtMostOnce(threads, sched, x, y);
    }
    TouchedExactlyWhen(done);
    InitReady(threads);
    RunOrder(Init(threads), sched, 0);
    forall i: nat | HasObj(done, IndexOf(i)) ensures Early(done, i) <==> Breaks(Init(threads), sched, i) {
      OrderBreaksExactlyWhen(threads, sched, i);
      ReclaimedWasRetired(s, IndexOf(i));
    }
  }

  lemma ReclaimedWasRetired(s: State, o: Obj)
    requires Balanced(s) && HasObj(s.d.reclaimed, o)
    ensures HasObj(s.ever, o)
  {
    var k :| 0 <= k < |s.d.reclaimed| && s.d.reclaimed[k].obj == o;
    assert s.d.reclaimed[k] in multiset(s.d.reclaimed);
    assert s.d.reclaimed[k] in multiset(s.ever);
    HasNode(s.ever, s.d.reclaimed[k]);
  }

  /** Whatever the order, a slot buffer is released by the first of the two callbacks and by no other. */
  lemma {:induction false} BufferReleasedOnce(done: seq<Node>, k: nat, image: nat)
    requires k <= |done|
    ensures var h := ImageReclaim.Callbacks(done, k);
      && (image in h.destroyed <==>
        ImageReclaim.Seen(done, k, IndexOf(image)) || ImageReclaim.Seen(done, k, ImageOf(image)))
      && h.released[image] == if image in h.destroyed then 1 else 0
  {
    if k > 0 {
      BufferReleasedOnce(done, k - 1, image);
      ImageReclaim.SeenStep(done, k, IndexOf(image));
      ImageReclaim.SeenStep(done, k, ImageOf(image));
    }
  }

  /** The outcome an operation would record for a node says whether the node's callback has run. */
  ghost predicate OutcomeHonest(d: Shared, n: Node, p: ImageReclaim.Policy) {
    ImageReclaim.Outcome(d, n.epoch, p) == ImageReclaim.Reclaimed <==> n in d.reclaimed
  }

  /** At every point of every run, collections in progress included: the outcome recorded for a published image is
      honest if and only if the image has not been published at or below the batched watermark and is not one that a
      collector is about to reach, or its callback has run. */
  lemma OutcomeHonestExactlyWhen(threads: nat, run: seq<FineStep>, n: Node, p: ImageReclaim.Policy)
    requires FineRuns(Start(threads), run) && n.cls == Batched
    requires var d := Domain(FineRun(Start(threads), run)); n in d.retired || n in d.reclaimed
    ensures var f := FineRun(Start(threads), run);
      OutcomeHonest(Domain(f), n, p) <==> n in Domain(f).reclaimed || !(n in f.late || Ahead(f, n))
  {
    var f := FineRun(Start(threads), run);
    TokenEarlyExactlyWhen(threads, run, n);
    assert ImageReclaim.Outcome(Domain(f), n.epoch, p) == ImageReclaim.Reclaimed
      <==> ReclaimedThrough(Domain(f), n.epoch, n.cls);
  }
}
