/** Retired nodes are conserved over every run, and each reclaim callback runs at most once. */
module RcuConservation {
  import opened RcuDomain
  import opened RcuProtocol
  import opened RcuSafety

  /** All nodes waiting in thread-local batches. */
  function Queued(threads: seq<Thread>): multiset<Node> {
    if threads == [] then multiset{} else multiset(threads[0].batch) + Queued(threads[1..])
  }

  lemma {:induction false} QueuedUpdate(threads: seq<Thread>, t: nat, th: Thread)
    requires t < |threads|
    ensures Queued(threads[t := th]) + multiset(threads[t].batch) == Queued(threads) + multiset(th.batch)
  {
    if t == 0 {
      assert threads[t := th][1..] == threads[1..];
    } else {
      assert threads[t := th][0] == threads[0] && threads[1..][t - 1] == threads[t];
      assert threads[t := th][1..] == threads[1..][t - 1 := th];
      QueuedUpdate(threads[1..], t - 1, th);
      var first, rest, rest' := multiset(threads[0].batch), Queued(threads[1..]), Queued(threads[1..][t - 1 := th]);
      assert (first + rest') + multiset(threads[t].batch) == first + (rest' + multiset(threads[t].batch));
      assert (first + rest) + multiset(th.batch) == first + (rest + multiset(th.batch));
    }
  }

  lemma {:induction false} QueuedEmpty(n: nat)
    ensures Queued(seq(n, i => FRESH)) == multiset{}
  {
    if n != 0 {
      assert seq(n, i => FRESH)[1..] == seq(n - 1, i => FRESH);
      QueuedEmpty(n - 1);
    }
  }

  /** Every node ever queued is in the published list, in one local batch, or has been reclaimed. */
  ghost predicate Balanced(s: State) {
    multiset(s.ever) == multiset(s.d.retired) + multiset(s.d.reclaimed) + Queued(s.threads)
  }

  ghost predicate DistinctObjects(nodes: seq<Node>) {
    forall i, j :: 0 <= i < j < |nodes| ==> nodes[i].obj != nodes[j].obj
  }

  /** What a step of `t` adds to the list, to the reclaimed nodes and to its own batch, it takes
      from one of them, unless it queues a node that is new to `ever`. */
  ghost predicate Shifts(s: State, t: Tid, s': State)
    requires t < |s.threads|
  {
    && |s'.threads| == |s.threads|
    && s'.threads == s.threads[t := s'.threads[t]]
    && multiset(s'.d.retired) + multiset(s'.d.reclaimed) + multiset(s'.threads[t].batch) + multiset(s.ever)
    == multiset(s.d.retired) + multiset(s.d.reclaimed) + multiset(s.threads[t].batch) + multiset(s'.ever)
  }

  lemma ShiftBalances(s: State, t: Tid, s': State)
    requires t < |s.threads| && Balanced(s) && Shifts(s, t, s')
    ensures Balanced(s')
  {
    QueuedUpdate(s.threads, t, s'.threads[t]);
    var q, q' := Queued(s.threads), Queued(s'.threads);
    var b, b' := multiset(s.threads[t].batch), multiset(s'.threads[t].batch);
    forall n: Node
      ensures multiset(s'.ever)[n] == (multiset(s'.d.retired) + multiset(s'.d.reclaimed) + q')[n]
    {
      assert (q' + b)[n] == (q + b')[n];
      assert (multiset(s'.d.retired) + multiset(s'.d.reclaimed) + b' + multiset(s.ever))[n]
          == (multiset(s.d.retired) + multiset(s.d.reclaimed) + b + multiset(s'.ever))[n];
    }
  }

  lemma RetireShifts(s: State, t: Tid, a: Step)
    requires Enabled(s, t, a) && IsRetireStep(a)
    ensures Shifts(s, t, RetireStep(s, t, a))
  {
  }

  lemma EnterShifts(s: State, t: Tid, a: Step)
    requires Enabled(s, t, a) && IsEnterStep(a)
    ensures Shifts(s, t, EnterStep(s, t, a))
  {
  }

  lemma FinishShifts(s: State, t: Tid, a: Step)
    requires Enabled(s, t, a) && IsFinishStep(a)
    ensures Shifts(s, t, FinishStep(s, t, a))
  {
    var pc := s.threads[t].wpc;
    if a.TryFinish? && pc.min > 1 {
      CollectBothReaches(s.d, pc.min - 1);
    } else if a.Finish? && pc.call == Until {
      CollectBothReaches(s.d, pc.prior);
    } else if a.Finish? {
      CollectReaches(s.d, pc.prior, if pc.call.eager then Eager else Batched);
    }
  }

  lemma StepBalances(s: State, t: Tid, a: Step)
    requires Enabled(s, t, a) && Balanced(s)
    ensures Balanced(Next(s, t, a))
  {
    if IsRetireStep(a) { RetireShifts(s, t, a); }
    else if IsEnterStep(a) { EnterShifts(s, t, a); }
    else if IsFinishStep(a) { FinishShifts(s, t, a); }
    ShiftBalances(s, t, Next(s, t, a));
  }

  /** A thread at `Retiring` is about to queue an object nobody else has queued or is queueing. */
  ghost predicate Exclusive(s: State, t: Tid)
    requires t < |s.threads|
  {
    s.threads[t].wpc.Retiring? ==>
      && (forall n :: n in s.ever ==> n.obj != s.threads[t].wpc.obj)
      && (forall u: Tid :: u < |s.threads| && u != t && s.threads[u].wpc.Retiring? ==>
        s.threads[u].wpc.obj != s.threads[t].wpc.obj)
  }

  /** No object is queued twice: a retirement takes its object out of `pending` for good. */
  ghost predicate OnceOnly(s: State) {
    && DistinctObjects(s.ever)
    && (forall n :: n in s.ever ==> n.obj in s.tags)
    && (forall t: Tid :: t < |s.threads| ==> Exclusive(s, t))
  }

  lemma RetireOnceOnly(s: State, t: Tid, a: Step)
    requires Inv(s) && Enabled(s, t, a) && OnceOnly(s) && IsRetireStep(a)
    ensures OnceOnly(RetireStep(s, t, a))
  {
    var s' := RetireStep(s, t, a);
    assert ObjectsOk(s, t) && Exclusive(s, t);
    forall u: Tid | u < |s.threads| ensures Exclusive(s', u) {
      assert ObjectsOk(s, u) && Exclusive(s, u);
      forall v: Tid | v < |s.threads| && v != u && s'.threads[u].wpc.Retiring? && s'.threads[v].wpc.Retiring?
        ensures s'.threads[v].wpc.obj != s'.threads[u].wpc.obj
      {
        assert ObjectsOk(s, v) && Exclusive(s, v);
      }
    }
  }

  lemma OtherOnceOnly(s: State, t: Tid, a: Step)
    requires Enabled(s, t, a) && OnceOnly(s) && !IsRetireStep(a)
    ensures OnceOnly(Next(s, t, a))
  {
    var s' := Next(s, t, a);
    assert s'.ever == s.ever && s'.tags == s.tags && |s'.threads| == |s.threads|;
    forall u: Tid | u < |s.threads| && s'.threads[u].wpc.Retiring? ensures s'.threads[u].wpc == s.threads[u].wpc {
    }
    forall u: Tid | u < |s.threads| ensures Exclusive(s', u) {
      assert Exclusive(s, u);
    }
  }

  lemma {:induction false} RunConserves(s: State, sched: Schedule)
    requires Inv(s) && Balanced(s) && OnceOnly(s) && Runs(s, sched)
    ensures Balanced(Run(s, sched)) && OnceOnly(Run(s, sched))
    decreases |sched|
  {
    if sched != [] {
      var (t, a) := sched[0];
      StepPreservesInv(s, t, a);
      StepBalances(s, t, a);
      if IsRetireStep(a) { RetireOnceOnly(s, t, a); } else { OtherOnceOnly(s, t, a); }
      RunConserves(Next(s, t, a), sched[1..]);
    }
  }

  /** The nodes ever retired are exactly those reclaimed, published or waiting in a batch. */
  lemma RetiredNodesAreConserved(threads: nat, sched: Schedule)
    requires Runs(Init(threads), sched)
    ensures var s := Run(Init(threads), sched);
      multiset(s.ever) == multiset(s.d.retired) + multiset(s.d.reclaimed) + Queued(s.threads)
  {
    InitInv(threads);
    QueuedEmpty(threads);
    RunConserves(Init(threads), sched);
  }

  lemma {:induction false} CountOne(nodes: seq<Node>, n: Node)
    requires DistinctObjects(nodes)
    ensures multiset(nodes)[n] <= 1
  {
    if nodes != [] {
      assert nodes == [nodes[0]] + nodes[1..];
      CountOne(nodes[1..], n);
      if nodes[0] == n { assert n !in nodes[1..]; }
    }
  }

  lemma {:induction false} CountTwo(nodes: seq<Node>, i: nat, j: nat)
    requires i < j < |nodes| && nodes[i] == nodes[j]
    ensures multiset(nodes)[nodes[i]] >= 2
  {
    assert nodes == nodes[..j] + nodes[j..];
    assert nodes[..j][i] == nodes[i] && nodes[j..][0] == nodes[i];
    assert nodes[i] in multiset(nodes[..j]) && nodes[i] in multiset(nodes[j..]);
  }

  /** No object's callback runs twice. */
  lemma CallbackRunsAtMostOnce(threads: nat, sched: Schedule, i: nat, j: nat)
    requires Runs(Init(threads), sched)
    requires i < j < |Run(Init(threads), sched).d.reclaimed|
    ensures var done := Run(Init(threads), sched).d.reclaimed; done[i].obj != done[j].obj
  {
    InitInv(threads);
    QueuedEmpty(threads);
    RunConserves(Init(threads), sched);
    var s := Run(Init(threads), sched);
    var x, y := s.d.reclaimed[i], s.d.reclaimed[j];
    assert x in multiset(s.ever) && y in multiset(s.ever);
    if x.obj == y.obj {
      assert x == y;
      CountTwo(s.d.reclaimed, i, j);
      CountOne(s.ever, x);
    }
  }

  // ----- the size of a local batch

  /** A batch holds fewer than 64 nodes, unless its thread has just filled it and has to publish it next. */
  ghost predicate BatchSized(th: Thread) {
    |th.batch| <= 64 && (|th.batch| == 64 <==> th.wpc == MustPublish)
  }

  lemma StepKeepsSizes(s: State, t: Tid, a: Step, u: Tid)
    requires Enabled(s, t, a) && u < |s.threads| && BatchSized(s.threads[u])
    ensures |Next(s, t, a).threads| == |s.threads| && BatchSized(Next(s, t, a).threads[u])
  {
    assert u != t ==> Next(s, t, a).threads[u] == s.threads[u];
  }

  lemma {:induction false} BatchesStaySmall(s: State, sched: Schedule, u: Tid)
    requires Runs(s, sched) && u < |s.threads| && BatchSized(s.threads[u])
    ensures u < |Run(s, sched).threads| && BatchSized(Run(s, sched).threads[u])
    decreases |sched|
  {
    if sched != [] {
      StepKeepsSizes(s, sched[0].0, sched[0].1, u);
      BatchesStaySmall(Next(s, sched[0].0, sched[0].1), sched[1..], u);
    }
  }

  /** In every run no thread keeps 64 nodes to itself: the 64th is published with the others before anything else. */
  lemma BatchesArePublished(threads: nat, sched: Schedule, t: Tid)
    requires Runs(Init(threads), sched) && t < threads
    ensures t < |Run(Init(threads), sched).threads|
    ensures var th := Run(Init(threads), sched).threads[t];
      |th.batch| < 64 || (|th.batch| == 64 && th.wpc == MustPublish)
  {
    BatchesStaySmall(Init(threads), sched, t);
  }
}
