/** When `reclaimed_through` (RCU/Domain.h) answers before the callback: it takes no lock, so it sees a
    collection in progress, and it knows nothing of nodes that were not in the list.
 */
module RcuTokens {
  import opened RcuDomain
  import opened RcuProtocol
  import opened RcuSafety
  import opened RcuConservation
  import opened RcuFine

  /** `reclaimed_through`. */
  predicate ReclaimedThrough(d: Shared, token: nat, cls: ReclaimClass) { token != 0 && token <= Watermark(d, cls) }

  /** The token of a retirement that got no node is 0, and no watermark ever answers it. */
  lemma FailedRetirementIsNotAnswered(d: Shared, cls: ReclaimClass)
    ensures !ReclaimedThrough(d, 0, cls)
    ensures forall token: nat :: ReclaimedThrough(d, token, cls) <==>
      1 <= token <= if cls == Eager then d.completedEager else d.completed
  {
  }

  /** The node waits above its watermark, or has been reclaimed at or below it. */
  predicate Placed(d: Shared, n: Node) {
    if n in d.reclaimed then n.epoch <= Watermark(d, n.cls) else n in d.retired && Watermark(d, n.cls) < n.epoch
  }

  lemma CollectPlaces(d: Shared, safe: nat, cls: ReclaimClass, n: Node)
    requires Placed(d, n)
    ensures Placed(Collect(d, safe, cls), n)
  {
    CollectSplitsList(d.retired, safe, cls);
  }

  lemma CollectBothPlaces(d: Shared, safe: nat, n: Node)
    requires Placed(d, n)
    ensures Placed(CollectBoth(d, safe), n)
  {
    CollectPlaces(d, safe, Eager, n);
    CollectPlaces(Collect(d, safe, Eager), safe, Batched, n);
  }

  lemma FinishPlaces(s: State, t: Tid, a: Step, n: Node)
    requires Enabled(s, t, a) && IsFinishStep(a) && Placed(s.d, n)
    ensures Placed(FinishStep(s, t, a).d, n)
  {
    var pc := s.threads[t].wpc;
    if a.TryFinish? && pc.min > 1 {
      CollectBothPlaces(s.d, pc.min - 1, n);
    } else if a.Finish? && pc.call == Until {
      CollectBothPlaces(s.d, pc.prior, n);
    } else if a.Finish? {
      CollectPlaces(s.d, pc.prior, if pc.call.eager then Eager else Batched, n);
    }
  }

  /** Steps that do not collect move no watermark, run no callback and take nothing from the list. */
  lemma OnlyFinishCollects(s: State, t: Tid, a: Step)
    requires Enabled(s, t, a) && !IsFinishStep(a)
    ensures var d' := Next(s, t, a).d;
      && d'.completed == s.d.completed && d'.completedEager == s.d.completedEager && d'.reclaimed == s.d.reclaimed
      && forall n :: n in s.d.retired ==> n in d'.retired
  {
  }

  lemma {:induction false} RunPlaces(s: State, sched: Schedule, n: Node)
    requires Runs(s, sched) && Placed(s.d, n)
    ensures Placed(Run(s, sched).d, n)
    decreases |sched|
  {
    if sched != [] {
      var (t, a) := sched[0];
      if IsFinishStep(a) { FinishPlaces(s, t, a, n); } else { OnlyFinishCollects(s, t, a); }
      RunPlaces(Next(s, t, a), sched[1..], n);
    }
  }

  // ----- a node is in one place only

  lemma {:induction false} QueuedIn(threads: seq<Thread>, t: nat, n: Node)
    requires t < |threads| && n in threads[t].batch
    ensures n in Queued(threads)
  {
    if t > 0 { QueuedIn(threads[1..], t - 1, n); }
  }

  lemma OnePlace(s: State, n: Node)
    requires Balanced(s) && OnceOnly(s)
    ensures multiset(s.d.retired)[n] + multiset(s.d.reclaimed)[n] + Queued(s.threads)[n] <= 1
  {
    CountOne(s.ever, n);
    assert multiset(s.ever)[n] == (multiset(s.d.retired) + multiset(s.d.reclaimed) + Queued(s.threads))[n];
  }

  lemma WaitingIsNotReclaimed(s: State, n: Node)
    requires Balanced(s) && OnceOnly(s) && (n in s.d.retired || n in Queued(s.threads))
    ensures n !in s.d.reclaimed
  {
    OnePlace(s, n);
    assert n in s.d.retired <==> multiset(s.d.retired)[n] > 0;
    assert n in s.d.reclaimed <==> multiset(s.d.reclaimed)[n] > 0;
  }

  // ----- what a lock-free reader of the watermark sees

  /** Every reachable protocol state has what the results below need. */
  lemma Reachable(threads: nat, sched: Schedule)
    requires Runs(Init(threads), sched)
    ensures var s := Run(Init(threads), sched); Inv(s) && Balanced(s) && OnceOnly(s)
  {
    InitInv(threads);
    QueuedEmpty(threads);
    RunKeepsInv(Init(threads), sched);
    RunConserves(Init(threads), sched);
  }

  /** A collector that may take the node holds the lock, has stored its watermark and has not reached the node. */
  predicate Ahead(f: Fine, n: Node) {
    && f.work.Some? && f.work.value.pass.Walking?
    && Due(n, f.work.value.safe, f.work.value.pass.cls)
    && f.work.value.pass.kept <= |f.work.value.d.retired| && n in f.work.value.d.retired[f.work.value.pass.kept..]
  }

  /** A node in the list is at or below its watermark exactly when it is late; a reclaimed node always is. */
  predicate MarkFits(d: Shared, late: set<Node>, n: Node) {
    && (n in d.retired ==> (n.epoch <= Watermark(d, n.cls) <==> n in late))
    && (n in d.reclaimed ==> n.epoch <= Watermark(d, n.cls))
  }

  lemma CollectMarks(d: Shared, late: set<Node>, safe: nat, cls: ReclaimClass, n: Node)
    requires MarkFits(d, late, n)
    ensures MarkFits(Collect(d, safe, cls), late, n)
  {
    CollectSplitsList(d.retired, safe, cls);
  }

  lemma {:induction false} CollectAllMarks(d: Shared, late: set<Node>, safe: nat, xs: seq<ReclaimClass>, n: Node)
    requires MarkFits(d, late, n)
    ensures MarkFits(CollectAll(d, safe, xs), late, n)
  {
    if xs != [] {
      CollectAllMarks(d, late, safe, xs[..|xs| - 1], n);
      CollectMarks(CollectAll(d, safe, xs[..|xs| - 1]), late, safe, xs[|xs| - 1], n);
    }
  }

  ghost predicate TokensOk(f: Fine) {
    && (forall n :: n in f.late ==> n.epoch <= Watermark(f.base.d, n.cls))
    && (forall n :: MarkFits(f.base.d, f.late, n))
  }

  lemma PlainTokens(f: Fine, t: Tid, a: Step, n: Node)
    requires TokensOk(f) && Can(f, Plain(t, a))
    ensures var f' := FineNext(f, Plain(t, a));
      MarkFits(f'.base.d, f'.late, n) && (n in f'.late ==> n.epoch <= Watermark(f'.base.d, n.cls))
  {
    assert MarkFits(f.base.d, f.late, n);
    PlainMoves(f.base, t, a);
    if f.work.Some? { LockFreeLeavesDomain(f.base, t, a); }
  }

  /** A step without a collection moves no watermark and runs no callback; what it adds to the list leaves its batch. */
  lemma PlainMoves(s: State, t: Tid, a: Step)
    requires Enabled(s, t, a) && Passes(s.threads[t].wpc, a) == []
    ensures var s' := Next(s, t, a);
      && t < |s'.threads|
      && s'.d.completed == s.d.completed && s'.d.completedEager == s.d.completedEager && s'.d.reclaimed == s.d.reclaimed
      && (forall n :: n in s'.d.retired <==>
            n in s.d.retired || (n in s.threads[t].batch && s'.threads[t].batch == [] && s'.d.retired != s.d.retired))
      && (s'.d.retired != s.d.retired ==> s'.threads[t].batch == [])
      && (s'.d.retired == s.d.retired ==> forall n :: n in s.threads[t].batch ==> n in s'.threads[t].batch)
  {
  }

  lemma LockFreeLeavesDomain(s: State, t: Tid, a: Step)
    requires Enabled(s, t, a) && LockFree(a) && Passes(s.threads[t].wpc, a) == []
    ensures Next(s, t, a).d == s.d
  {
  }

  lemma ReleaseTokens(f: Fine, n: Node)
    requires FineOk(f) && TokensOk(f) && Can(f, Release)
    ensures var f' := FineNext(f, Release);
      MarkFits(f'.base.d, f'.late, n) && (n in f'.late ==> n.epoch <= Watermark(f'.base.d, n.cls))
  {
    var w := f.work.value;
    assert MarkFits(f.base.d, f.late, n);
    ReleaseIsNext(f);
    PassesAreStep(f.base, w.t, w.a);
    CollectAllMarks(f.base.d, f.late, w.safe, Passes(f.base.threads[w.t].wpc, w.a), n);
    StepPreservesInv(f.base, w.t, w.a);
  }

  lemma {:induction false} FineTokens(f: Fine, run: seq<FineStep>)
    requires FineOk(f) && TokensOk(f) && FineRuns(f, run)
    ensures FineOk(FineRun(f, run)) && TokensOk(FineRun(f, run))
    decreases |run|
  {
    if run != [] {
      var m := run[0];
      var f' := FineNext(f, m);
      FineStepOk(f, m);
      forall n ensures MarkFits(f'.base.d, f'.late, n) && (n in f'.late ==> n.epoch <= Watermark(f'.base.d, n.cls)) {
        if m.Plain? { PlainTokens(f, m.t, m.a, n); }
        else if m.Release? { ReleaseTokens(f, n); }
        else { assert MarkFits(f.base.d, f.late, n); }
      }
      FineTokens(f', run[1..]);
    }
  }

  /** In the middle of a pass: the nodes visited are settled, the others are ahead if they are due. */
  lemma WalkingAnswers(f: Fine, n: Node)
    requires FineOk(f) && TokensOk(f) && f.work.Some? && f.work.value.pass.Walking?
    ensures n in Domain(f).retired ==> (n.epoch <= Watermark(Domain(f), n.cls) <==> n in f.late || Ahead(f, n))
    ensures n in Domain(f).reclaimed ==> n.epoch <= Watermark(Domain(f), n.cls)
  {
    var w := f.work.value;
    var p := CollectAll(f.base.d, w.safe, w.done);
    assert MarkFits(f.base.d, f.late, n);
    CollectAllMarks(f.base.d, f.late, w.safe, w.done, n);
    PassAnswers(p, w.d, f.late, w.safe, w.pass.cls, w.pass.seen, w.pass.kept, n);
  }

  lemma PassAnswers(
      p: Shared, d: Shared, late: set<Node>, safe: nat, cls: ReclaimClass, seen: seq<Node>, kept: nat, n: Node)
    requires MarkFits(p, late, n) && Partly(p, d, safe, cls, seen, kept)
    ensures n in d.retired ==>
      (n.epoch <= Watermark(d, n.cls) <==> n in late || (Due(n, safe, cls) && n in d.retired[kept..]))
    ensures n in d.reclaimed ==> n.epoch <= Watermark(d, n.cls)
  {
    CollectSplitsList(seen, safe, cls);
    assert d.retired == d.retired[..kept] + d.retired[kept..];
    assert n in d.retired ==> n in p.retired;
  }

  lemma BetweenAnswers(f: Fine, n: Node)
    requires FineOk(f) && TokensOk(f) && (f.work.Some? ==> f.work.value.pass.Between?)
    ensures MarkFits(Domain(f), f.late, n)
  {
    assert MarkFits(f.base.d, f.late, n);
    if f.work.Some? {
      var w := f.work.value;
      CollectAllMarks(f.base.d, f.late, w.safe, w.done, n);
    }
  }

  // ----- a node is in one place only, also in the middle of a collection

  lemma {:induction false} CollectAllConserves(d: Shared, safe: nat, xs: seq<ReclaimClass>)
    ensures Conserved(d, CollectAll(d, safe, xs))
  {
    if xs != [] {
      CollectAllConserves(d, safe, xs[..|xs| - 1]);
      CollectReaches(CollectAll(d, safe, xs[..|xs| - 1]), safe, xs[|xs| - 1]);
    }
  }

  lemma PartlyConserves(p: Shared, d: Shared, safe: nat, cls: ReclaimClass, seen: seq<Node>, kept: nat)
    requires Partly(p, d, safe, cls, seen, kept)
    ensures Conserved(p, d)
  {
    CollectSplitsList(seen, safe, cls);
    assert d.retired == d.retired[..kept] + d.retired[kept..];
  }

  lemma FineConserves(f: Fine)
    requires FineOk(f)
    ensures Conserved(f.base.d, Domain(f))
  {
    if f.work.Some? {
      var w := f.work.value;
      CollectAllConserves(f.base.d, w.safe, w.done);
      if w.pass.Walking? {
        PartlyConserves(CollectAll(f.base.d, w.safe, w.done), w.d, w.safe, w.pass.cls, w.pass.seen, w.pass.kept);
      }
    }
  }

  lemma FineOnePlace(f: Fine, n: Node)
    requires FineOk(f) && Balanced(f.base) && OnceOnly(f.base) && n in Domain(f).retired
    ensures n !in Domain(f).reclaimed && (n in f.base.d.retired || n in f.base.d.reclaimed)
  {
    FineConserves(f);
    OnePlace(f.base, n);
    var d, b := Domain(f), f.base.d;
    assert multiset(d.retired)[n] + multiset(d.reclaimed)[n] == (multiset(d.retired) + multiset(d.reclaimed))[n];
    assert multiset(b.retired)[n] + multiset(b.reclaimed)[n] == (multiset(b.retired) + multiset(b.reclaimed))[n];
    assert n in multiset(d.retired);
  }

  // ----- results

  /** The token is answered as reclaimed, and the callback has not run. */
  predicate AnsweredEarly(f: Fine, n: Node) {
    n !in Domain(f).reclaimed && ReclaimedThrough(Domain(f), n.epoch, n.cls)
  }

  /** At every point of every run, collections in progress included: for a node in the list `reclaimed_through`
      answers true before the callback if and only if the node was published at or below its watermark, or a
      collector with a safe epoch at or above the node's holds the lock and has not reached it; for a reclaimed node
      it always answers true. */
  lemma TokenEarlyExactlyWhen(threads: nat, run: seq<FineStep>, n: Node)
    requires FineRuns(Start(threads), run)
    ensures var f := FineRun(Start(threads), run);
      && (n in Domain(f).retired ==> (AnsweredEarly(f, n) <==> n in f.late || Ahead(f, n)))
      && (n in Domain(f).reclaimed ==> ReclaimedThrough(Domain(f), n.epoch, n.cls))
  {
    var f := FineReachable(threads, run);
    AnswersAt(f, n);
  }

  ghost predicate Sound(f: Fine) { FineOk(f) && TokensOk(f) && Balanced(f.base) && OnceOnly(f.base) }

  lemma AnswersAt(f: Fine, n: Node)
    requires Sound(f)
    ensures n in Domain(f).retired ==> (AnsweredEarly(f, n) <==> n in f.late || Ahead(f, n))
    ensures n in Domain(f).reclaimed ==> ReclaimedThrough(Domain(f), n.epoch, n.cls)
  {
    if n in Domain(f).retired { FineOnePlace(f, n); }
    if n in Domain(f).reclaimed { FineReclaimed(f, n); }
    assert n in Domain(f).retired || n in Domain(f).reclaimed ==> Tagged(f.base, n);
    if f.work.Some? && f.work.value.pass.Walking? { WalkingAnswers(f, n); } else { BetweenAnswers(f, n); }
  }

  lemma FineReclaimed(f: Fine, n: Node)
    requires FineOk(f) && n in Domain(f).reclaimed
    ensures n in f.base.d.retired || n in f.base.d.reclaimed
  {
    FineConserves(f);
    assert n in multiset(Domain(f).reclaimed);
    assert n in multiset(f.base.d.retired) + multiset(f.base.d.reclaimed);
  }

  lemma FineReachable(threads: nat, run: seq<FineStep>) returns (f: Fine)
    requires FineRuns(Start(threads), run)
    ensures f == FineRun(Start(threads), run)
    ensures Sound(f)
  {
    f := FineRun(Start(threads), run);
    InitInv(threads);
    var sched := FineRunsAreRuns(Start(threads), run);
    Reachable(threads, sched);
    FineTokens(Start(threads), run);
  }

  lemma SoundRun(f: Fine, more: seq<FineStep>) returns (sched: Schedule)
    requires Sound(f) && FineRuns(f, more)
    ensures Sound(FineRun(f, more)) && Runs(f.base, sched) && Run(f.base, sched) == FineRun(f, more).base
  {
    sched := FineRunsAreRuns(f, more);
    FineTokens(f, more);
    RunConserves(f.base, sched);
  }

  /** What the protocol has reclaimed is reclaimed in the middle of a collection too. */
  lemma BaseReclaimed(f: Fine, n: Node)
    requires FineOk(f) && n in f.base.d.reclaimed
    ensures n in Domain(f).reclaimed
  {
    if f.work.Some? {
      var w := f.work.value;
      assert CollectAll(f.base.d, w.safe, []) == f.base.d && [] + w.done == w.done;
      CollectAllGrows(f.base.d, w.safe, [], w.done, n);
    }
  }

  /** Whenever the token is answered early, a collector is about to reach the node. */
  predicate EarlyOnlyAhead(f: Fine, n: Node) { AnsweredEarly(f, n) ==> Ahead(f, n) }

  ghost predicate AlwaysOnlyAhead(f: Fine, n: Node) {
    forall more :: FineRuns(f, more) ==> EarlyOnlyAhead(FineRun(f, more), n)
  }

  lemma AboveStaysHonest(f: Fine, n: Node)
    requires Sound(f) && n in f.base.d.retired && n !in f.base.d.reclaimed && Watermark(f.base.d, n.cls) < n.epoch
    ensures AlwaysOnlyAhead(f, n)
  {
    forall more | FineRuns(f, more) ensures EarlyOnlyAhead(FineRun(f, more), n) {
      var g := FineRun(f, more);
      var sched := SoundRun(f, more);
      RunPlaces(f.base, sched, n);
      PlacedIsHonest(g, n);
    }
  }

  lemma PlacedIsHonest(g: Fine, n: Node)
    requires Sound(g) && Placed(g.base.d, n)
    ensures EarlyOnlyAhead(g, n)
  {
    if n in g.base.d.reclaimed {
      BaseReclaimed(g, n);
    } else {
      assert n !in g.late;
      AnswersAt(g, n);
      FineConserves(g);
      assert n in multiset(g.base.d.retired);
      assert n in multiset(Domain(g).retired) + multiset(Domain(g).reclaimed);
    }
  }

  /** What a caller can check: the step that publishes its batch decides. From there on the token of a node in it is
      answered early only while a collector is about to reach the node, if and only if the node is above its watermark
      then; otherwise the answer is already wrong. */
  lemma PublicationDecides(threads: nat, run: seq<FineStep>, t: Tid, a: Step, n: Node)
    requires FineRuns(Start(threads), run)
    requires var f := FineRun(Start(threads), run);
      && f.work.None? && Can(f, Plain(t, a))
      && n in f.base.threads[t].batch && n in FineNext(f, Plain(t, a)).base.d.retired
    ensures var f := FineRun(Start(threads), run);
      AlwaysOnlyAhead(FineNext(f, Plain(t, a)), n) <==> Watermark(f.base.d, n.cls) < n.epoch
  {
    var f := FineReachable(threads, run);
    PublishedNode(f, t, a, n);
    DecidedWhenFree(FineNext(f, Plain(t, a)), n);
  }

  lemma PublishedNode(f: Fine, t: Tid, a: Step, n: Node)
    requires Sound(f) && f.work.None? && Can(f, Plain(t, a)) && n in FineNext(f, Plain(t, a)).base.d.retired
    ensures var f' := FineNext(f, Plain(t, a));
      Sound(f') && f'.work.None? && Watermark(f'.base.d, n.cls) == Watermark(f.base.d, n.cls)
  {
    FineFirst(f, Plain(t, a), []);
    var sched := SoundRun(f, [Plain(t, a)] + []);
    PlainMoves(f.base, t, a);
  }

  lemma DecidedWhenFree(f: Fine, n: Node)
    requires Sound(f) && f.work.None? && n in f.base.d.retired
    ensures AlwaysOnlyAhead(f, n) <==> Watermark(f.base.d, n.cls) < n.epoch
  {
    WaitingIsNotReclaimed(f.base, n);
    assert Tagged(f.base, n);
    if Watermark(f.base.d, n.cls) < n.epoch {
      AboveStaysHonest(f, n);
    } else {
      assert FineRuns(f, []) && FineRun(f, []) == f;
      assert AnsweredEarly(f, n);
    }
  }

  // ----- an advancement reclaims what it finds in the list

  /** The call collects this class when its grace period is proven. */
  predicate Collects(call: Call, cls: ReclaimClass) { call == Until || (call.eager <==> cls == Eager) }

  /** The node has been reclaimed, or waits in the list with its watermark below `limit`. */
  predicate Promised(d: Shared, n: Node, limit: nat) {
    n in d.reclaimed || (n in d.retired && Watermark(d, n.cls) < limit)
  }

  lemma CollectPromises(d: Shared, safe: nat, cls: ReclaimClass, n: Node, limit: nat)
    requires Promised(d, n, limit) && n.epoch <= limit
    ensures Promised(Collect(d, safe, cls), n, limit)
    ensures cls == n.cls && limit <= safe ==> n in Collect(d, safe, cls).reclaimed
  {
    CollectSplitsList(d.retired, safe, cls);
  }

  lemma CollectBothPromises(d: Shared, safe: nat, n: Node, limit: nat)
    requires Promised(d, n, limit) && n.epoch <= limit
    ensures Promised(CollectBoth(d, safe), n, limit)
    ensures limit <= safe ==> n in CollectBoth(d, safe).reclaimed
  {
    CollectPromises(d, safe, Eager, n, limit);
    CollectPromises(Collect(d, safe, Eager), safe, Batched, n, limit);
  }

  lemma FinishPromises(s: State, t: Tid, a: Step, n: Node, limit: nat)
    requires Enabled(s, t, a) && IsFinishStep(a) && Promised(s.d, n, limit) && n.epoch <= limit
    ensures Promised(FinishStep(s, t, a).d, n, limit)
    ensures a.Finish? && Collects(s.threads[t].wpc.call, n.cls) && limit <= s.threads[t].wpc.prior ==>
      n in FinishStep(s, t, a).d.reclaimed
  {
    var pc := s.threads[t].wpc;
    if a.TryFinish? && pc.min > 1 {
      CollectBothPromises(s.d, pc.min - 1, n, limit);
    } else if a.Finish? && pc.call == Until {
      CollectBothPromises(s.d, pc.prior, n, limit);
    } else if a.Finish? {
      CollectPromises(s.d, pc.prior, if pc.call.eager then Eager else Batched, n, limit);
    }
  }

  lemma {:induction false} RunPromises(s: State, sched: Schedule, n: Node, limit: nat)
    requires Runs(s, sched) && Promised(s.d, n, limit) && n.epoch <= limit
    ensures Promised(Run(s, sched).d, n, limit)
    decreases |sched|
  {
    if sched != [] {
      var (t, a) := sched[0];
      if IsFinishStep(a) { FinishPromises(s, t, a, n, limit); } else { OnlyFinishCollects(s, t, a); }
      RunPromises(Next(s, t, a), sched[1..], n, limit);
    }
  }

  /** In every interleaving, an advancement that comes to its end has reclaimed every node of the classes it
      collects that was in the list when it began: a published image does not survive a batched or a bounded
      advancement. */
  lemma AdvancementReclaims(s: State, t: Tid, a: Step, sched: Schedule, n: Node)
    requires Inv(s) && Enabled(s, t, a) && Runs(Next(s, t, a), sched)
    requires (a.SyncEnter? || a.UntilEnter?) && Next(s, t, a).threads[t].wpc.Polling? && n in Next(s, t, a).d.retired
    requires var begun, s2 := Next(s, t, a).threads[t].wpc, Run(Next(s, t, a), sched);
      t < |s2.threads| && s2.threads[t].wpc == Proven(begun.call, begun.prior) && Collects(begun.call, n.cls)
    ensures var s2 := Run(Next(s, t, a), sched); Enabled(s2, t, Finish) && n in Next(s2, t, Finish).d.reclaimed
  {
    var s1 := Next(s, t, a);
    assert ObjectsOk(s, t) && Tagged(s, n);
    assert s1.threads[t].wpc.prior == s.d.global;
    RunPromises(s1, sched, n, s.d.global);
    FinishPromises(Run(s1, sched), t, Finish, n, s.d.global);
  }
}
