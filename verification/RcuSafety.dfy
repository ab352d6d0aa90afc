/** Safety of epoch-based reclamation: in every interleaving, no reader holds an
    object whose reclaim callback has run; advancement is exclusive; watermarks are
    monotone and honest; later readers cannot hold a grace period open.
 */
module RcuSafety {
  import opened RcuDomain
  import opened RcuProtocol

  // ----- invariant, one thread at a time

  ghost predicate ThreadOk(s: State, t: Tid)
    requires t < |s.threads|
  {
    var th := s.threads[t];
    && (th.rpc == Inside ==> 1 <= th.epoch <= s.d.global && t in s.list)
    && (th.rpc == Outside ==> th.epoch == 0)
    && (th.rpc != Inside ==> th.held == {})
    && (th.rpc.Loaded? ==> th.epoch <= th.rpc.epoch <= s.d.global && 1 <= th.rpc.epoch && t in s.list)
    && (th.wpc.TryStart? ==> 1 <= th.wpc.cur <= s.d.global)
    && (th.wpc.TryScan? ==> 1 <= th.wpc.min <= th.wpc.cur <= s.d.global)
    && (Owner(th) ==> s.d.sync == th.wpc.prior + 1 == s.d.global)
    && (InUntil(th.wpc) ==> th.result == NoCall)
    && (th.result.ReturnedTrue? ==> th.result.prior <= s.d.completed && th.result.prior <= s.d.completedEager)
  }

  predicate InUntil(pc: WriterPc) {
    pc == Contending || ((pc.Polling? || pc.Scanning? || pc.Proven?) && pc.call == Until)
  }

  predicate Owner(th: Thread) {
    th.wpc.Polling? || th.wpc.Scanning? || th.wpc.Proven?
  }

  /** Two threads never own the advancement, or wait to retire the same object, at once. */
  ghost predicate Apart(s: State, t: Tid, u: Tid)
    requires t < |s.threads| && u < |s.threads|
  {
    t != u ==> !(Owner(s.threads[t]) && Owner(s.threads[u])) && s.threads[t].pending !! s.threads[u].pending
  }

  predicate Tagged(s: State, n: Node) {
    n.obj in s.tags && s.tags[n.obj] == n.epoch
  }

  predicate AllTagged(s: State, nodes: seq<Node>) {
    forall n :: n in nodes ==> Tagged(s, n)
  }

  /** Objects move from linked to pending at one writer to tagged; queued nodes carry their object's tag;
      a reader's published epoch never exceeds the tag of an object it holds. */
  ghost predicate ObjectsOk(s: State, t: Tid)
    requires t < |s.threads|
  {
    var th := s.threads[t];
    && th.pending <= s.known - s.linked - s.tags.Keys
    && AllTagged(s, th.batch)
    && (th.wpc.Retiring? ==> Tagged(s, Node(th.wpc.obj, th.wpc.tag, th.wpc.cls)))
    && Above(s, t, th.epoch - 1)
    && (forall n :: n in s.d.reclaimed ==> n.obj !in th.held)
  }

  /** Every tagged object that `r` holds is tagged above `floor`. */
  ghost predicate Above(s: State, r: Tid, floor: int)
    requires r < |s.threads|
  {
    forall o :: o in s.threads[r].held && o in s.tags ==> floor < s.tags[o]
  }

  /** What the scan of `t` has established about a thread `r` that it has no longer to
      examine: `r` may re-enter, even with an epoch loaded before the advancement, but
      then only reaches objects that were still linked after it. */
  ghost predicate ScanOk(s: State, t: Tid, r: Tid)
    requires t < |s.threads| && r < |s.threads|
  {
    var pc := s.threads[t].wpc;
    && (pc.Scanning? && r !in pc.todo ==> Above(s, r, pc.prior))
    && (pc.Proven? ==> Above(s, r, pc.prior))
    && (pc.TryScan? && r !in pc.todo ==> Above(s, r, pc.min - 1))
  }

  ghost predicate SharedOk(s: State) {
    && 1 <= s.d.global
    && s.d.completed < s.d.global
    && s.d.completedEager < s.d.global
    && s.d.syncCount < EPOCH_BATCH
    && (s.d.sync != 0 ==> s.d.sync == s.d.global && exists t :: 0 <= t < |s.threads| && Owner(s.threads[t]))
    && s.linked <= s.known
    && s.tags.Keys <= s.known
    && s.linked !! s.tags.Keys
    && (forall o :: o in s.tags ==> 1 <= s.tags[o] <= s.d.global)
    && AllTagged(s, s.d.retired)
    && AllTagged(s, s.d.reclaimed)
  }

  ghost predicate Inv(s: State) {
    && SharedOk(s)
    && (forall t: Tid :: t < |s.threads| ==> ThreadOk(s, t))
    && (forall t: Tid :: t < |s.threads| ==> ObjectsOk(s, t))
    && (forall t: Tid, u: Tid :: t < |s.threads| && u < |s.threads| ==> Apart(s, t, u))
    && (forall t: Tid, r: Tid :: t < |s.threads| && r < |s.threads| ==> ScanOk(s, t, r))
  }

  lemma InitInv(n: nat)
    ensures Inv(Init(n))
  {
  }

  // ----- preservation: what a step of `t` may change

  /** Shared state only moves one way: epochs grow, tags are final and new ones carry the
      current epoch, nothing becomes reachable again, and only unheld objects are reclaimed. */
  ghost predicate Moves(s: State, t: Tid, s': State)
    requires t < |s.threads|
  {
    && |s'.threads| == |s.threads|
    && s.d.global <= s'.d.global
    && s.d.completed <= s'.d.completed
    && s.d.completedEager <= s'.d.completedEager
    && s.known <= s'.known
    && s'.linked <= s.linked + (s'.known - s.known)
    && s'.linked !! s'.tags.Keys
    && (forall o :: o in s.tags ==> o in s'.tags && s'.tags[o] == s.tags[o])
    && (forall o :: o in s'.tags && o !in s.tags ==> s'.tags[o] == s.d.global && o in s.threads[t].pending)
    && (forall r :: r in s.list ==> r in s'.list)
  }

  /** Only `t` changes, and only in the ways the code allows. */
  ghost predicate Local(s: State, t: Tid, s': State)
    requires t < |s.threads|
  {
    && |s'.threads| == |s.threads|
    && s'.threads == s.threads[t := s'.threads[t]]
    && s'.threads[t].pending <= s.threads[t].pending + s.linked
    && s'.threads[t].held <= s.threads[t].held + s'.linked
    && (Owner(s'.threads[t]) ==> Owner(s.threads[t]) || s.d.sync == 0)
    && (Owner(s.threads[t]) || s.d.sync == 0 || (s'.d.sync == s.d.sync && s'.d.global == s.d.global))
  }

  ghost predicate Releases(s: State, s': State) {
    forall n, r :: n in s'.d.reclaimed && 0 <= r < |s'.threads| ==> n in s.d.reclaimed || n.obj !in s'.threads[r].held
  }

  ghost predicate SelfOk(s': State, t: Tid) {
    t < |s'.threads| && SharedOk(s') && ThreadOk(s', t) && ObjectsOk(s', t)
  }

  lemma OthersKeep(s: State, t: Tid, s': State, u: Tid)
    requires Inv(s) && t < |s.threads| && Moves(s, t, s') && Local(s, t, s') && Releases(s, s')
    requires u < |s.threads| && u != t
    ensures ThreadOk(s', u) && ObjectsOk(s', u)
  {
    assert ThreadOk(s, u) && ObjectsOk(s, u) && Apart(s, t, u) && ThreadOk(s, t);
    assert s'.threads[u] == s.threads[u];
  }

  lemma PairsKeep(s: State, t: Tid, s': State, u: Tid, v: Tid)
    requires Inv(s) && t < |s.threads| && Moves(s, t, s') && Local(s, t, s')
    requires u < |s.threads| && v < |s.threads|
    ensures Apart(s', u, v)
    ensures u != t || s'.threads[t].wpc == s.threads[t].wpc ==> ScanOk(s', u, v)
  {
    assert Apart(s, u, v) && Apart(s, v, u) && ScanOk(s, u, v);
    assert ThreadOk(s, u) && ThreadOk(s, v) && ObjectsOk(s, u) && ObjectsOk(s, v);
    assert u != t ==> s'.threads[u] == s.threads[u];
    assert v != t ==> s'.threads[v] == s.threads[v];
  }

  lemma StepKeeps(s: State, t: Tid, s': State)
    requires Inv(s) && t < |s.threads| && Moves(s, t, s') && Local(s, t, s') && Releases(s, s') && SelfOk(s', t)
    requires s'.threads[t].wpc == s.threads[t].wpc || forall v: Tid :: v < |s.threads| ==> ScanOk(s', t, v)
    ensures Inv(s')
  {
    forall u: Tid | u < |s.threads| ensures ThreadOk(s', u) && ObjectsOk(s', u) {
      if u != t { OthersKeep(s, t, s', u); }
    }
    forall u: Tid, v: Tid | u < |s.threads| && v < |s.threads| ensures Apart(s', u, v) && ScanOk(s', u, v) {
      PairsKeep(s, t, s', u, v);
    }
  }

  lemma OwnerStays(s: State, t: Tid, s': State)
    requires Inv(s) && t < |s.threads| && Local(s, t, s')
    requires s.d.sync != 0 && (Owner(s.threads[t]) ==> Owner(s'.threads[t]))
    ensures exists w :: 0 <= w < |s'.threads| && Owner(s'.threads[w])
  {
    var w :| 0 <= w < |s.threads| && Owner(s.threads[w]);
    assert Owner(s'.threads[w]);
  }

  lemma ReaderFrame(s: State, t: Tid, a: Step)
    requires Inv(s) && Enabled(s, t, a) && IsReaderStep(a)
    ensures Moves(s, t, ReaderStep(s, t, a)) && Local(s, t, ReaderStep(s, t, a)) && Releases(s, ReaderStep(s, t, a))
  {
    assert ThreadOk(s, t) && ObjectsOk(s, t);
  }

  lemma ReaderSelf(s: State, t: Tid, a: Step)
    requires Inv(s) && Enabled(s, t, a) && IsReaderStep(a)
    ensures SelfOk(ReaderStep(s, t, a), t)
  {
    var s' := ReaderStep(s, t, a);
    ReaderFrame(s, t, a);
    assert ThreadOk(s, t) && ObjectsOk(s, t);
    if s.d.sync != 0 { OwnerStays(s, t, s'); }
  }

  lemma ReaderKeeps(s: State, t: Tid, a: Step)
    requires Inv(s) && Enabled(s, t, a) && IsReaderStep(a)
    ensures Inv(ReaderStep(s, t, a)) && Moves(s, t, ReaderStep(s, t, a))
  {
    var s' := ReaderStep(s, t, a);
    ReaderFrame(s, t, a);
    ReaderSelf(s, t, a);
    StepKeeps(s, t, s');
  }

  lemma RetireFrame(s: State, t: Tid, a: Step)
    requires Inv(s) && Enabled(s, t, a) && IsRetireStep(a)
    ensures Moves(s, t, RetireStep(s, t, a)) && Local(s, t, RetireStep(s, t, a)) && Releases(s, RetireStep(s, t, a))
  {
    assert ObjectsOk(s, t) && ThreadOk(s, t);
  }

  lemma RetireSelf(s: State, t: Tid, a: Step)
    requires Inv(s) && Enabled(s, t, a) && IsRetireStep(a)
    ensures SelfOk(RetireStep(s, t, a), t)
  {
    var s' := RetireStep(s, t, a);
    RetireFrame(s, t, a);
    assert ThreadOk(s, t) && ObjectsOk(s, t);
    if s.d.sync != 0 { OwnerStays(s, t, s'); }
    assert forall n :: Tagged(s, n) ==> Tagged(s', n);
    assert AllTagged(s', s'.d.retired);
  }

  lemma RetireKeeps(s: State, t: Tid, a: Step)
    requires Inv(s) && Enabled(s, t, a) && IsRetireStep(a)
    ensures Inv(RetireStep(s, t, a)) && Moves(s, t, RetireStep(s, t, a))
  {
    var s' := RetireStep(s, t, a);
    RetireFrame(s, t, a);
    RetireSelf(s, t, a);
    if a.Swap? { assert s'.threads[t].wpc == s.threads[t].wpc; }
    StepKeeps(s, t, s');
  }

  lemma EnterFrame(s: State, t: Tid, a: Step)
    requires Inv(s) && Enabled(s, t, a) && IsEnterStep(a)
    ensures Moves(s, t, EnterStep(s, t, a)) && Local(s, t, EnterStep(s, t, a)) && Releases(s, EnterStep(s, t, a))
  {
    assert ThreadOk(s, t);
  }

  lemma EnterSelf(s: State, t: Tid, a: Step)
    requires Inv(s) && Enabled(s, t, a) && IsEnterStep(a)
    ensures SelfOk(EnterStep(s, t, a), t)
  {
    var s' := EnterStep(s, t, a);
    EnterFrame(s, t, a);
    assert ThreadOk(s, t) && ObjectsOk(s, t);
    if s.d.sync != 0 { OwnerStays(s, t, s'); } else if s'.d.sync != 0 { assert Owner(s'.threads[t]); }
    assert AllTagged(s', s'.d.retired);
  }

  lemma EnterKeeps(s: State, t: Tid, a: Step)
    requires Inv(s) && Enabled(s, t, a) && IsEnterStep(a)
    ensures Inv(EnterStep(s, t, a)) && Moves(s, t, EnterStep(s, t, a))
  {
    EnterFrame(s, t, a);
    EnterSelf(s, t, a);
    StepKeeps(s, t, EnterStep(s, t, a));
  }

  /** A scan steps past a thread only when nothing it holds can be due. */
  lemma ScanPast(s: State, t: Tid, a: Step, v: Tid)
    requires Inv(s) && Enabled(s, t, a) && IsScanStep(a) && v < |s.threads|
    ensures ScanOk(Next(s, t, a), t, v)
  {
    var s' := Next(s, t, a);
    assert ThreadOk(s, v) && ObjectsOk(s, v) && ScanOk(s, t, v);
    assert s'.threads[v].held == s.threads[v].held;
  }

  lemma ScanFrame(s: State, t: Tid, a: Step)
    requires Inv(s) && Enabled(s, t, a) && IsScanStep(a)
    ensures Moves(s, t, ScanStep(s, t, a)) && Local(s, t, ScanStep(s, t, a)) && Releases(s, ScanStep(s, t, a))
  {
  }

  lemma ScanSelf(s: State, t: Tid, a: Step)
    requires Inv(s) && Enabled(s, t, a) && IsScanStep(a)
    ensures SelfOk(ScanStep(s, t, a), t)
  {
    var s' := ScanStep(s, t, a);
    ScanFrame(s, t, a);
    assert ThreadOk(s, t) && ObjectsOk(s, t);
    assert s' == s.(threads := s'.threads);
    assert s'.threads[t] == s.threads[t].(wpc := s'.threads[t].wpc);
    assert SharedOk(s') by { if s.d.sync != 0 { OwnerStays(s, t, s'); } }
  }

  lemma ScanKeeps(s: State, t: Tid, a: Step)
    requires Inv(s) && Enabled(s, t, a) && IsScanStep(a)
    ensures Inv(ScanStep(s, t, a)) && Moves(s, t, ScanStep(s, t, a))
  {
    var s' := ScanStep(s, t, a);
    ScanFrame(s, t, a);
    ScanSelf(s, t, a);
    forall v: Tid | v < |s.threads| ensures ScanOk(s', t, v) { ScanPast(s, t, a, v); }
    StepKeeps(s, t, s');
  }

  /** No due node is held once every thread is above the collection's epoch. */
  lemma NothingDueIsHeld(s: State, safe: nat, n: Node, r: Tid)
    requires Inv(s) && r < |s.threads| && Above(s, r, safe)
    requires n in s.d.retired && n.epoch <= safe
    ensures n.obj !in s.threads[r].held
  {
    assert Tagged(s, n);
  }

  /** The epoch a thread at `pc` is about to collect up to; nothing otherwise. */
  function SafeEpoch(pc: WriterPc): nat {
    if pc.Proven? then pc.prior
    else if pc.TryScan? && pc.min > 0 then pc.min - 1
    else 0
  }

  lemma FinishDomain(s: State, t: Tid, a: Step)
    requires Inv(s) && Enabled(s, t, a) && IsFinishStep(a)
    ensures var d' := FinishStep(s, t, a).d;
      && CollectedTo(s.d, d'.(sync := s.d.sync), SafeEpoch(s.threads[t].wpc))
      && d'.sync == (if Owner(s.threads[t]) then 0 else s.d.sync)
      && (a.Finish? && s.threads[t].wpc.call == Until ==>
            s.threads[t].wpc.prior <= d'.completed && s.threads[t].wpc.prior <= d'.completedEager)
  {
    var pc := s.threads[t].wpc;
    var safe := SafeEpoch(pc);
    if a.TryFinish? || (a.Finish? && pc.call == Until) {
      CollectBothReaches(s.d, safe);
    } else if a.Finish? {
      CollectReaches(s.d, safe, if pc.call.eager then Eager else Batched);
    }
  }

  lemma FinishReleases(s: State, t: Tid, a: Step)
    requires Inv(s) && Enabled(s, t, a) && IsFinishStep(a)
    ensures Releases(s, FinishStep(s, t, a))
  {
    var s' := FinishStep(s, t, a);
    FinishDomain(s, t, a);
    forall n, r | n in s'.d.reclaimed && 0 <= r < |s'.threads| && n !in s.d.reclaimed
      ensures n.obj !in s'.threads[r].held
    {
      assert Tagged(s, n);
      assert ScanOk(s, t, r);
      NothingDueIsHeld(s, SafeEpoch(s.threads[t].wpc), n, r);
    }
  }

  lemma FinishFrame(s: State, t: Tid, a: Step)
    requires Inv(s) && Enabled(s, t, a) && IsFinishStep(a)
    ensures Moves(s, t, FinishStep(s, t, a)) && Local(s, t, FinishStep(s, t, a))
  {
    FinishDomain(s, t, a);
  }

  lemma FinishSelf(s: State, t: Tid, a: Step)
    requires Inv(s) && Enabled(s, t, a) && IsFinishStep(a)
    ensures SelfOk(FinishStep(s, t, a), t)
  {
    var s' := FinishStep(s, t, a);
    assert ThreadOk(s, t) && ObjectsOk(s, t);
    FinishDomain(s, t, a);
    FinishFrame(s, t, a);
    FinishReleases(s, t, a);
    if s'.d.sync != 0 { OwnerStays(s, t, s'); }
  }

  lemma FinishKeeps(s: State, t: Tid, a: Step)
    requires Inv(s) && Enabled(s, t, a) && IsFinishStep(a)
    ensures Inv(FinishStep(s, t, a)) && Moves(s, t, FinishStep(s, t, a))
  {
    var s' := FinishStep(s, t, a);
    FinishFrame(s, t, a);
    FinishReleases(s, t, a);
    FinishSelf(s, t, a);
    StepKeeps(s, t, s');
  }

  lemma StepPreservesInv(s: State, t: Tid, a: Step)
    requires Inv(s) && Enabled(s, t, a)
    ensures Inv(Next(s, t, a)) && Moves(s, t, Next(s, t, a))
  {
    if IsRetireStep(a) { RetireKeeps(s, t, a); }
    else if IsEnterStep(a) { EnterKeeps(s, t, a); }
    else if IsScanStep(a) { ScanKeeps(s, t, a); }
    else if IsFinishStep(a) { FinishKeeps(s, t, a); }
    else { ReaderKeeps(s, t, a); }
  }

  lemma {:induction false} RunKeepsInv(s: State, sched: Schedule)
    requires Inv(s) && Runs(s, sched)
    ensures Inv(Run(s, sched))
    decreases |sched|
  {
    if sched != [] {
      StepPreservesInv(s, sched[0].0, sched[0].1);
      RunKeepsInv(Next(s, sched[0].0, sched[0].1), sched[1..]);
    }
  }

  // ----- main results

  /** No reader ever holds a reclaimed object, for any number of threads and any schedule. */
  lemma NoReaderHoldsReclaimed(threads: nat, sched: Schedule, t: Tid, n: Node)
    requires Runs(Init(threads), sched)
    requires var s := Run(Init(threads), sched); t < |s.threads| && n in s.d.reclaimed
    ensures n.obj !in Run(Init(threads), sched).threads[t].held
  {
    InitInv(threads);
    RunKeepsInv(Init(threads), sched);
    assert ObjectsOk(Run(Init(threads), sched), t);
  }

  /** `sync` is non-zero exactly while one thread, and only one, owns the advancement; it then equals `global`. */
  lemma AdvancementIsExclusive(threads: nat, sched: Schedule)
    requires Runs(Init(threads), sched)
    ensures var s := Run(Init(threads), sched);
      && (s.d.sync != 0 <==> exists t :: 0 <= t < |s.threads| && Owner(s.threads[t]))
      && (s.d.sync != 0 ==> s.d.sync == s.d.global)
      && (forall t, u :: 0 <= t < |s.threads| && 0 <= u < |s.threads| && Owner(s.threads[t]) && Owner(s.threads[u]) ==>
        t == u)
      && s.d.completed < s.d.global && s.d.completedEager < s.d.global
  {
    InitInv(threads);
    RunKeepsInv(Init(threads), sched);
    var s := Run(Init(threads), sched);
    if t :| 0 <= t < |s.threads| && Owner(s.threads[t]) {
      assert ThreadOk(s, t);
    }
    forall t, u | 0 <= t < |s.threads| && 0 <= u < |s.threads| && Owner(s.threads[t]) && Owner(s.threads[u])
      ensures t == u
    {
      assert Apart(s, t, u);
    }
  }

  /** Watermarks and the epoch never go back, whatever happens after a reachable state. */
  lemma {:induction false} WatermarksAreMonotone(s: State, sched: Schedule)
    requires Inv(s) && Runs(s, sched)
    ensures var s' := Run(s, sched);
      s.d.global <= s'.d.global && s.d.completed <= s'.d.completed && s.d.completedEager <= s'.d.completedEager
    decreases |sched|
  {
    if sched != [] {
      StepPreservesInv(s, sched[0].0, sched[0].1);
      WatermarksAreMonotone(Next(s, sched[0].0, sched[0].1), sched[1..]);
    }
  }

  /** A `synchronize_until` that returned true leaves both watermarks at or above its epoch, for good. */
  lemma TrueMeansReclaimedThrough(threads: nat, sched: Schedule, t: Tid)
    requires Runs(Init(threads), sched)
    requires var s := Run(Init(threads), sched); t < |s.threads| && s.threads[t].result.ReturnedTrue?
    ensures var s := Run(Init(threads), sched);
      s.threads[t].result.prior <= s.d.completed && s.threads[t].result.prior <= s.d.completedEager
  {
    InitInv(threads);
    RunKeepsInv(Init(threads), sched);
    assert ThreadOk(Run(Init(threads), sched), t);
  }

  /** A step of `synchronize_until` other than the one that returns true moves no watermark and
      runs no callback, and it clears `sync` only when this thread owned it. */
  lemma UnprovenWaitIsHarmless(s: State, t: Tid, a: Step)
    requires Inv(s) && Enabled(s, t, a)
    requires a.UntilEnter? || (InUntil(s.threads[t].wpc) && !IsReaderStep(a) && !a.Swap?)
    requires !Next(s, t, a).threads[t].result.ReturnedTrue?
    ensures var s' := Next(s, t, a);
      && s'.d.completed == s.d.completed && s'.d.completedEager == s.d.completedEager && s'.d.reclaimed == s.d.reclaimed
      && (s'.d.sync != s.d.sync ==> s.d.sync == 0 || (Owner(s.threads[t]) && s'.d.sync == 0))
  {
    assert ThreadOk(s, t);
  }

  /** The readers that can make `readers_passed(target)` false, now or by a store still in flight. */
  function Blockers(s: State, target: nat): set<Tid> {
    set r: Tid | r < |s.threads| && (
      (s.threads[r].epoch != 0 && s.threads[r].epoch <= target) ||
      (s.threads[r].rpc.Loaded? && s.threads[r].rpc.epoch <= target))
  }

  lemma WritersLeaveReadersAlone(s: State, t: Tid, a: Step, r: Tid)
    requires Enabled(s, t, a) && !IsReaderStep(a) && r < |s.threads|
    ensures var s' := Next(s, t, a);
      |s'.threads| == |s.threads| && s'.threads[r].rpc == s.threads[r].rpc
      && s'.threads[r].epoch == s.threads[r].epoch && s'.threads[r].held == s.threads[r].held
  {
  }

  lemma OnlySwapsRelink(s: State, t: Tid, a: Step)
    requires Enabled(s, t, a)
    ensures var s' := Next(s, t, a);
      && s'.linked == (if a.Swap? then s.linked - a.gone + a.added else s.linked)
      && s'.known == (if a.Swap? then s.known + a.added else s.known)
  {
  }

  lemma BlockerWasBlocker(s: State, t: Tid, a: Step, target: nat, r: Tid)
    requires Inv(s) && Enabled(s, t, a) && target < s.d.global
    requires r in Blockers(Next(s, t, a), target)
    ensures r in Blockers(s, target)
  {
    if IsReaderStep(a) {
      ReaderWasBlocker(s, t, a, target, r);
    } else {
      WritersLeaveReadersAlone(s, t, a, r);
    }
  }

  lemma ReaderWasBlocker(s: State, t: Tid, a: Step, target: nat, r: Tid)
    requires Enabled(s, t, a) && IsReaderStep(a) && target < s.d.global && r in Blockers(ReaderStep(s, t, a), target)
    ensures r in Blockers(s, target)
  {
    assert r != t ==> ReaderStep(s, t, a).threads[r] == s.threads[r];
  }

  /** Once the epoch has passed `target`, the set of blockers only shrinks, whoever arrives later. */
  lemma {:induction false} BlockersOnlyShrink(s: State, sched: Schedule, target: nat)
    requires Inv(s) && Runs(s, sched) && target < s.d.global
    ensures Blockers(Run(s, sched), target) <= Blockers(s, target)
    decreases |sched|
  {
    if sched != [] {
      var (t, a) := sched[0];
      var s' := Next(s, t, a);
      StepPreservesInv(s, t, a);
      forall r | r in Blockers(s', target) ensures r in Blockers(s, target) {
        BlockerWasBlocker(s, t, a, target, r);
      }
      BlockersOnlyShrink(s', sched[1..], target);
    }
  }

  /** A thread that is no blocker is passed by the scan whenever the scan looks at it. */
  lemma NonBlockerPasses(s: State, target: nat, r: Tid)
    requires Inv(s) && r < |s.threads| && r !in Blockers(s, target)
    ensures !(Published(s, r) != 0 && Published(s, r) <= target)
  {
    assert ThreadOk(s, r);
  }
}
