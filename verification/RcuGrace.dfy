/** When a scan is held back and when it is not: a grace period that no reader holds open is proven in every
    interleaving, whoever enters meanwhile, and `try_collect` reaches every epoch that no reader holds back.
 */
module RcuGrace {
  import opened RcuDomain
  import opened RcuProtocol
  import opened RcuSafety

  /** How many threads the scans of `t` examine in a schedule; coming to the end of the list counts as one more. */
  function Probes(sched: Schedule, t: Tid): nat {
    if sched == [] then 0 else (if sched[0] == (t, ScanThread) then 1 else 0) + Probes(sched[1..], t)
  }

  // ----- one step of `readers_passed`

  /** The scan goes on past a thread that is no blocker, and does nothing else. */
  lemma ScanPassesNonBlocker(s: State, t: Tid)
    requires Inv(s) && t < |s.threads| && s.threads[t].wpc.Scanning? && s.threads[t].wpc.todo != []
    requires s.threads[t].wpc.todo[0] !in Blockers(s, s.threads[t].wpc.prior)
    ensures Enabled(s, t, ScanThread)
    ensures var th := s.threads[t];
      Next(s, t, ScanThread) ==
        s.(threads := s.threads[t := th.(wpc := Scanning(th.wpc.call, th.wpc.prior, th.wpc.todo[1..]))])
  {
    var r := s.threads[t].wpc.todo[0];
    if r < |s.threads| { NonBlockerPasses(s, s.threads[t].wpc.prior, r); }
  }

  /** A scan gives up if and only if the thread it looks at publishes an epoch from 1 to its target; it is proven if
      and only if no thread is left. */
  lemma ScanOutcomeExactlyWhen(s: State, t: Tid)
    requires Enabled(s, t, ScanThread)
    ensures var pc, pc' := s.threads[t].wpc, Next(s, t, ScanThread).threads[t].wpc;
      && (pc' == Polling(pc.call, pc.prior, true) <==>
            pc.todo != [] && pc.todo[0] < |s.threads| && 1 <= s.threads[pc.todo[0]].epoch <= pc.prior)
      && (pc' == Proven(pc.call, pc.prior) <==> pc.todo == [])
      && (pc'.Polling? || pc'.Proven? || (pc.todo != [] && pc' == Scanning(pc.call, pc.prior, pc.todo[1..])))
  {
  }

  lemma OthersPcStays(s: State, u: Tid, a: Step, t: Tid)
    requires Enabled(s, u, a) && t < |s.threads| && u != t
    ensures |Next(s, u, a).threads| == |s.threads| && Next(s, u, a).threads[t].wpc == s.threads[t].wpc
  {
    assert Next(s, u, a).threads == s.threads[u := Next(s, u, a).threads[u]];
  }

  /** A writer call is moved on only by its own thread, and only by the steps of that call. */
  ghost predicate Leaves(pc: WriterPc, a: Step) {
    && (pc == Spinning ==> a.SpinEnd?)
    && (pc.Polling? ==> a.ScanStart? || (a.ScanExpire? && pc.call == Until && pc.polled))
    && (pc.Scanning? ==> a.ScanThread?)
    && (pc.Proven? ==> a.Finish?)
    && (pc.TryStart? ==> a.TryScanStart?)
    && (pc.TryScan? ==> a.TryScanThread? || a.TryFinish?)
  }

  lemma PcStays(s: State, u: Tid, a: Step, t: Tid)
    requires Enabled(s, u, a) && t < |s.threads|
    requires u != t || !Leaves(s.threads[t].wpc, a)
    ensures |Next(s, u, a).threads| == |s.threads| && Next(s, u, a).threads[t].wpc == s.threads[t].wpc
  {
    if u != t { OthersPcStays(s, u, a, t); }
  }

  /** With no blocker of the target at first there is none later. */
  lemma NoBlockerArrives(s: State, u: Tid, a: Step, target: nat)
    requires Inv(s) && Enabled(s, u, a) && target < s.d.global && Blockers(s, target) == {}
    ensures Inv(Next(s, u, a)) && target < Next(s, u, a).d.global && Blockers(Next(s, u, a), target) == {}
  {
    StepPreservesInv(s, u, a);
    forall r | r in Blockers(Next(s, u, a), target) ensures false { BlockerWasBlocker(s, u, a, target, r); }
  }

  // ----- whole scans

  /** A scan that no reader holds back is never sent back: in every interleaving it has left exactly what it has not
      examined, and it is proven when it comes to the end. */
  lemma {:induction false} ScanIsNeverSentBack(s: State, sched: Schedule, t: Tid)
    requires Inv(s) && Runs(s, sched) && t < |s.threads| && s.threads[t].wpc.Scanning?
    requires Blockers(s, s.threads[t].wpc.prior) == {} && (t, Finish) !in sched
    ensures var pc, n := s.threads[t].wpc, Probes(sched, t);
      && t < |Run(s, sched).threads| && n <= |pc.todo| + 1
      && Run(s, sched).threads[t].wpc ==
        if n <= |pc.todo| then Scanning(pc.call, pc.prior, pc.todo[n..]) else Proven(pc.call, pc.prior)
    decreases |sched|
  {
    if sched != [] {
      var (u, a) := sched[0];
      var pc := s.threads[t].wpc;
      assert (t, Finish) != sched[0] && (t, Finish) !in sched[1..];
      assert ThreadOk(s, t);
      NoBlockerArrives(s, u, a, pc.prior);
      if (u, a) != (t, ScanThread) {
        PcStays(s, u, a, t);
        ScanIsNeverSentBack(Next(s, u, a), sched[1..], t);
      } else if pc.todo != [] {
        ScanPassesNonBlocker(s, t);
        ScanIsNeverSentBack(Next(s, u, a), sched[1..], t);
      } else {
        ProvenStays(Next(s, u, a), sched[1..], t);
      }
    }
  }

  lemma {:induction false} ProvenStays(s: State, sched: Schedule, t: Tid)
    requires Inv(s) && Runs(s, sched) && t < |s.threads| && s.threads[t].wpc.Proven? && (t, Finish) !in sched
    ensures t < |Run(s, sched).threads| && Run(s, sched).threads[t].wpc == s.threads[t].wpc && Probes(sched, t) == 0
    decreases |sched|
  {
    if sched != [] {
      assert (t, Finish) != sched[0] && (t, Finish) !in sched[1..];
      StepPreservesInv(s, sched[0].0, sched[0].1);
      PcStays(s, sched[0].0, sched[0].1, t);
      ProvenStays(Next(s, sched[0].0, sched[0].1), sched[1..], t);
    }
  }

  /** The grace period of an owner whose blockers are gone, in any interleaving and whoever enters after: once it has
      begun to scan it does not poll again, and after a probe of every thread registered by then and one more it is
      proven.  Only a bounded wait that has polled before can expire instead of beginning. */
  lemma {:induction false} GracePeriodIsProven(s: State, sched: Schedule, t: Tid)
    requires Inv(s) && Runs(s, sched) && t < |s.threads| && s.threads[t].wpc.Polling?
    requires Blockers(s, s.threads[t].wpc.prior) == {} && (t, Finish) !in sched
    requires s.threads[t].wpc.call == Until && s.threads[t].wpc.polled ==> (t, ScanExpire) !in sched
    ensures t < |Run(s, sched).threads|
    ensures var pc, pc' := s.threads[t].wpc, Run(s, sched).threads[t].wpc;
      if (t, ScanStart) in sched
      then pc' == Proven(pc.call, pc.prior) || (pc'.Scanning? && pc' == Scanning(pc.call, pc.prior, pc'.todo))
      else pc' == pc
    ensures Probes(sched, t) > |Run(s, sched).list| ==>
      Run(s, sched).threads[t].wpc == Proven(s.threads[t].wpc.call, s.threads[t].wpc.prior)
    decreases |sched|
  {
    if sched != [] {
      var (u, a) := sched[0];
      var s' := Next(s, u, a);
      assert sched[0] in sched && (t, Finish) !in sched[1..];
      assert ThreadOk(s, t);
      NoBlockerArrives(s, u, a, s.threads[t].wpc.prior);
      if (u, a) == (t, ScanStart) {
        ScanIsNeverSentBack(s', sched[1..], t);
        ListGrows(s', sched[1..]);
      } else {
        PcStays(s, u, a, t);
        GracePeriodIsProven(s', sched[1..], t);
      }
    }
  }

  lemma {:induction false} ListGrows(s: State, sched: Schedule)
    requires Runs(s, sched)
    ensures |s.list| <= |Run(s, sched).list|
    decreases |sched|
  {
    if sched != [] { ListGrows(Next(s, sched[0].0, sched[0].1), sched[1..]); }
  }

  /** The scan can always be carried to its end, and a bounded wait that does so returns true with both classes
      collected through its epoch. */
  lemma {:induction false} ScanCanFinish(s: State, t: Tid) returns (sched: Schedule)
    requires Inv(s) && t < |s.threads| && s.threads[t].wpc.Scanning?
    requires Blockers(s, s.threads[t].wpc.prior) == {}
    ensures Runs(s, sched) && t < |Run(s, sched).threads|
    ensures var pc, s' := s.threads[t].wpc, Run(s, sched);
      && s'.threads[t].wpc == Idle && s'.d.sync == 0
      && (pc.call == Until ==>
            s'.threads[t].result == ReturnedTrue(pc.prior) &&
            pc.prior <= s'.d.completed && pc.prior <= s'.d.completedEager)
      && (pc.call.Sync? ==> pc.prior <= Watermark(s'.d, if pc.call.eager then Eager else Batched))
    decreases |s.threads[t].wpc.todo|
  {
    var pc := s.threads[t].wpc;
    var s' := Next(s, t, ScanThread);
    assert ThreadOk(s, t);
    NoBlockerArrives(s, t, ScanThread, pc.prior);
    if pc.todo == [] {
      sched := [(t, ScanThread), (t, Finish)];
      assert sched[1..] == [(t, Finish)] && sched[1..][1..] == [];
      ProvenFinishes(s', t);
      var s'' := Next(s', t, Finish);
      assert Runs(s'', []) && Run(s'', []) == s'';
      assert Runs(s', [(t, Finish)]) && Run(s', [(t, Finish)]) == s'';
    } else {
      ScanPassesNonBlocker(s, t);
      var rest := ScanCanFinish(s', t);
      sched := [(t, ScanThread)] + rest;
      assert sched[1..] == rest;
    }
  }

  lemma ProvenFinishes(s: State, t: Tid)
    requires Inv(s) && t < |s.threads| && s.threads[t].wpc.Proven?
    ensures Enabled(s, t, Finish)
    ensures var pc, s' := s.threads[t].wpc, Next(s, t, Finish);
      && |s'.threads| == |s.threads| && s'.threads[t].wpc == Idle && s'.d.sync == 0
      && (pc.call == Until ==>
            s'.threads[t].result == ReturnedTrue(pc.prior) &&
            pc.prior <= s'.d.completed && pc.prior <= s'.d.completedEager)
      && (pc.call.Sync? ==> pc.prior <= Watermark(s'.d, if pc.call.eager then Eager else Batched))
  {
    var pc := s.threads[t].wpc;
    if pc.call == Until {
      CollectBothReaches(s.d, pc.prior);
    } else {
      CollectReaches(s.d, pc.prior, if pc.call.eager then Eager else Batched);
    }
  }

  /** An advancement ends proven, with its class collected through its epoch; only a bounded wait may give up instead,
      and only after a poll that met a reader. */
  lemma AdvancementEnds(s: State, t: Tid, a: Step)
    requires Inv(s) && Enabled(s, t, a) && Owner(s.threads[t]) && !Owner(Next(s, t, a).threads[t])
    ensures var pc, s' := s.threads[t].wpc, Next(s, t, a);
      && s'.d.sync == 0
      && (pc.call == Sync(true) ==> pc.prior <= s'.d.completedEager)
      && (pc.call == Sync(false) ==> pc.prior <= s'.d.completed)
      && (pc.call == Until ==>
            if pc == Polling(Until, pc.prior, true)
            then s'.threads[t].result == ReturnedFalse && s'.d.reclaimed == s.d.reclaimed
            else s'.threads[t].result == ReturnedTrue(pc.prior))
  {
    EndingSteps(s, t, a);
    if a.Finish? { ProvenFinishes(s, t); }
  }

  lemma EndingSteps(s: State, t: Tid, a: Step)
    requires Enabled(s, t, a) && Owner(s.threads[t]) && !Owner(Next(s, t, a).threads[t])
    ensures var pc := s.threads[t].wpc;
      (a.Finish? && pc.Proven?) || (a.ScanExpire? && pc == Polling(Until, pc.prior, true))
  {
    if !Leaves(s.threads[t].wpc, a) { PcStays(s, t, a, t); }
  }

  lemma {:induction false} SpinnerWaits(s: State, sched: Schedule, t: Tid) returns (k: nat)
    requires Runs(s, sched) && t < |s.threads| && s.threads[t].wpc == Spinning
    requires t < |Run(s, sched).threads| && Run(s, sched).threads[t].wpc != Spinning
    ensures k < |sched| && sched[k] == (t, SpinEnd)
    ensures Runs(s, sched[..k]) && Run(s, sched[..k]).d.sync == 0
    decreases |sched|
  {
    var (u, a) := sched[0];
    if (u, a) == (t, SpinEnd) {
      k := 0;
      assert sched[..0] == [];
    } else {
      PcStays(s, u, a, t);
      var j := SpinnerWaits(Next(s, u, a), sched[1..], t);
      k := j + 1;
      assert sched[..k][0] == sched[0] && sched[..k][1..] == sched[1..][..j];
    }
  }

  /** A `synchronize` that finds another owner publishes its batch and no more, and returns only after a point of its
      wait at which nobody owns an advancement. */
  lemma ContendedWaits(s: State, eager: bool, sched: Schedule, t: Tid) returns (k: nat)
    requires Enabled(s, t, SyncEnter(eager)) && s.d.sync != 0
    requires var s' := Next(s, t, SyncEnter(eager));
      Runs(s', sched) && t < |Run(s', sched).threads| && Run(s', sched).threads[t].wpc == Idle
    ensures var s' := Next(s, t, SyncEnter(eager));
      && s'.d == s.d.(retired := s.threads[t].batch + s.d.retired) && s'.threads[t].batch == []
      && k < |sched| && Runs(s', sched[..k]) && Run(s', sched[..k]).d.sync == 0
  {
    k := SpinnerWaits(Next(s, t, SyncEnter(eager)), sched, t);
  }

  // ----- how calls begin

  /** The step is one of `enter` or `exit` by `t`, or of its section. */
  ghost predicate MovesReader(step: (Tid, Step), t: Tid) {
    step.0 == t && IsReaderStep(step.1) && !step.1.Register?
  }

  lemma {:induction false} LoadedStays(s: State, sched: Schedule, t: Tid)
    requires Runs(s, sched) && t < |s.threads| && s.threads[t].rpc.Loaded?
    requires forall i :: 0 <= i < |sched| ==> !MovesReader(sched[i], t)
    ensures t < |Run(s, sched).threads| && Run(s, sched).threads[t].rpc == s.threads[t].rpc
    decreases |sched|
  {
    if sched != [] {
      var (u, a) := sched[0];
      assert !MovesReader(sched[0], t);
      if !IsReaderStep(a) { WritersLeaveReadersAlone(s, u, a, t); }
      LoadedStays(Next(s, u, a), sched[1..], t);
    }
  }

  lemma StoreThenExit(s: State, t: Tid)
    requires t < |s.threads| && s.threads[t].rpc.Loaded?
    ensures Enabled(s, t, StoreEpoch)
    ensures var inside := Next(s, t, StoreEpoch);
      && inside.threads[t].rpc == Inside && inside.threads[t].epoch == s.threads[t].rpc.epoch
      && Enabled(inside, t, Exit) && Next(inside, t, Exit).threads[t].epoch == 0
  {
  }

  /** `enter` publishes the epoch it loaded, however many advancements lie between its load and its store, and `exit`
      withdraws it. */
  lemma EnterPublishesLoaded(s: State, sched: Schedule, t: Tid)
    requires Runs(s, sched) && t < |s.threads| && s.threads[t].rpc.Loaded?
    requires forall i :: 0 <= i < |sched| ==> !MovesReader(sched[i], t)
    ensures Enabled(Run(s, sched), t, StoreEpoch)
    ensures var inside := Next(Run(s, sched), t, StoreEpoch);
      && inside.threads[t].rpc == Inside && inside.threads[t].epoch == s.threads[t].rpc.epoch
      && Enabled(inside, t, Exit) && Next(inside, t, Exit).threads[t].epoch == 0
  {
    LoadedStays(s, sched, t);
    StoreThenExit(Run(s, sched), t);
  }

  /** What `enter` loads is the current epoch, also in a thread that never left. */
  lemma EnterLoadsCurrent(s: State, t: Tid, a: Step)
    requires Enabled(s, t, a) && (a.LoadEpoch? || a.Reenter?)
    ensures Next(s, t, a).threads[t].rpc == Loaded(s.d.global)
    ensures Next(s, t, a).threads[t].epoch == s.threads[t].epoch
  {
  }

  /** `synchronize` and `synchronize_eager` with the advancement free: the batched one only counts, seven times out of
      eight; otherwise the epoch is advanced and this thread owns it. */
  lemma SynchronizeBegins(s: State, t: Tid, eager: bool)
    requires Inv(s) && Enabled(s, t, SyncEnter(eager)) && s.d.sync == 0
    ensures var d, s' := s.d, Next(s, t, SyncEnter(eager));
      && s'.threads[t].batch == [] && s'.d.retired == s.threads[t].batch + d.retired && s'.d.reclaimed == d.reclaimed
      && (!eager && d.syncCount + 1 < 8 ==>
            s'.threads[t].wpc == Idle && s'.d.global == d.global && s'.d.sync == 0 &&
            s'.d.syncCount == d.syncCount + 1)
      && (eager || d.syncCount + 1 == 8 ==>
            s'.threads[t].wpc == Polling(Sync(eager), d.global, false) && s'.d.sync == s'.d.global == d.global + 1 &&
            s'.d.syncCount == (if eager then d.syncCount else 0))
  {
  }

  /** `synchronize_until` takes the advancement exactly if it is free, and does not count. */
  lemma BoundedWaitBegins(s: State, t: Tid)
    requires Enabled(s, t, UntilEnter)
    ensures var d, s' := s.d, Next(s, t, UntilEnter);
      && s'.threads[t].batch == [] && s'.d.retired == s.threads[t].batch + d.retired && s'.d.reclaimed == d.reclaimed
      && s'.d.syncCount == d.syncCount
      && (d.sync != 0 ==> s'.threads[t].wpc == Contending && s'.d.global == d.global && s'.d.sync == d.sync)
      && (d.sync == 0 ==>
            s'.threads[t].wpc == Polling(Until, d.global, false) && s'.d.sync == s'.d.global == d.global + 1)
  {
  }

  /** `try_collect` publishes its batch and begins at the current epoch. */
  lemma TryCollectBegins(s: State, t: Tid)
    requires Enabled(s, t, TryEnter)
    ensures var s' := Next(s, t, TryEnter);
      && s'.threads[t].wpc == TryStart(s.d.global) && s'.threads[t].batch == []
      && s'.d == s.d.(retired := s.threads[t].batch + s.d.retired)
      && Next(s', t, TryScanStart).threads[t].wpc == TryScan(s.d.global, s.d.global, s.list)
  {
  }

  // ----- try_collect

  /** `try_collect` is at `cur` and has met no reader at or below `floor`. */
  predicate TriesAbove(pc: WriterPc, cur: nat, floor: nat) {
    pc == TryStart(cur) || (pc.TryScan? && pc.cur == cur && floor < pc.min <= cur)
  }

  /** A reader lowers the minimum if and only if it publishes a lower epoch, and then to that epoch. */
  lemma TryProbeExactly(s: State, t: Tid)
    requires Enabled(s, t, TryScanThread)
    ensures var pc, pc' := s.threads[t].wpc, Next(s, t, TryScanThread).threads[t].wpc;
      && pc'.TryScan? && pc'.cur == pc.cur && pc'.todo == pc.todo[1..]
      && (pc'.min != pc.min <==> pc.todo[0] < |s.threads| && 1 <= s.threads[pc.todo[0]].epoch < pc.min)
      && (pc'.min == pc.min || pc'.min == s.threads[pc.todo[0]].epoch)
  {
  }

  lemma TryStepAbove(s: State, u: Tid, a: Step, t: Tid, cur: nat, floor: nat)
    requires Inv(s) && Enabled(s, u, a) && t < |s.threads| && TriesAbove(s.threads[t].wpc, cur, floor) && floor < cur
    requires Blockers(s, floor) == {} && (u, a) != (t, TryFinish)
    ensures |Next(s, u, a).threads| == |s.threads| && TriesAbove(Next(s, u, a).threads[t].wpc, cur, floor)
  {
    if (u, a) == (t, TryScanThread) {
      TryProbeExactly(s, t);
      var r := s.threads[t].wpc.todo[0];
      if r < |s.threads| { assert r !in Blockers(s, floor); }
    } else if (u, a) != (t, TryScanStart) {
      PcStays(s, u, a, t);
    }
  }

  /** A `try_collect` that begins with no reader at or below `floor`, in any interleaving and whoever enters after,
      collects both classes through `floor` at least. */
  lemma {:induction false} TryCollectReaches(s: State, sched: Schedule, t: Tid, cur: nat, floor: nat)
    requires Inv(s) && Runs(s, sched) && t < |s.threads| && TriesAbove(s.threads[t].wpc, cur, floor) && floor < cur
    requires Blockers(s, floor) == {}
    ensures t < |Run(s, sched).threads|
    ensures var s' := Run(s, sched);
      if (t, TryFinish) in sched then floor <= s'.d.completed && floor <= s'.d.completedEager
      else TriesAbove(s'.threads[t].wpc, cur, floor)
    decreases |sched|
  {
    if sched != [] {
      var (u, a) := sched[0];
      assert ThreadOk(s, t);
      NoBlockerArrives(s, u, a, floor);
      if (u, a) == (t, TryFinish) {
        var min := s.threads[t].wpc.min;
        if min > 1 { CollectBothReaches(s.d, min - 1); }
        WatermarksAreMonotone(Next(s, u, a), sched[1..]);
        RunKeepsThreads(Next(s, u, a), sched[1..]);
      } else {
        TryStepAbove(s, u, a, t, cur, floor);
        TryCollectReaches(Next(s, u, a), sched[1..], t, cur, floor);
      }
    }
  }

  lemma {:induction false} RunKeepsThreads(s: State, sched: Schedule)
    requires Runs(s, sched)
    ensures |Run(s, sched).threads| == |s.threads|
    decreases |sched|
  {
    if sched != [] { RunKeepsThreads(Next(s, sched[0].0, sched[0].1), sched[1..]); }
  }
}
