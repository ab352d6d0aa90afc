/** What a reader that stays in its section does to everybody else: no grace period that begins later is proven, so
    neither watermark reaches the epoch at which it was seen inside.
 */
module RcuStall {
  import opened RcuProtocol
  import opened RcuSafety

  /** What thread `u` can know of the grace periods that `r` holds open: those at or above `limit`. */
  ghost predicate Held(s: State, u: Tid, r: Tid, limit: nat)
    requires u < |s.threads|
  {
    var pc := s.threads[u].wpc;
    && (pc.Scanning? && limit <= pc.prior ==> r in pc.todo)
    && (pc.Proven? ==> pc.prior < limit)
    && (pc.TryScan? && r !in pc.todo ==> pc.min <= limit)
  }

  /** Reader `r` is inside with an epoch of at most `limit`, and both watermarks are below `limit`. */
  ghost predicate Stalls(s: State, r: Tid, limit: nat) {
    && r < |s.threads| && s.threads[r].rpc == Inside && 1 <= s.threads[r].epoch <= limit && r in s.list
    && s.d.completed < limit && s.d.completedEager < limit
    && forall u: Tid :: u < |s.threads| ==> Held(s, u, r, limit)
  }

  lemma StallBegins(s: State, r: Tid)
    requires Inv(s) && r < |s.threads| && s.threads[r].rpc == Inside
    ensures Stalls(s, r, s.d.global)
  {
    assert ThreadOk(s, r);
    forall u: Tid | u < |s.threads| ensures Held(s, u, r, s.d.global) { assert ThreadOk(s, u); }
  }

  predicate Departs(t: Tid, a: Step, r: Tid) { t == r && (a.Exit? || a.Reenter?) }

  lemma OthersHeld(s: State, t: Tid, a: Step, r: Tid, limit: nat, u: Tid)
    requires Enabled(s, t, a) && Stalls(s, r, limit) && u < |s.threads|
    requires u != t || IsReaderStep(a) || a.Swap?
    ensures |Next(s, t, a).threads| == |s.threads| && Held(Next(s, t, a), u, r, limit)
  {
    assert Held(s, u, r, limit);
  }

  lemma ScannerHeld(s: State, t: Tid, a: Step, r: Tid, limit: nat)
    requires Enabled(s, t, a) && Stalls(s, r, limit) && !IsReaderStep(a) && !a.Swap?
    ensures |Next(s, t, a).threads| == |s.threads| && Held(Next(s, t, a), t, r, limit)
  {
    assert Held(s, t, r, limit);
  }

  /** Collections stay below the limit. */
  lemma WatermarksStall(s: State, t: Tid, a: Step, r: Tid, limit: nat)
    requires Inv(s) && Enabled(s, t, a) && Stalls(s, r, limit)
    ensures Next(s, t, a).d.completed < limit && Next(s, t, a).d.completedEager < limit
  {
    if IsFinishStep(a) {
      assert Held(s, t, r, limit) && ThreadOk(s, t);
      FinishDomain(s, t, a);
    }
  }

  lemma ReaderStays(s: State, t: Tid, a: Step, r: Tid)
    requires Enabled(s, t, a) && !Departs(t, a, r) && r < |s.threads| && s.threads[r].rpc == Inside && r in s.list
    ensures var s' := Next(s, t, a);
      |s'.threads| == |s.threads| && s'.threads[r].rpc == Inside && s'.threads[r].epoch == s.threads[r].epoch &&
        r in s'.list
  {
    if !IsReaderStep(a) { WritersLeaveReadersAlone(s, t, a, r); }
  }

  lemma StallStep(s: State, t: Tid, a: Step, r: Tid, limit: nat)
    requires Inv(s) && Enabled(s, t, a) && Stalls(s, r, limit) && !Departs(t, a, r)
    ensures Stalls(Next(s, t, a), r, limit)
  {
    var s' := Next(s, t, a);
    ReaderStays(s, t, a, r);
    WatermarksStall(s, t, a, r, limit);
    forall u: Tid | u < |s'.threads| ensures Held(s', u, r, limit) {
      if u != t || IsReaderStep(a) || a.Swap? {
        OthersHeld(s, t, a, r, limit, u);
      } else {
        ScannerHeld(s, t, a, r, limit);
      }
    }
  }

  /** As long as a reader stays in its section, no watermark reaches the epoch at which it was seen there, whatever the
      others do: nothing retired from then on is reclaimed. */
  lemma {:induction false} InsideReaderStalls(s: State, sched: Schedule, r: Tid, limit: nat)
    requires Inv(s) && Runs(s, sched) && Stalls(s, r, limit)
    requires forall i :: 0 <= i < |sched| ==> !Departs(sched[i].0, sched[i].1, r)
    ensures Stalls(Run(s, sched), r, limit)
    decreases |sched|
  {
    if sched != [] {
      assert !Departs(sched[0].0, sched[0].1, r);
      StepPreservesInv(s, sched[0].0, sched[0].1);
      StallStep(s, sched[0].0, sched[0].1, r, limit);
      InsideReaderStalls(Next(s, sched[0].0, sched[0].1), sched[1..], r, limit);
    }
  }
}
