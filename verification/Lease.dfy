/** The lease protocol of a loaded module (Interface/Lease.h), one atomic memory operation per step.
    Every lease handle is a process of its own that acquires and releases any number of times; every
    unloader runs `begin_unload`, `wait_for_idle` and `mark_unloaded` as `unregister_module` does.
 */
module Lease {

  datatype ModuleState = Loading | Active | Draining | Unloaded

  function Rank(m: ModuleState): nat {
    match m case Loading => 0 case Active => 1 case Draining => 2 case Unloaded => 3
  }

  predicate Closed(m: ModuleState) { m == Draining || m == Unloaded }

  /** Where a lease handle is. `raised` records that its increment found the count at zero. */
  datatype Holder =
    | Free
    | SawActive
    | Added(raised: bool)
    | BackingOut(raised: bool)
    | Pinning
    | Holding
    | Unpinning

  datatype Unloader = Resting | Loaded(seen: ModuleState) | Waiting | SawZero | Done | Busy

  /** The module's control block, its users, and the net number of OS references taken by `pin`. `raisedBack` and
      `droppedBack` count back-outs whose increment started, or whose decrement ended, at zero. */
  datatype State = State(
    phase: ModuleState,
    leases: nat,
    pins: int,
    holders: seq<Holder>,
    unloaders: seq<Unloader>,
    raisedBack: nat,
    droppedBack: nat)

  const U32: nat := 0x1_0000_0000

  function Init(handles: nat, unloaders: nat): State {
    State(Loading, 0, 0, seq(handles, _ => Free), seq(unloaders, _ => Resting), 0, 0)
  }

  datatype Step =
    | Activate
    | CheckState(h: nat)
    | FetchAdd(h: nat)
    | Recheck(h: nat)
    | BackOut(h: nat)
    | Pin(h: nat)
    | Release(h: nat)
    | Unpin(h: nat)
    | LoadState(u: nat)
    | TryDrain(u: nat, spurious: bool)
    | Poll(u: nat)
    | GiveUp(u: nat)
    | MarkUnloaded(u: nat)

  predicate IsUnloadStep(a: Step) { a.LoadState? || a.TryDrain? || a.Poll? || a.GiveUp? || a.MarkUnloaded? }

  /** `unregister_module` runs on registered modules only, and registering activated them. */
  predicate Enabled(s: State, a: Step) {
    match a
    case Activate => true
    case CheckState(h) => h < |s.holders| && s.holders[h].Free?
    case FetchAdd(h) => h < |s.holders| && s.holders[h].SawActive?
    case Recheck(h) => h < |s.holders| && s.holders[h].Added?
    case BackOut(h) => h < |s.holders| && s.holders[h].BackingOut?
    case Pin(h) => h < |s.holders| && s.holders[h].Pinning?
    case Release(h) => h < |s.holders| && s.holders[h].Holding?
    case Unpin(h) => h < |s.holders| && s.holders[h].Unpinning?
    case LoadState(u) => u < |s.unloaders| && (s.unloaders[u].Resting? || s.unloaders[u].Busy?) && s.phase != Loading
    case TryDrain(u, _) => u < |s.unloaders| && s.unloaders[u].Loaded?
    case Poll(u) => u < |s.unloaders| && s.unloaders[u].Waiting?
    case GiveUp(u) => u < |s.unloaders| && s.unloaders[u].Waiting?
    case MarkUnloaded(u) => u < |s.unloaders| && s.unloaders[u].SawZero?
  }

  function Put(s: State, h: nat, p: Holder): State
    requires h < |s.holders|
  {
    s.(holders := s.holders[h := p])
  }

  function PutU(s: State, u: nat, p: Unloader): State
    requires u < |s.unloaders|
  {
    s.(unloaders := s.unloaders[u := p])
  }

  function HolderStep(s: State, a: Step): State
    requires Enabled(s, a) && !IsUnloadStep(a)
  {
    match a
    case Activate => if s.phase == Loading then s.(phase := Active) else s
    case CheckState(h) => if s.phase == Active then Put(s, h, SawActive) else s
    case FetchAdd(h) => Put(s, h, Added(s.leases == 0)).(leases := (s.leases + 1) % U32)
    case Recheck(h) =>
      var raised := s.holders[h].raised;
      if s.phase != Active then Put(s, h, BackingOut(raised))
      else if raised then Put(s, h, Pinning) else Put(s, h, Holding)
    case BackOut(h) =>
      Put(s, h, Free).(leases := (s.leases - 1) % U32,
                       raisedBack := s.raisedBack + (if s.holders[h].raised then 1 else 0),
                       droppedBack := s.droppedBack + (if s.leases == 1 then 1 else 0))
    case Pin(h) => Put(s, h, Holding).(pins := s.pins + 1)
    case Release(h) => Put(s, h, if s.leases == 1 then Unpinning else Free).(leases := (s.leases - 1) % U32)
    case Unpin(h) => Put(s, h, Free).(pins := s.pins - 1)
  }

  /** `begin_unload` retries its exchange, which may also fail for no reason; its result is ignored by the caller. */
  function UnloadStep(s: State, a: Step): State
    requires Enabled(s, a) && IsUnloadStep(a)
  {
    match a
    case LoadState(u) => PutU(s, u, Loaded(s.phase))
    case TryDrain(u, spurious) =>
      var seen := s.unloaders[u].seen;
      if seen != Active then PutU(s, u, Waiting)
      else if s.phase == Active && !spurious then PutU(s, u, Waiting).(phase := Draining)
      else PutU(s, u, Loaded(s.phase))
    case Poll(u) => if s.leases == 0 then PutU(s, u, SawZero) else s
    case GiveUp(u) => PutU(s, u, if s.leases == 0 then SawZero else Busy)
    case MarkUnloaded(u) => PutU(s, u, Done).(phase := Unloaded)
  }

  function Next(s: State, a: Step): State
    requires Enabled(s, a)
  {
    if IsUnloadStep(a) then UnloadStep(s, a) else HolderStep(s, a)
  }

  predicate Runs(s: State, sched: seq<Step>)
    decreases |sched|
  {
    sched == [] || (Enabled(s, sched[0]) && Runs(Next(s, sched[0]), sched[1..]))
  }

  function Run(s: State, sched: seq<Step>): State
    requires Runs(s, sched)
    decreases |sched|
  {
    if sched == [] then s else Run(Next(s, sched[0]), sched[1..])
  }

  // ----- counting

  /** What a handle contributes to the lease count. */
  function Counted(p: Holder): int {
    if p.Added? || p.BackingOut? || p.Pinning? || p.Holding? then 1 else 0
  }

  /** What a handle still owes to the pin balance: `pin` calls it stands for, less the `unpin` it is about to make. */
  function Owed(p: Holder): int {
    match p
    case Added(raised) => if raised then 1 else 0
    case BackingOut(raised) => if raised then 1 else 0
    case Pinning => 1
    case Unpinning => -1
    case _ => 0
  }

  function Sum(ps: seq<Holder>, w: Holder -> int): int {
    if ps == [] then 0 else Sum(ps[..|ps| - 1], w) + w(ps[|ps| - 1])
  }

  lemma {:induction false} SumUpdate(ps: seq<Holder>, w: Holder -> int, h: nat, p: Holder)
    requires h < |ps|
    ensures Sum(ps[h := p], w) == Sum(ps, w) - w(ps[h]) + w(p)
  {
    var qs, n := ps[h := p], |ps| - 1;
    if h == n {
      assert qs[..n] == ps[..n];
    } else {
      assert qs[..n] == ps[..n][h := p];
      SumUpdate(ps[..n], w, h, p);
    }
  }

  /** The count lies between the handles that contribute and all of them. */
  lemma {:induction false} CountBounds(ps: seq<Holder>, h: nat)
    requires h < |ps|
    ensures Counted(ps[h]) <= Sum(ps, Counted) <= |ps| - 1 + Counted(ps[h])
  {
    var n := |ps| - 1;
    if n > 0 {
      if h < n { CountBounds(ps[..n], h); } else { CountBounds(ps[..n], 0); }
    }
  }

  // ----- the invariant

  predicate HoldsLease(p: Holder) { p.Pinning? || p.Holding? }

  ghost predicate NoLease(s: State) { forall h :: 0 <= h < |s.holders| ==> !HoldsLease(s.holders[h]) }

  ghost predicate UnloaderOk(s: State, u: Unloader) {
    match u
    case Loaded(seen) => seen != Loading && Rank(seen) <= Rank(s.phase)
    case Waiting => Closed(s.phase)
    case SawZero => Closed(s.phase) && NoLease(s)
    case Done => Closed(s.phase) && NoLease(s)
    case _ => true
  }

  ghost predicate UnloadersOk(s: State) { forall u :: 0 <= u < |s.unloaders| ==> UnloaderOk(s, s.unloaders[u]) }

  ghost predicate CountExact(s: State) { |s.holders| < U32 && s.leases == Sum(s.holders, Counted) }

  ghost predicate PinsAccounted(s: State) {
    s.pins + Sum(s.holders, Owed) == (if s.leases > 0 then 1 else 0) + s.droppedBack - s.raisedBack
  }

  ghost predicate Inv(s: State) { CountExact(s) && PinsAccounted(s) && UnloadersOk(s) }

  lemma {:induction false} SumFree(n: nat, w: Holder -> int)
    requires w(Free) == 0
    ensures Sum(seq(n, _ => Free), w) == 0
  {
    if n > 0 {
      var ps: seq<Holder> := seq(n, _ => Free);
      assert ps[..n - 1] == seq(n - 1, _ => Free);
      SumFree(n - 1, w);
    }
  }

  lemma InitInv(handles: nat, unloaders: nat)
    requires handles < U32
    ensures Inv(Init(handles, unloaders))
  {
    SumFree(handles, Counted);
    SumFree(handles, Owed);
  }

  /** A handle's step moves the count and the pin account together. */
  lemma HolderStepCounts(s: State, a: Step)
    requires CountExact(s) && PinsAccounted(s) && Enabled(s, a) && !IsUnloadStep(a)
    ensures CountExact(HolderStep(s, a)) && PinsAccounted(HolderStep(s, a))
  {
    if !a.Activate? {
      HolderStepLeases(s, a);
      HolderStepPins(s, a);
    }
  }

  lemma HolderStepLeases(s: State, a: Step)
    requires CountExact(s) && Enabled(s, a) && !IsUnloadStep(a) && !a.Activate?
    ensures CountExact(HolderStep(s, a))
  {
    CountBounds(s.holders, a.h);
    SumUpdate(s.holders, Counted, a.h, HolderStep(s, a).holders[a.h]);
  }

  lemma HolderStepPins(s: State, a: Step)
    requires CountExact(s) && PinsAccounted(s) && Enabled(s, a) && !IsUnloadStep(a) && !a.Activate?
    ensures PinsAccounted(HolderStep(s, a))
  {
    CountBounds(s.holders, a.h);
    SumUpdate(s.holders, Owed, a.h, HolderStep(s, a).holders[a.h]);
  }

  lemma HolderStepUnloaders(s: State, a: Step)
    requires UnloadersOk(s) && Enabled(s, a) && !IsUnloadStep(a)
    ensures UnloadersOk(HolderStep(s, a))
  {
    var s' := HolderStep(s, a);
    forall u | 0 <= u < |s'.unloaders| ensures UnloaderOk(s', s'.unloaders[u]) {
      assert UnloaderOk(s, s.unloaders[u]);
    }
  }

  /** With a zero count nobody holds a lease. */
  lemma ZeroMeansNoLease(s: State)
    requires CountExact(s) && s.leases == 0
    ensures NoLease(s)
  {
    forall h | 0 <= h < |s.holders| ensures !HoldsLease(s.holders[h]) { CountBounds(s.holders, h); }
  }

  lemma UnloadStepUnloaders(s: State, a: Step)
    requires CountExact(s) && UnloadersOk(s) && Enabled(s, a) && IsUnloadStep(a)
    ensures UnloadersOk(UnloadStep(s, a))
  {
    var s' := UnloadStep(s, a);
    if s.leases == 0 { ZeroMeansNoLease(s); }
    assert UnloaderOk(s, s.unloaders[a.u]);
    forall u | 0 <= u < |s'.unloaders| ensures UnloaderOk(s', s'.unloaders[u]) {
      assert UnloaderOk(s, s.unloaders[u]);
    }
  }

  lemma StepPreservesInv(s: State, a: Step)
    requires Inv(s) && Enabled(s, a)
    ensures Inv(Next(s, a)) && Rank(s.phase) <= Rank(Next(s, a).phase)
  {
    if IsUnloadStep(a) {
      UnloadStepUnloaders(s, a);
      assert UnloaderOk(s, s.unloaders[a.u]);
    } else {
      HolderStepCounts(s, a);
      HolderStepUnloaders(s, a);
    }
  }

  lemma {:induction false} RunKeepsInv(s: State, sched: seq<Step>)
    requires Inv(s) && Runs(s, sched)
    ensures Inv(Run(s, sched))
    decreases |sched|
  {
    if sched != [] {
      StepPreservesInv(s, sched[0]);
      RunKeepsInv(Next(s, sched[0]), sched[1..]);
    }
  }

  // ----- results

  /** The module's state only moves forward: loading, active, draining, unloaded. */
  lemma {:induction false} StateIsMonotone(s: State, sched: seq<Step>)
    requires Inv(s) && Runs(s, sched)
    ensures Rank(s.phase) <= Rank(Run(s, sched).phase)
    decreases |sched|
  {
    if sched != [] {
      StepPreservesInv(s, sched[0]);
      StateIsMonotone(Next(s, sched[0]), sched[1..]);
    }
  }

  /** An unloader that has seen zero leases stays past that point. */
  predicate Finished(u: Unloader) { u.SawZero? || u.Done? }

  lemma {:induction false} FinishedStays(s: State, sched: seq<Step>, u: nat)
    requires Runs(s, sched) && u < |s.unloaders| && Finished(s.unloaders[u])
    ensures var s' := Run(s, sched); u < |s'.unloaders| && Finished(s'.unloaders[u])
    decreases |sched|
  {
    if sched != [] { FinishedStays(Next(s, sched[0]), sched[1..], u); }
  }

  /** Once an unloader has begun the unload and seen a zero count, nobody holds a lease and nobody ever will:
      not in that state, and not in any continuation of the run. */
  lemma NoLeaseAfterIdle(handles: nat, unloaders: nat, sched: seq<Step>, more: seq<Step>, u: nat)
    requires handles < U32 && Runs(Init(handles, unloaders), sched)
    requires var s := Run(Init(handles, unloaders), sched);
      u < |s.unloaders| && Finished(s.unloaders[u]) && Runs(s, more)
    ensures var s' := Run(Run(Init(handles, unloaders), sched), more);
      NoLease(s') && Closed(s'.phase)
  {
    InitInv(handles, unloaders);
    RunKeepsInv(Init(handles, unloaders), sched);
    var s := Run(Init(handles, unloaders), sched);
    RunKeepsInv(s, more);
    FinishedStays(s, more, u);
    assert UnloaderOk(Run(s, more), Run(s, more).unloaders[u]);
  }

  /** After the unload has begun, the handles that hold a lease can only become fewer. */
  lemma {:induction false} LeasesOnlyShrink(s: State, sched: seq<Step>, h: nat)
    requires Inv(s) && Closed(s.phase) && Runs(s, sched) && h < |s.holders| && !HoldsLease(s.holders[h])
    ensures var s' := Run(s, sched); h < |s'.holders| && !HoldsLease(s'.holders[h])
    decreases |sched|
  {
    if sched != [] {
      StepPreservesInv(s, sched[0]);
      LeasesOnlyShrink(Next(s, sched[0]), sched[1..], h);
    }
  }

  /** The count is the number of handles between their increment and their decrement. */
  lemma CountIsExact(handles: nat, unloaders: nat, sched: seq<Step>)
    requires handles < U32 && Runs(Init(handles, unloaders), sched)
    ensures var s := Run(Init(handles, unloaders), sched);
      s.leases == Sum(s.holders, Counted) && (s.leases == 0 ==> NoLease(s))
  {
    InitInv(handles, unloaders);
    RunKeepsInv(Init(handles, unloaders), sched);
    var s := Run(Init(handles, unloaders), sched);
    if s.leases == 0 { ZeroMeansNoLease(s); }
  }

  // ----- pin and unpin

  ghost predicate AllFree(s: State) { forall h :: 0 <= h < |s.holders| ==> s.holders[h].Free? }

  /** At rest every reference taken by `pin` has been given back exactly when the back-outs that raised the count from
      zero are as many as those that dropped it to zero. */
  lemma PinsBalanceExactlyWhen(handles: nat, unloaders: nat, sched: seq<Step>)
    requires handles < U32 && Runs(Init(handles, unloaders), sched) && AllFree(Run(Init(handles, unloaders), sched))
    ensures var s := Run(Init(handles, unloaders), sched);
      s.pins == s.droppedBack - s.raisedBack && (s.pins == 0 <==> s.raisedBack == s.droppedBack)
  {
    InitInv(handles, unloaders);
    RunKeepsInv(Init(handles, unloaders), sched);
    var s := Run(Init(handles, unloaders), sched);
    assert s.holders == seq(|s.holders|, _ => Free);
    SumFree(|s.holders|, Counted);
    SumFree(|s.holders|, Owed);
  }

  /** An acquire between its first look at the state and its second. */
  predicate InFlight(p: Holder) { p.SawActive? || p.Added? || p.BackingOut? }

  ghost predicate NoneInFlight(s: State) { forall h :: 0 <= h < |s.holders| ==> !InFlight(s.holders[h]) }

  /** In this run every unload begins while no acquire is in flight. */
  ghost predicate Undisturbed(s: State, sched: seq<Step>)
    requires Runs(s, sched)
    decreases |sched|
  {
    sched != [] ==>
      && (s.phase == Active && Next(s, sched[0]).phase != Active ==> NoneInFlight(s))
      && Undisturbed(Next(s, sched[0]), sched[1..])
  }

  ghost predicate Settled(s: State) {
    && s.raisedBack == 0 && s.droppedBack == 0
    && (s.phase != Active ==> NoneInFlight(s))
    && (forall h :: 0 <= h < |s.holders| ==> !s.holders[h].BackingOut?)
  }

  lemma {:induction false} UndisturbedSettles(s: State, sched: seq<Step>)
    requires Inv(s) && Settled(s) && Runs(s, sched) && Undisturbed(s, sched)
    ensures Settled(Run(s, sched))
    decreases |sched|
  {
    if sched != [] {
      StepPreservesInv(s, sched[0]);
      StepSettles(s, sched[0]);
      UndisturbedSettles(Next(s, sched[0]), sched[1..]);
    }
  }

  lemma StepSettles(s: State, a: Step)
    requires Inv(s) && Settled(s) && Enabled(s, a) &&
      (s.phase == Active && Next(s, a).phase != Active ==> NoneInFlight(s))
    ensures Settled(Next(s, a))
  {
    var s' := Next(s, a);
    if IsUnloadStep(a) { assert UnloaderOk(s, s.unloaders[a.u]); }
    forall h | 0 <= h < |s'.holders|
      ensures !s'.holders[h].BackingOut? && (s'.phase != Active ==> !InFlight(s'.holders[h]))
    {
      assert !s.holders[h].BackingOut?;
    }
  }

  /** When no unload begins under an acquire (so in particular when acquire and release are indivisible), the pins made,
      with those still owed by acquires and less the unpins still to be made, are one while the count is positive and
      none otherwise; at rest they balance. */
  lemma UndisturbedPinsBalance(handles: nat, unloaders: nat, sched: seq<Step>)
    requires handles < U32 && Runs(Init(handles, unloaders), sched) && Undisturbed(Init(handles, unloaders), sched)
    ensures var s := Run(Init(handles, unloaders), sched);
      s.pins + Sum(s.holders, Owed) == if s.leases > 0 then 1 else 0
    ensures var s := Run(Init(handles, unloaders), sched); AllFree(s) ==> s.pins == 0
  {
    var s0 := Init(handles, unloaders);
    InitInv(handles, unloaders);
    RunKeepsInv(s0, sched);
    UndisturbedSettles(s0, sched);
    if AllFree(Run(s0, sched)) { PinsBalanceExactlyWhen(handles, unloaders, sched); }
  }

  lemma {:induction false} RunThen(s0: State, sched: seq<Step>, a: Step)
    requires Runs(s0, sched) && Enabled(Run(s0, sched), a)
    ensures Runs(s0, sched + [a]) && Run(s0, sched + [a]) == Next(Run(s0, sched), a)
    decreases |sched|
  {
    if sched == [] {
      assert sched + [a] == [a];
      assert [a][1..] == [];
    } else {
      assert (sched + [a])[1..] == sched[1..] + [a];
      RunThen(Next(s0, sched[0]), sched[1..], a);
    }
  }

  /** Two handles and one unloader can reach `s` by `r`. */
  ghost predicate Reached(r: seq<Step>, s: State) { Runs(Init(2, 1), r) && Run(Init(2, 1), r) == s }

  lemma Extend(r: seq<Step>, s: State, a: Step, s': State) returns (longer: seq<Step>)
    requires Reached(r, s) && Enabled(s, a) && s' == Next(s, a)
    ensures Reached(longer, s')
  {
    longer := r + [a];
    RunThen(Init(2, 1), r, a);
  }

  lemma FirstAdds() returns (r: seq<Step>)
    ensures Reached(r, State(Active, 1, 0, [Added(true), Free], [Resting], 0, 0))
  {
    var s0 := State(Loading, 0, 0, [Free, Free], [Resting], 0, 0);
    assert Init(2, 1) == s0;
    r := [];
    var s1 := State(Active, 0, 0, [Free, Free], [Resting], 0, 0);
    r := Extend(r, s0, Activate, s1);
    var s2 := State(Active, 0, 0, [SawActive, Free], [Resting], 0, 0);
    r := Extend(r, s1, CheckState(0), s2);
    var s3 := State(Active, 1, 0, [Added(true), Free], [Resting], 0, 0);
    r := Extend(r, s2, FetchAdd(0), s3);
  }

  lemma SecondAdds(r0: seq<Step>) returns (r: seq<Step>)
    requires Reached(r0, State(Active, 1, 0, [Added(true), Free], [Resting], 0, 0))
    ensures Reached(r, State(Active, 2, 1, [Holding, Added(false)], [Resting], 0, 0))
  {
    var s0 := State(Active, 1, 0, [Added(true), Free], [Resting], 0, 0);
    r := r0;
    var s1 := State(Active, 1, 0, [Pinning, Free], [Resting], 0, 0);
    r := Extend(r, s0, Recheck(0), s1);
    var s2 := State(Active, 1, 1, [Holding, Free], [Resting], 0, 0);
    r := Extend(r, s1, Pin(0), s2);
    var s3 := State(Active, 1, 1, [Holding, SawActive], [Resting], 0, 0);
    r := Extend(r, s2, CheckState(1), s3);
    var s4 := State(Active, 2, 1, [Holding, Added(false)], [Resting], 0, 0);
    r := Extend(r, s3, FetchAdd(1), s4);
  }

  lemma DrainThenBackOut(r0: seq<Step>) returns (r: seq<Step>)
    requires Reached(r0, State(Active, 2, 1, [Holding, Added(false)], [Resting], 0, 0))
    ensures Reached(r, State(Draining, 0, 1, [Free, Free], [Waiting], 0, 1))
  {
    var s0 := State(Active, 2, 1, [Holding, Added(false)], [Resting], 0, 0);
    r := r0;
    var s1 := State(Active, 2, 1, [Holding, Added(false)], [Loaded(Active)], 0, 0);
    r := Extend(r, s0, LoadState(0), s1);
    var s2 := State(Draining, 2, 1, [Holding, Added(false)], [Waiting], 0, 0);
    r := Extend(r, s1, TryDrain(0, false), s2);
    var s3 := State(Draining, 1, 1, [Free, Added(false)], [Waiting], 0, 0);
    r := Extend(r, s2, Release(0), s3);
    var s4 := State(Draining, 1, 1, [Free, BackingOut(false)], [Waiting], 0, 0);
    r := Extend(r, s3, Recheck(1), s4);
    var s5 := State(Draining, 0, 1, [Free, Free], [Waiting], 0, 1);
    r := Extend(r, s4, BackOut(1), s5);
  }

  /** An unload that begins under an acquire can leave the module pinned for ever: the holder's release is not the
      last decrement, and the acquire that backs out does not unpin. */
  lemma PinCanLeak()
    ensures exists r, s :: Reached(r, s) && AllFree(s) && s.pins == 1
  {
    var r := FirstAdds();
    r := SecondAdds(r);
    r := DrainThenBackOut(r);
  }

  lemma SecondPasses(r0: seq<Step>) returns (r: seq<Step>)
    requires Reached(r0, State(Active, 1, 0, [Added(true), Free], [Resting], 0, 0))
    ensures Reached(r, State(Draining, 2, 0, [Added(true), Holding], [Waiting], 0, 0))
  {
    var s0 := State(Active, 1, 0, [Added(true), Free], [Resting], 0, 0);
    r := r0;
    var s1 := State(Active, 1, 0, [Added(true), SawActive], [Resting], 0, 0);
    r := Extend(r, s0, CheckState(1), s1);
    var s2 := State(Active, 2, 0, [Added(true), Added(false)], [Resting], 0, 0);
    r := Extend(r, s1, FetchAdd(1), s2);
    var s3 := State(Active, 2, 0, [Added(true), Holding], [Resting], 0, 0);
    r := Extend(r, s2, Recheck(1), s3);
    var s4 := State(Active, 2, 0, [Added(true), Holding], [Loaded(Active)], 0, 0);
    r := Extend(r, s3, LoadState(0), s4);
    var s5 := State(Draining, 2, 0, [Added(true), Holding], [Waiting], 0, 0);
    r := Extend(r, s4, TryDrain(0, false), s5);
  }

  lemma BackOutThenRelease(r0: seq<Step>) returns (r: seq<Step>)
    requires Reached(r0, State(Draining, 2, 0, [Added(true), Holding], [Waiting], 0, 0))
    ensures Reached(r, State(Draining, 0, -1, [Free, Free], [Waiting], 1, 0))
  {
    var s0 := State(Draining, 2, 0, [Added(true), Holding], [Waiting], 0, 0);
    r := r0;
    var s1 := State(Draining, 2, 0, [BackingOut(true), Holding], [Waiting], 0, 0);
    r := Extend(r, s0, Recheck(0), s1);
    var s2 := State(Draining, 1, 0, [Free, Holding], [Waiting], 1, 0);
    r := Extend(r, s1, BackOut(0), s2);
    var s3 := State(Draining, 0, 0, [Free, Unpinning], [Waiting], 1, 0);
    r := Extend(r, s2, Release(1), s3);
    var s4 := State(Draining, 0, -1, [Free, Free], [Waiting], 1, 0);
    r := Extend(r, s3, Unpin(1), s4);
  }

  /** The mirror image: an acquire that found the count at zero backs out, and another one that got its lease without
      pinning unpins on release, so a reference that nobody took is given back. */
  lemma UnpinCanUnderflow()
    ensures exists r, s :: Reached(r, s) && AllFree(s) && s.pins == -1
  {
    var r := FirstAdds();
    r := SecondPasses(r);
    r := BackOutThenRelease(r);
  }

  // ----- which configurations can end up unbalanced

  /** With one handle every back-out both raises the count from zero and drops it to zero. */
  ghost predicate SingleOk(s: State) {
    && |s.holders| == 1 && s.raisedBack == s.droppedBack
    && (s.holders[0].Added? || s.holders[0].BackingOut? ==> s.holders[0].raised)
  }

  lemma {:induction false} SingleHandleBalances(s: State, sched: seq<Step>)
    requires Inv(s) && SingleOk(s) && Runs(s, sched)
    ensures SingleOk(Run(s, sched))
    decreases |sched|
  {
    if sched != [] {
      StepPreservesInv(s, sched[0]);
      CountBounds(s.holders, 0);
      SingleHandleBalances(Next(s, sched[0]), sched[1..]);
    }
  }

  /** Without unloaders no unload ever begins. */
  lemma {:induction false} NoUnloaderNoDisturbance(s: State, sched: seq<Step>)
    requires s.unloaders == [] && Runs(s, sched)
    ensures Undisturbed(s, sched)
    decreases |sched|
  {
    if sched != [] { NoUnloaderNoDisturbance(Next(s, sched[0]), sched[1..]); }
  }

  /** `big` is `s` with further handles and unloaders that do nothing. */
  ghost predicate Embeds(s: State, big: State) {
    && |s.holders| <= |big.holders| && |s.unloaders| <= |big.unloaders|
    && big == s.(holders := big.holders, unloaders := big.unloaders)
    && big.holders[..|s.holders|] == s.holders && big.unloaders[..|s.unloaders|] == s.unloaders
    && (forall h :: |s.holders| <= h < |big.holders| ==> big.holders[h].Free?)
  }

  lemma StepEmbeds(s: State, big: State, a: Step)
    requires Embeds(s, big) && Enabled(s, a)
    ensures Enabled(big, a) && Embeds(Next(s, a), Next(big, a))
  {
    if a.Activate? {
    } else if IsUnloadStep(a) {
      assert big.unloaders[a.u] == big.unloaders[..|s.unloaders|][a.u];
      assert Next(s, a).unloaders == Next(big, a).unloaders[..|s.unloaders|];
    } else {
      assert big.holders[a.h] == big.holders[..|s.holders|][a.h];
      assert Next(s, a).holders == Next(big, a).holders[..|s.holders|];
    }
  }

  lemma {:induction false} RunEmbeds(s: State, big: State, sched: seq<Step>)
    requires Embeds(s, big) && Runs(s, sched)
    ensures Runs(big, sched) && Embeds(Run(s, sched), Run(big, sched))
    decreases |sched|
  {
    if sched != [] {
      StepEmbeds(s, big, sched[0]);
      RunEmbeds(Next(s, sched[0]), Next(big, sched[0]), sched[1..]);
    }
  }

  /** All handles are at rest and the pins do not balance. */
  ghost predicate Unbalanced(s: State) { AllFree(s) && s.pins != 0 }

  ghost predicate EndsUnbalanced(handles: nat, unloaders: nat, sched: seq<Step>) {
    Runs(Init(handles, unloaders), sched) && Unbalanced(Run(Init(handles, unloaders), sched))
  }

  /** The exact condition on the configuration: some run ends at rest with unbalanced pins if and only if there are at
      least two handles and an unloader. */
  lemma UnbalancedExactlyWhen(handles: nat, unloaders: nat)
    requires handles < U32
    ensures (exists sched :: EndsUnbalanced(handles, unloaders, sched)) <==> handles >= 2 && unloaders >= 1
  {
    if handles >= 2 && unloaders >= 1 {
      var sched := LargeConfigurationLeaks(handles, unloaders);
    } else {
      forall sched ensures !EndsUnbalanced(handles, unloaders, sched) {
        if Runs(Init(handles, unloaders), sched) { SmallConfigurationBalances(handles, unloaders, sched); }
      }
    }
  }

  lemma LargeConfigurationLeaks(handles: nat, unloaders: nat) returns (sched: seq<Step>)
    requires handles >= 2 && unloaders >= 1
    ensures EndsUnbalanced(handles, unloaders, sched)
  {
    var s0 := Init(handles, unloaders);
    PinCanLeak();
    var r, s :| Reached(r, s) && AllFree(s) && s.pins == 1;
    assert s0.holders[..2] == Init(2, 1).holders && s0.unloaders[..1] == Init(2, 1).unloaders;
    RunEmbeds(Init(2, 1), s0, r);
    EmbeddedRest(s, Run(s0, r));
    sched := r;
  }

  lemma EmbeddedRest(s: State, big: State)
    requires Embeds(s, big) && AllFree(s)
    ensures AllFree(big) && big.pins == s.pins
  {
    forall h | 0 <= h < |big.holders| ensures big.holders[h].Free? {
      if h < |s.holders| { assert big.holders[h] == big.holders[..|s.holders|][h]; }
    }
  }

  lemma SmallConfigurationBalances(handles: nat, unloaders: nat, sched: seq<Step>)
    requires handles < 2 || unloaders == 0
    requires handles < U32 && Runs(Init(handles, unloaders), sched)
    ensures !Unbalanced(Run(Init(handles, unloaders), sched))
  {
    var s0 := Init(handles, unloaders);
    if AllFree(Run(s0, sched)) {
      InitInv(handles, unloaders);
      PinsBalanceExactlyWhen(handles, unloaders, sched);
      if unloaders == 0 {
        NoUnloaderNoDisturbance(s0, sched);
        UndisturbedPinsBalance(handles, unloaders, sched);
      } else if handles == 1 {
        SingleHandleBalances(s0, sched);
      } else {
        NoHandleNoBackOut(s0, sched);
      }
    }
  }

  lemma {:induction false} NoHandleNoBackOut(s: State, sched: seq<Step>)
    requires s.holders == [] && Runs(s, sched)
    ensures var s' := Run(s, sched);
      s'.holders == [] && s'.raisedBack == s.raisedBack && s'.droppedBack == s.droppedBack
    decreases |sched|
  {
    if sched != [] { NoHandleNoBackOut(Next(s, sched[0]), sched[1..]); }
  }

  // ----- a lease before its pin

  /** Somebody has a lease, and the module is not pinned. */
  ghost predicate Unpinned(s: State) {
    s.pins <= 0 && exists h :: 0 <= h < |s.holders| && s.holders[h].Holding?
  }

  ghost predicate GetsUnpinned(handles: nat, unloaders: nat, sched: seq<Step>) {
    Runs(Init(handles, unloaders), sched) && Unpinned(Run(Init(handles, unloaders), sched))
  }

  /** Handle 1 gets its lease between the increment and the pin of handle 0. */
  const EARLY_LEASE: seq<Step> := [Activate, CheckState(0), FetchAdd(0), CheckState(1), FetchAdd(1), Recheck(1)]

  lemma RunsPair(s: State, a: Step, s1: State, b: Step, s2: State, rest: seq<Step>)
    requires Enabled(s, a) && s1 == Next(s, a) && Enabled(s1, b) && s2 == Next(s1, b) && Runs(s2, rest)
    ensures Runs(s, [a, b] + rest) && Run(s, [a, b] + rest) == Run(s2, rest)
  {
    assert ([a, b] + rest)[1..] == [b] + rest && ([b] + rest)[1..] == rest;
    assert Runs(s1, [b] + rest) && Run(s1, [b] + rest) == Run(s2, rest);
  }

  lemma LeaseBeforePin()
    ensures Runs(Init(2, 0), EARLY_LEASE)
    ensures Run(Init(2, 0), EARLY_LEASE) == State(Active, 2, 0, [Added(true), Holding], [], 0, 0)
  {
    var s0 := State(Loading, 0, 0, [Free, Free], [], 0, 0);
    var s2 := State(Active, 0, 0, [SawActive, Free], [], 0, 0);
    var s4 := State(Active, 1, 0, [Added(true), SawActive], [], 0, 0);
    assert Init(2, 0) == s0;
    AddsAndPasses(s4);
    AddsAndLooks(s2, s4);
    RunsPair(s0, Activate, s0.(phase := Active), CheckState(0), s2,
      [FetchAdd(0), CheckState(1)] + [FetchAdd(1), Recheck(1)]);
    assert EARLY_LEASE == [Activate, CheckState(0)] + ([FetchAdd(0), CheckState(1)] + [FetchAdd(1), Recheck(1)]);
  }

  lemma AddsAndLooks(s: State, s2: State)
    requires s == State(Active, 0, 0, [SawActive, Free], [], 0, 0)
    requires s2 == State(Active, 1, 0, [Added(true), SawActive], [], 0, 0) && Runs(s2, [FetchAdd(1), Recheck(1)])
    ensures var rest := [FetchAdd(1), Recheck(1)];
      && Runs(s, [FetchAdd(0), CheckState(1)] + rest)
      && Run(s, [FetchAdd(0), CheckState(1)] + rest) == Run(s2, rest)
  {
    var s1 := State(Active, 1, 0, [Added(true), Free], [], 0, 0);
    RunsPair(s, FetchAdd(0), s1, CheckState(1), s2, [FetchAdd(1), Recheck(1)]);
  }

  lemma AddsAndPasses(s: State)
    requires s == State(Active, 1, 0, [Added(true), SawActive], [], 0, 0)
    ensures Runs(s, [FetchAdd(1), Recheck(1)])
    ensures Run(s, [FetchAdd(1), Recheck(1)]) == State(Active, 2, 0, [Added(true), Holding], [], 0, 0)
  {
    var s1 := State(Active, 2, 0, [Added(true), Added(false)], [], 0, 0);
    var s2 := State(Active, 2, 0, [Added(true), Holding], [], 0, 0);
    RunsPair(s, FetchAdd(1), s1, Recheck(1), s2, []);
    assert [FetchAdd(1), Recheck(1)] + [] == [FetchAdd(1), Recheck(1)];
  }

  /** The exact condition: some run reaches a lease on a module that is not pinned if and only if there are at least two
      handles; no unloader is needed. */
  lemma UnpinnedExactlyWhen(handles: nat, unloaders: nat)
    requires handles < U32
    ensures (exists sched :: GetsUnpinned(handles, unloaders, sched)) <==> handles >= 2
  {
    if handles >= 2 {
      ManyGetUnpinned(handles, unloaders);
    } else {
      forall sched ensures !GetsUnpinned(handles, unloaders, sched) {
        if Runs(Init(handles, unloaders), sched) { SingleIsPinned(handles, unloaders, sched); }
      }
    }
  }

  lemma ManyGetUnpinned(handles: nat, unloaders: nat)
    requires handles >= 2
    ensures GetsUnpinned(handles, unloaders, EARLY_LEASE)
  {
    var s0 := Init(handles, unloaders);
    LeaseBeforePin();
    assert s0.holders[..2] == Init(2, 0).holders && s0.unloaders[..0] == Init(2, 0).unloaders;
    RunEmbeds(Init(2, 0), s0, EARLY_LEASE);
    var s := Run(s0, EARLY_LEASE);
    assert s.holders[..2][1] == s.holders[1];
  }

  lemma SingleIsPinned(handles: nat, unloaders: nat, sched: seq<Step>)
    requires handles < 2 && Runs(Init(handles, unloaders), sched)
    ensures !Unpinned(Run(Init(handles, unloaders), sched))
  {
    var s0 := Init(handles, unloaders);
    var s := Run(s0, sched);
    InitInv(handles, unloaders);
    RunKeepsInv(s0, sched);
    if handles == 0 {
      NoHandleNoBackOut(s0, sched);
    } else {
      SingleHandleBalances(s0, sched);
      assert s.holders[..0] == [];
      assert Sum(s.holders, Owed) == Owed(s.holders[0]) && Sum(s.holders, Counted) == Counted(s.holders[0]);
    }
  }

  // ----- what an undisturbed handle and unloader get

  /** A handle that begins to acquire after the unload has begun is turned away at once: it touches neither the count
      nor the pins, in every interleaving. */
  lemma {:induction false} LateHandlesStayOut(s: State, sched: seq<Step>, h: nat)
    requires Runs(s, sched) && Closed(s.phase) && h < |s.holders| && s.holders[h] == Free
    ensures Closed(Run(s, sched).phase) && h < |Run(s, sched).holders| && Run(s, sched).holders[h] == Free
    decreases |sched|
  {
    if sched != [] { LateHandlesStayOut(Next(s, sched[0]), sched[1..], h); }
  }

  /** The steps of an acquire, and of a release, that nobody interrupts. */
  function Acquire(h: nat, first: bool): seq<Step> {
    [CheckState(h), FetchAdd(h), Recheck(h)] + if first then [Pin(h)] else []
  }

  function Return(h: nat, last: bool): seq<Step> {
    [Release(h)] + if last then [Unpin(h)] else []
  }

  /** On an active module an acquire gets the lease, and pins the module if it is the first. */
  lemma ActiveAcquires(s: State, h: nat)
    requires s.phase == Active && h < |s.holders| && s.holders[h] == Free && s.leases + 1 < U32
    ensures Runs(s, Acquire(h, s.leases == 0))
    ensures Run(s, Acquire(h, s.leases == 0)) ==
      s.(holders := s.holders[h := Holding], leases := s.leases + 1,
         pins := if s.leases == 0 then s.pins + 1 else s.pins)
  {
    var first := s.leases == 0;
    var s1 := s.(holders := s.holders[h := SawActive]);
    var s2 := s.(holders := s.holders[h := Added(first)], leases := s.leases + 1);
    assert Next(s, CheckState(h)) == s1 && Next(s1, FetchAdd(h)) == s2;
    AddedPasses(s2, h);
    var rest := [Recheck(h)] + if first then [Pin(h)] else [];
    RunsPair(s, CheckState(h), s1, FetchAdd(h), s2, rest);
    assert Acquire(h, first) == [CheckState(h), FetchAdd(h)] + rest;
    assert s2.holders[h := Holding] == s.holders[h := Holding];
  }

  lemma AddedPasses(s: State, h: nat)
    requires s.phase == Active && h < |s.holders| && s.holders[h].Added?
    ensures var rest := [Recheck(h)] + if s.holders[h].raised then [Pin(h)] else [];
      && Runs(s, rest)
      && Run(s, rest) ==
        s.(holders := s.holders[h := Holding], pins := if s.holders[h].raised then s.pins + 1 else s.pins)
  {
    var raised := s.holders[h].raised;
    var s1 := s.(holders := s.holders[h := if raised then Pinning else Holding]);
    var s2 := s.(holders := s.holders[h := Holding], pins := if raised then s.pins + 1 else s.pins);
    assert s1.holders[h := Holding] == s.holders[h := Holding];
    LastSteps(s, Recheck(h), s1, if raised then [Pin(h)] else [], s2);
  }

  /** A release gives back exactly what its acquire took; the last one takes the pin away. */
  lemma ReturnUndoesAcquire(s: State, h: nat)
    requires s.phase == Active && h < |s.holders| && s.holders[h] == Free && s.leases + 1 < U32
    ensures Runs(s, Acquire(h, s.leases == 0))
    ensures var held := Run(s, Acquire(h, s.leases == 0));
      Runs(held, Return(h, s.leases == 0)) && Run(held, Return(h, s.leases == 0)) == s
  {
    ActiveAcquires(s, h);
    var last, held := s.leases == 0, Run(s, Acquire(h, s.leases == 0));
    var back := held.(holders := s.holders[h := if last then Unpinning else Free], leases := s.leases);
    assert s.holders[h := Free] == s.holders && back.holders[h := Free] == s.holders;
    assert Next(held, Release(h)) == back;
    LastSteps(held, Release(h), back, if last then [Unpin(h)] else [], s);
  }

  lemma LastSteps(s: State, a: Step, s1: State, rest: seq<Step>, s2: State)
    requires Enabled(s, a) && Next(s, a) == s1 && |rest| <= 1
    requires if rest == [] then s1 == s2 else Enabled(s1, rest[0]) && Next(s1, rest[0]) == s2
    ensures Runs(s, [a] + rest) && Run(s, [a] + rest) == s2
  {
    if rest != [] { assert rest[1..] == [] && Runs(s2, []) && Run(s2, []) == s2; }
    assert Runs(s1, rest) && Run(s1, rest) == s2;
    assert ([a] + rest)[1..] == rest;
  }

  /** An unload of a module without leases closes it and comes to its end, also when another unload has begun before. */
  lemma IdleUnloadFinishes(s: State, u: nat)
    requires s.phase != Loading && s.leases == 0 && u < |s.unloaders|
    requires s.unloaders[u] == Resting || s.unloaders[u] == Busy
    ensures var sched := [LoadState(u), TryDrain(u, false), Poll(u), MarkUnloaded(u)];
      Runs(s, sched) && Run(s, sched) == s.(phase := Unloaded, unloaders := s.unloaders[u := Done])
  {
    var s1 := s.(unloaders := s.unloaders[u := Loaded(s.phase)]);
    var s2 := s.(phase := if s.phase == Active then Draining else s.phase, unloaders := s.unloaders[u := Waiting]);
    var s3 := s2.(unloaders := s.unloaders[u := SawZero]);
    var s4 := s.(phase := Unloaded, unloaders := s.unloaders[u := Done]);
    assert Next(s, LoadState(u)) == s1 && Next(s1, TryDrain(u, false)) == s2;
    assert Next(s2, Poll(u)) == s3 && Next(s3, MarkUnloaded(u)) == s4;
    LastSteps(s2, Poll(u), s3, [MarkUnloaded(u)], s4);
    var rest := [Poll(u)] + [MarkUnloaded(u)];
    RunsPair(s, LoadState(u), s1, TryDrain(u, false), s2, rest);
    assert [LoadState(u), TryDrain(u, false), Poll(u), MarkUnloaded(u)] == [LoadState(u), TryDrain(u, false)] + rest;
  }

  /** An exchange that fails for no reason changes nothing and is tried again. */
  lemma FailedExchangeRetries(s: State, u: nat)
    requires Enabled(s, TryDrain(u, true)) && s.unloaders[u] == Loaded(Active)
    ensures Next(s, TryDrain(u, true)) == s.(unloaders := s.unloaders[u := Loaded(s.phase)])
  {
  }

  /** A wait that gives up does so on leases that are held, and leaves module, count and pins as they are. */
  lemma BusyUnloadKeeps(s: State, u: nat)
    requires Enabled(s, GiveUp(u))
    ensures Next(s, GiveUp(u)) == s.(unloaders := s.unloaders[u := if s.leases > 0 then Busy else SawZero])
  {
  }
}
