/** The collector of `rcu::Domain` at its own grain: a thread that holds the writer lock stores the
    watermark, visits one node after the other, and releases the lock, while readers and all lock-free
    steps of other threads go on in between.

    `base` is the protocol state without the collection in progress; `work` is that collection, with
    the domain as it is.
 */
module RcuFine {
  import opened Options
  import opened RcuDomain
  import opened RcuProtocol
  import opened RcuSafety

  datatype Pass = Between | Walking(cls: ReclaimClass, seen: seq<Node>, kept: nat)

  /** Thread `t` carries out the collections of its step `a`: `done` are over, `todo` have not begun. While a pass walks
      the list, `kept` nodes lie before the next node to visit, and `seen` are the nodes visited. */
  datatype Work = Work(
    t: Tid,
    a: Step,
    safe: nat,
    done: seq<ReclaimClass>,
    pass: Pass,
    todo: seq<ReclaimClass>,
    d: Shared)

  /** `late` records the nodes that were published at or below the watermark of their class. */
  datatype Fine = Fine(base: State, work: Option<Work>, late: set<Node>)

  /** The domain that a lock-free reader sees. */
  function Domain(f: Fine): Shared { if f.work.Some? then f.work.value.d else f.base.d }

  function Start(threads: nat): Fine { Fine(Init(threads), None, {}) }

  /** The collections a step makes, in order; none when it makes no collection. */
  function Passes(pc: WriterPc, a: Step): seq<ReclaimClass> {
    if a.Finish? && pc.Proven? then
      if pc.call == Until then [Eager, Batched] else if pc.call.eager then [Eager] else [Batched]
    else if a.TryFinish? && pc.TryScan? && pc.min > 1 then [Eager, Batched]
    else []
  }

  /** Steps that do not take the writer lock; a `try_collect` takes it only to collect. */
  predicate LockFree(a: Step) {
    || (IsReaderStep(a) && !a.Register?)
    || a.Swap? || a.RetireLoad? || a.RetireAppend? || a.RetireFail?
    || a.SpinEnd? || a.UntilGiveUp? || IsScanStep(a) || a.TryFinish?
  }

  datatype FineStep =
    | Plain(t: Tid, a: Step)    // a step of the protocol that makes no collection
    | Begin(t: Tid, a: Step)    // take the lock to collect
    | StoreMark                 // raise the watermark, or return at it
    | Visit                     // one turn of the loop over the list
    | EndPass
    | Release

  predicate Can(f: Fine, m: FineStep) {
    match m
    case Plain(t, a) => Enabled(f.base, t, a) && Passes(f.base.threads[t].wpc, a) == [] &&
      (f.work.Some? ==> LockFree(a))
    case Begin(t, a) => f.work.None? && Enabled(f.base, t, a) && Passes(f.base.threads[t].wpc, a) != []
    case StoreMark => f.work.Some? && f.work.value.pass.Between? && f.work.value.todo != []
    case Visit => f.work.Some? && f.work.value.pass.Walking? && f.work.value.pass.kept < |f.work.value.d.retired|
    case EndPass => f.work.Some? && f.work.value.pass.Walking? && f.work.value.pass.kept >= |f.work.value.d.retired|
    case Release =>
      && f.work.Some? && f.work.value.pass.Between? && f.work.value.todo == []
      && Enabled(f.base, f.work.value.t, f.work.value.a)
  }

  function SetMark(d: Shared, cls: ReclaimClass, safe: nat): Shared {
    if cls == Eager then d.(completedEager := safe) else d.(completed := safe)
  }

  /** One node: unlinked with its callback run if it is due, stepped over otherwise. */
  function Visited(w: Work): Work
    requires w.pass.Walking? && w.pass.kept < |w.d.retired|
  {
    var k := w.pass.kept;
    var n := w.d.retired[k];
    if Due(n, w.safe, w.pass.cls) then
      w.(pass := w.pass.(seen := w.pass.seen + [n]),
         d := w.d.(retired := w.d.retired[..k] + w.d.retired[k + 1..], reclaimed := w.d.reclaimed + [n]))
    else w.(pass := w.pass.(seen := w.pass.seen + [n], kept := k + 1))
  }

  function Marked(w: Work): Work
    requires w.pass.Between? && w.todo != []
  {
    var cls := w.todo[0];
    if w.safe <= Watermark(w.d, cls) then w.(done := w.done + [cls], todo := w.todo[1..])
    else w.(pass := Walking(cls, [], 0), todo := w.todo[1..], d := SetMark(w.d, cls, w.safe))
  }

  /** The nodes of a batch that are published at or below their watermark. */
  function Late(s: State, t: Tid, s': State): set<Node>
    requires t < |s.threads| && t < |s'.threads|
  {
    set n | n in s.threads[t].batch && n !in s'.threads[t].batch && n.epoch <= Watermark(s.d, n.cls)
  }

  function FineNext(f: Fine, m: FineStep): Fine
    requires Can(f, m)
  {
    match m
    case Plain(t, a) =>
      var s' := Next(f.base, t, a);
      if f.work.Some? then f.(base := s')
      else Fine(s', None, if t < |s'.threads| then f.late + Late(f.base, t, s') else f.late)
    case Begin(t, a) =>
      var pc := f.base.threads[t].wpc;
      f.(work := Some(Work(t, a, SafeEpoch(pc), [], Between, Passes(pc, a), f.base.d)))
    case StoreMark => f.(work := Some(Marked(f.work.value)))
    case Visit => f.(work := Some(Visited(f.work.value)))
    case EndPass =>
      var w := f.work.value;
      f.(work := Some(w.(pass := Between, done := w.done + [w.pass.cls])))
    case Release =>
      var w := f.work.value;
      f.(base := Next(f.base, w.t, w.a).(d := if w.a.Finish? then ClearSync(w.d) else w.d), work := None)
  }

  predicate FineRuns(f: Fine, run: seq<FineStep>)
    decreases |run|
  {
    run == [] || (Can(f, run[0]) && FineRuns(FineNext(f, run[0]), run[1..]))
  }

  function FineRun(f: Fine, run: seq<FineStep>): Fine
    requires FineRuns(f, run)
    decreases |run|
  {
    if run == [] then f else FineRun(FineNext(f, run[0]), run[1..])
  }

  // ----- a collection in progress

  /** The domain after complete collections of these classes. */
  function CollectAll(d: Shared, safe: nat, classes: seq<ReclaimClass>): Shared {
    if classes == [] then d
    else Collect(CollectAll(d, safe, classes[..|classes| - 1]), safe, classes[|classes| - 1])
  }

  /** `d` is `p` with the collection of `cls` carried out on the nodes `seen`. */
  ghost predicate Partly(p: Shared, d: Shared, safe: nat, cls: ReclaimClass, seen: seq<Node>, kept: nat) {
    && Watermark(p, cls) < safe && kept <= |d.retired|
    && d.retired[..kept] == Kept(seen, safe, cls) && p.retired == seen + d.retired[kept..]
    && d == SetMark(p, cls, safe).(retired := d.retired, reclaimed := p.reclaimed + Taken(seen, safe, cls))
  }

  ghost predicate WorkOk(s: State, w: Work) {
    && Enabled(s, w.t, w.a) && Passes(s.threads[w.t].wpc, w.a) != []
    && w.safe == SafeEpoch(s.threads[w.t].wpc)
    && var p := CollectAll(s.d, w.safe, w.done);
    match w.pass
    case Between => Passes(s.threads[w.t].wpc, w.a) == w.done + w.todo && w.d == p
    case Walking(cls, seen, kept) =>
      Passes(s.threads[w.t].wpc, w.a) == w.done + [cls] + w.todo && Partly(p, w.d, w.safe, cls, seen, kept)
  }

  ghost predicate FineOk(f: Fine) { Inv(f.base) && (f.work.Some? ==> WorkOk(f.base, f.work.value)) }

  lemma KeptOne(n: Node, safe: nat, cls: ReclaimClass)
    ensures Kept([n], safe, cls) == if Due(n, safe, cls) then [] else [n]
    ensures Taken([n], safe, cls) == if Due(n, safe, cls) then [n] else []
  {
    assert [n][1..] == [];
  }

  lemma VisitPartly(p: Shared, w: Work)
    requires w.pass.Walking? && w.pass.kept < |w.d.retired|
    requires Partly(p, w.d, w.safe, w.pass.cls, w.pass.seen, w.pass.kept)
    ensures var w' := Visited(w); Partly(p, w'.d, w.safe, w.pass.cls, w'.pass.seen, w'.pass.kept)
  {
    if Due(w.d.retired[w.pass.kept], w.safe, w.pass.cls) {
      PartlyTakes(p, w.d, w.safe, w.pass.cls, w.pass.seen, w.pass.kept);
    } else {
      PartlySkips(p, w.d, w.safe, w.pass.cls, w.pass.seen, w.pass.kept);
    }
  }

  lemma PartlyTakes(p: Shared, d: Shared, safe: nat, cls: ReclaimClass, seen: seq<Node>, k: nat)
    requires Partly(p, d, safe, cls, seen, k) && k < |d.retired| && Due(d.retired[k], safe, cls)
    ensures var n := d.retired[k];
      Partly(p, d.(retired := d.retired[..k] + d.retired[k + 1..], reclaimed := d.reclaimed + [n]), safe, cls,
        seen + [n], k)
  {
    var n := d.retired[k];
    VisitTakes(d.retired, k, seen, safe, cls);
    TakenConcat(seen, [n], safe, cls);
    KeptOne(n, safe, cls);
    assert p.reclaimed + (Taken(seen, safe, cls) + [n]) == p.reclaimed + Taken(seen, safe, cls) + [n];
  }

  lemma PartlySkips(p: Shared, d: Shared, safe: nat, cls: ReclaimClass, seen: seq<Node>, k: nat)
    requires Partly(p, d, safe, cls, seen, k) && k < |d.retired| && !Due(d.retired[k], safe, cls)
    ensures Partly(p, d, safe, cls, seen + [d.retired[k]], k + 1)
  {
    var n := d.retired[k];
    VisitSkips(d.retired, k, seen, safe, cls);
    TakenConcat(seen, [n], safe, cls);
    KeptOne(n, safe, cls);
    assert Taken(seen, safe, cls) + [] == Taken(seen, safe, cls);
  }

  /** What a visit that takes its node makes of the list. */
  lemma VisitTakes(list: seq<Node>, k: nat, seen: seq<Node>, safe: nat, cls: ReclaimClass)
    requires k < |list| && list[..k] == Kept(seen, safe, cls) && Due(list[k], safe, cls)
    ensures var list' := list[..k] + list[k + 1..];
      list'[..k] == Kept(seen + [list[k]], safe, cls) && seen + list[k..] == (seen + [list[k]]) + list'[k..]
  {
    var n, list' := list[k], list[..k] + list[k + 1..];
    KeptConcat(seen, [n], safe, cls);
    KeptOne(n, safe, cls);
    assert list'[..k] == list[..k] && list'[k..] == list[k + 1..];
    assert list[k..] == [n] + list[k + 1..];
  }

  /** And of one that steps over it. */
  lemma VisitSkips(list: seq<Node>, k: nat, seen: seq<Node>, safe: nat, cls: ReclaimClass)
    requires k < |list| && list[..k] == Kept(seen, safe, cls) && !Due(list[k], safe, cls)
    ensures list[..k + 1] == Kept(seen + [list[k]], safe, cls) && seen + list[k..] == (seen + [list[k]]) + list[k + 1..]
  {
    var n := list[k];
    KeptConcat(seen, [n], safe, cls);
    KeptOne(n, safe, cls);
    assert list[..k + 1] == list[..k] + [n];
    assert list[k..] == [n] + list[k + 1..];
  }

  /** A pass that has visited every node is a complete collection. */
  lemma PartlyEnds(p: Shared, d: Shared, safe: nat, cls: ReclaimClass, seen: seq<Node>, kept: nat)
    requires Partly(p, d, safe, cls, seen, kept) && kept == |d.retired|
    ensures d == Collect(p, safe, cls)
  {
    assert d.retired[kept..] == [] && d.retired[..kept] == d.retired;
    assert p.retired == seen;
  }

  lemma PartlyBegins(p: Shared, safe: nat, cls: ReclaimClass)
    requires Watermark(p, cls) < safe
    ensures Partly(p, SetMark(p, cls, safe), safe, cls, [], 0)
  {
    assert p.retired[0..] == p.retired && p.retired[..0] == [];
  }

  lemma CollectAllNext(d: Shared, safe: nat, classes: seq<ReclaimClass>, cls: ReclaimClass)
    ensures CollectAll(d, safe, classes + [cls]) == Collect(CollectAll(d, safe, classes), safe, cls)
  {
    assert (classes + [cls])[..|classes|] == classes;
  }

  // ----- every step keeps the collection in progress in step with the protocol

  /** A lock-free step of any thread leaves the domain alone, and the collector where it is. */
  lemma LockFreeKeeps(s: State, t: Tid, a: Step, u: Tid)
    requires Enabled(s, t, a) && LockFree(a) && Passes(s.threads[t].wpc, a) == []
    requires u < |s.threads| && (s.threads[u].wpc.Proven? || (s.threads[u].wpc.TryScan? && s.threads[u].wpc.todo == []))
    requires !(u == t && a.TryFinish?)
    ensures var s' := Next(s, t, a); s'.d == s.d && u < |s'.threads| && s'.threads[u].wpc == s.threads[u].wpc
  {
  }

  lemma PlainKeepsWork(s: State, t: Tid, a: Step, w: Work)
    requires WorkOk(s, w) && Enabled(s, t, a) && LockFree(a) && Passes(s.threads[t].wpc, a) == []
    ensures WorkOk(Next(s, t, a), w)
  {
    LockFreeKeeps(s, t, a, w.t);
  }

  lemma MarkedOk(s: State, w: Work)
    requires WorkOk(s, w) && w.pass.Between? && w.todo != []
    ensures WorkOk(s, Marked(w))
  {
    var cls := w.todo[0];
    CollectAllNext(s.d, w.safe, w.done, cls);
    assert w.done + w.todo == w.done + [cls] + w.todo[1..];
    if Watermark(w.d, cls) < w.safe { PartlyBegins(w.d, w.safe, cls); }
  }

  lemma VisitedOk(s: State, w: Work)
    requires WorkOk(s, w) && w.pass.Walking? && w.pass.kept < |w.d.retired|
    ensures WorkOk(s, Visited(w))
  {
    VisitPartly(CollectAll(s.d, w.safe, w.done), w);
  }

  lemma EndedOk(s: State, w: Work)
    requires WorkOk(s, w) && w.pass.Walking? && w.pass.kept >= |w.d.retired|
    ensures WorkOk(s, w.(pass := Between, done := w.done + [w.pass.cls]))
  {
    var p := CollectAll(s.d, w.safe, w.done);
    PartlyEnds(p, w.d, w.safe, w.pass.cls, w.pass.seen, w.pass.kept);
    CollectAllNext(s.d, w.safe, w.done, w.pass.cls);
  }

  /** The collections of a step are what the protocol makes of the domain in one. */
  lemma PassesAreStep(s: State, t: Tid, a: Step)
    requires Enabled(s, t, a) && Passes(s.threads[t].wpc, a) != []
    ensures IsFinishStep(a)
    ensures var d := CollectAll(s.d, SafeEpoch(s.threads[t].wpc), Passes(s.threads[t].wpc, a));
      FinishStep(s, t, a).d == if a.Finish? then ClearSync(d) else d
  {
    var pc := s.threads[t].wpc;
    var safe := SafeEpoch(pc);
    assert CollectAll(s.d, safe, []) == s.d;
    CollectAllNext(s.d, safe, [], Eager);
    CollectAllNext(s.d, safe, [], Batched);
    CollectAllNext(s.d, safe, [Eager], Batched);
    assert [] + [Eager] == [Eager] && [] + [Batched] == [Batched] && [Eager] + [Batched] == [Eager, Batched];
  }

  lemma ReleaseIsNext(f: Fine)
    requires FineOk(f) && Can(f, Release)
    ensures FineNext(f, Release) == f.(base := Next(f.base, f.work.value.t, f.work.value.a), work := None)
  {
    var w := f.work.value;
    PassesAreStep(f.base, w.t, w.a);
    assert w.done + w.todo == w.done;
    assert Next(f.base, w.t, w.a) == FinishStep(f.base, w.t, w.a);
  }

  lemma FineStepOk(f: Fine, m: FineStep)
    requires FineOk(f) && Can(f, m)
    ensures FineOk(FineNext(f, m))
    ensures m.Plain? ==> FineNext(f, m).base == Next(f.base, m.t, m.a)
    ensures m.Release? ==> FineNext(f, m).base == Next(f.base, f.work.value.t, f.work.value.a)
    ensures !m.Plain? && !m.Release? ==> FineNext(f, m).base == f.base
  {
    match m
    case Plain(t, a) =>
      StepPreservesInv(f.base, t, a);
      if f.work.Some? { PlainKeepsWork(f.base, t, a, f.work.value); }
    case Begin(t, a) =>
      assert CollectAll(f.base.d, SafeEpoch(f.base.threads[t].wpc), []) == f.base.d;
      assert [] + Passes(f.base.threads[t].wpc, a) == Passes(f.base.threads[t].wpc, a);
    case StoreMark => MarkedOk(f.base, f.work.value);
    case Visit => VisitedOk(f.base, f.work.value);
    case EndPass => EndedOk(f.base, f.work.value);
    case Release =>
      ReleaseIsNext(f);
      StepPreservesInv(f.base, f.work.value.t, f.work.value.a);
  }

  /** Every fine run is a run of the protocol, with each collection at the release of its lock: whatever holds of all
      protocol runs holds of every fine run while nobody collects. */
  lemma {:induction false} FineRunsAreRuns(f: Fine, run: seq<FineStep>) returns (sched: Schedule)
    requires FineOk(f) && FineRuns(f, run)
    ensures FineOk(FineRun(f, run))
    ensures Runs(f.base, sched) && Run(f.base, sched) == FineRun(f, run).base
    decreases |run|
  {
    if run == [] {
      sched := [];
    } else {
      var m := run[0];
      FineStepOk(f, m);
      var rest := FineRunsAreRuns(FineNext(f, m), run[1..]);
      if m.Plain? {
        sched := [(m.t, m.a)] + rest;
        assert sched[1..] == rest;
      } else if m.Release? {
        sched := [(f.work.value.t, f.work.value.a)] + rest;
        assert sched[1..] == rest;
      } else {
        sched := rest;
      }
    }
  }

  // ----- no reader holds a reclaimed object, in the middle of a collection either

  lemma {:induction false} CollectAllGrows(d: Shared, safe: nat, xs: seq<ReclaimClass>, ys: seq<ReclaimClass>, n: Node)
    requires n in CollectAll(d, safe, xs).reclaimed
    ensures n in CollectAll(d, safe, xs + ys).reclaimed
    decreases |ys|
  {
    if ys == [] {
      assert xs + ys == xs;
    } else {
      var front, cls := ys[..|ys| - 1], ys[|ys| - 1];
      CollectAllGrows(d, safe, xs, front, n);
      CollectAllNext(d, safe, xs + front, cls);
      assert xs + ys == xs + front + [cls];
    }
  }

  /** What a collection has reclaimed so far is part of what it reclaims. */
  lemma PartlyReclaimed(p: Shared, d: Shared, safe: nat, cls: ReclaimClass, seen: seq<Node>, kept: nat, n: Node)
    requires Partly(p, d, safe, cls, seen, kept) && n in d.reclaimed
    ensures n in Collect(p, safe, cls).reclaimed
  {
    TakenConcat(seen, d.retired[kept..], safe, cls);
  }

  lemma WorkReclaims(s: State, w: Work, n: Node)
    requires WorkOk(s, w) && n in w.d.reclaimed
    ensures IsFinishStep(w.a) && n in FinishStep(s, w.t, w.a).d.reclaimed
  {
    var passes := Passes(s.threads[w.t].wpc, w.a);
    PassesAreStep(s, w.t, w.a);
    if w.pass.Walking? {
      var p := CollectAll(s.d, w.safe, w.done);
      PartlyReclaimed(p, w.d, w.safe, w.pass.cls, w.pass.seen, w.pass.kept, n);
      CollectAllNext(s.d, w.safe, w.done, w.pass.cls);
      CollectAllGrows(s.d, w.safe, w.done + [w.pass.cls], w.todo, n);
    } else {
      CollectAllGrows(s.d, w.safe, w.done, w.todo, n);
    }
  }

  /** No reader ever holds an object whose callback has run, at every point of every collection. */
  lemma NoReaderHoldsReclaimed(threads: nat, run: seq<FineStep>, r: Tid, n: Node)
    requires FineRuns(Start(threads), run)
    requires var f := FineRun(Start(threads), run); r < |f.base.threads| && n in Domain(f).reclaimed
    ensures n.obj !in FineRun(Start(threads), run).base.threads[r].held
  {
    var f := FineRun(Start(threads), run);
    InitInv(threads);
    var sched := FineRunsAreRuns(Start(threads), run);
    if f.work.Some? {
      var w := f.work.value;
      WorkReclaims(f.base, w, n);
      StepPreservesInv(f.base, w.t, w.a);
      WritersLeaveReadersAlone(f.base, w.t, w.a, r);
      assert ObjectsOk(Next(f.base, w.t, w.a), r);
    } else {
      assert ObjectsOk(f.base, r);
    }
  }

  // ----- conversely, every run of the protocol is a fine run

  lemma {:induction false} FineThen(f: Fine, r1: seq<FineStep>, r2: seq<FineStep>)
    requires FineRuns(f, r1) && FineRuns(FineRun(f, r1), r2)
    ensures FineRuns(f, r1 + r2) && FineRun(f, r1 + r2) == FineRun(FineRun(f, r1), r2)
    decreases |r1|
  {
    if r1 == [] {
      assert r1 + r2 == r2;
    } else {
      assert (r1 + r2)[0] == r1[0] && (r1 + r2)[1..] == r1[1..] + r2;
      FineThen(FineNext(f, r1[0]), r1[1..], r2);
    }
  }

  lemma FineFirst(f: Fine, m: FineStep, rest: seq<FineStep>)
    requires Can(f, m) && FineRuns(FineNext(f, m), rest)
    ensures FineRuns(f, [m] + rest) && FineRun(f, [m] + rest) == FineRun(FineNext(f, m), rest)
  {
    assert ([m] + rest)[1..] == rest;
  }

  /** A pass that has begun comes to its end. */
  lemma {:induction false} PassEnds(f: Fine) returns (run: seq<FineStep>)
    requires FineOk(f) && f.work.Some? && f.work.value.pass.Walking?
    ensures FineRuns(f, run)
    ensures var f' := FineRun(f, run);
      && FineOk(f') && f'.work.Some? && f'.work.value.pass.Between?
      && f' == f.(work := f'.work) && f'.work.value.todo == f.work.value.todo
      && f'.work.value.t == f.work.value.t && f'.work.value.a == f.work.value.a
    decreases |f.work.value.d.retired| - f.work.value.pass.kept
  {
    var w := f.work.value;
    if w.pass.kept < |w.d.retired| {
      FineStepOk(f, Visit);
      var rest := PassEnds(FineNext(f, Visit));
      FineFirst(f, Visit, rest);
      run := [Visit] + rest;
    } else {
      FineStepOk(f, EndPass);
      FineFirst(f, EndPass, []);
      run := [EndPass] + [];
    }
  }

  /** A collection that has begun comes to its end, and has then had the effect of the protocol's step. */
  lemma {:induction false} WorkEnds(f: Fine) returns (run: seq<FineStep>)
    requires FineOk(f) && f.work.Some? && f.work.value.pass.Between?
    ensures FineRuns(f, run)
    ensures FineRun(f, run) == f.(base := Next(f.base, f.work.value.t, f.work.value.a), work := None)
    decreases |f.work.value.todo|
  {
    if f.work.value.todo == [] {
      ReleaseIsNext(f);
      FineFirst(f, Release, []);
      run := [Release] + [];
    } else {
      var g := FineNext(f, StoreMark);
      FineStepOk(f, StoreMark);
      var middle := [];
      if g.work.value.pass.Walking? { middle := PassEnds(g); }
      var rest := WorkEnds(FineRun(g, middle));
      FineThen(g, middle, rest);
      FineFirst(f, StoreMark, middle + rest);
      run := [StoreMark] + (middle + rest);
    }
  }

  /** Every protocol run can be carried out at the finer grain. */
  lemma {:induction false} RunsAreFineRuns(f: Fine, sched: Schedule) returns (run: seq<FineStep>)
    requires FineOk(f) && f.work.None? && Runs(f.base, sched)
    ensures FineRuns(f, run)
    ensures var f' := FineRun(f, run); FineOk(f') && f'.work.None? && f'.base == Run(f.base, sched)
    decreases |sched|
  {
    if sched == [] {
      run := [];
    } else {
      var (t, a) := sched[0];
      var first: seq<FineStep>;
      if Passes(f.base.threads[t].wpc, a) == [] {
        FineFirst(f, Plain(t, a), []);
        first := [Plain(t, a)] + [];
        FineStepOk(f, Plain(t, a));
      } else {
        FineStepOk(f, Begin(t, a));
        var rest := WorkEnds(FineNext(f, Begin(t, a)));
        FineFirst(f, Begin(t, a), rest);
        first := [Begin(t, a)] + rest;
        StepPreservesInv(f.base, t, a);
      }
      var last := RunsAreFineRuns(FineRun(f, first), sched[1..]);
      FineThen(f, first, last);
      run := first + last;
    }
  }
}
