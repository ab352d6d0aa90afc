/** `FunctionCC::operator()` (DLL/Function.h) on top of the reclamation protocol: any
    number of threads call through one shared handle while images are swapped,
    unloaded, retired and reclaimed.
 */
module FunctionCall {
  import opened Options
  import opened RcuDomain
  import opened RcuProtocol
  import opened RcuSafety
  import opened RcuStall

  type ImageId = nat

  datatype Entry = Entry(name: string, nameHash: nat, sig: nat, fnptr: nat)

  /** An image's export table; a module need not have one. */
  type Table = Option<seq<Entry>>

  /** What a resolved handle stands for: the function of this name and signature, at this index. */
  datatype Contract = Contract(name: string, nameHash: nat, sig: nat, index: nat)

  /** What the fast path checks of an entry: everything but the name. */
  predicate Plausible(t: Table, c: Contract) {
    && t.Some? && c.index < |t.value|
    && t.value[c.index].nameHash == c.nameHash && t.value[c.index].sig == c.sig && t.value[c.index].fnptr != 0
  }

  /** What the slow path checks: the name as well. */
  predicate Right(t: Table, c: Contract) {
    Plausible(t, c) && t.value[c.index].name == c.name
  }

  datatype CallPc =
    | Rest
    | FastEnter
    | FastLoaded(seen: Option<ImageId>)
    | FastCalling(image: ImageId)
    | FastExit
    | SlowState
    | SlowSnap
    | SlowEnter(snap: Option<ImageId>)
    | SlowLoaded(snap: Option<ImageId>, image: ImageId)
    | SlowStore(snap: Option<ImageId>, image: ImageId)
    | SlowCalling(image: ImageId)
    | SlowExit
    | Stranded(image: ImageId)   // the call has returned without leaving its section

  /** The control and the handle's recorded image; `tables` holds every image ever published. */
  datatype Library = Library(
    tables: map<ImageId, Table>,
    current: Option<ImageId>,
    active: bool,
    verified: Option<ImageId>)

  datatype World = World(rcu: State, lib: Library, calls: seq<CallPc>)

  /** The image and its index are retired separately but reached together. */
  function ObjsOf(i: ImageId): set<Obj> {
    {2 * i, 2 * i + 1}
  }

  function Linked(current: Option<ImageId>): set<Obj> {
    if current.Some? then ObjsOf(current.value) else {}
  }

  function Start(threads: nat): World {
    World(Init(threads), Library(map[], None, false, None), seq(threads, i => Rest))
  }

  datatype Move =
    | Call
    | CallAgain             // the next call of a thread that never left: its enter loads the epoch
    | Recover               // the thread ends, or leaves another section: its epoch is cleared
    | Enter(a: Step)        // register, load epoch, store epoch
    | FastLoad | FastCheck
    | Leave
    | CheckState | Snapshot
    | SlowLoad | SlowCheck | StoreVerified
    | Replace(image: Option<(ImageId, Table)>)
    | SetActive(on: bool)
    | Writer(a: Step)

  // ----- moves

  /** The step of the reclamation protocol a move performs, if any. */
  function RcuPart(lib: Library, m: Move): Option<Step> {
    match m
    case CallAgain => Some(Reenter)
    case Recover => Some(Exit)
    case Enter(a) => Some(a)
    case FastLoad => Some(LoadPointer(Linked(lib.current)))
    case SlowLoad => Some(LoadPointer(Linked(lib.current)))
    case Leave => Some(Exit)
    case Replace(image) => Some(Swap(Linked(lib.current), if image.Some? then ObjsOf(image.value.0) else {}))
    case Writer(a) => Some(a)
    case _ => None
  }

  predicate Allowed(lib: Library, pc: CallPc, m: Move) {
    match m
    case Call => pc == Rest
    case CallAgain => pc.Stranded?
    case Recover => pc.Stranded?
    case Enter(a) => a.Register? || ((a.LoadEpoch? || a.StoreEpoch?) && (pc.FastEnter? || pc.SlowEnter?))
    case FastLoad => pc.FastEnter?
    case FastCheck => pc.FastLoaded?
    case Leave => pc.FastCalling? || pc.FastExit? || pc.SlowCalling? || pc.SlowExit?
    case CheckState => pc.SlowState?
    case Snapshot => pc.SlowSnap?
    case SlowLoad => pc.SlowEnter?
    case SlowCheck => pc.SlowLoaded? && pc.image in lib.tables
    case StoreVerified => pc.SlowStore?
    case Replace(image) => image.Some? ==> image.value.0 !in lib.tables
    case SetActive(_) => true
    case Writer(a) => !IsReaderStep(a) && !a.Swap?
  }

  predicate CanMove(w: World, t: Tid, m: Move) {
    && t < |w.calls|
    && Allowed(w.lib, w.calls[t], m)
    && (RcuPart(w.lib, m).Some? ==> Enabled(w.rcu, t, RcuPart(w.lib, m).value))
  }

  /** The fast path's guard: the loaded image is the recorded one and its entry is plausible. */
  predicate FastHit(lib: Library, c: Contract, seen: Option<ImageId>) {
    seen.Some? && seen == lib.verified && seen.value in lib.tables && Plausible(lib.tables[seen.value], c)
  }

  /** Where the calling thread goes next. */
  function NextPc(lib: Library, c: Contract, pc: CallPc, m: Move): CallPc
    requires Allowed(lib, pc, m)
  {
    match m
    case Call => FastEnter
    case CallAgain => FastEnter
    case Recover => Rest
    case FastLoad => FastLoaded(lib.current)
    case FastCheck => if FastHit(lib, c, pc.seen) then FastCalling(pc.seen.value) else FastExit
    case Leave => if pc.FastExit? then SlowState else Rest
    case CheckState => if lib.active then SlowSnap else Rest
    case Snapshot => SlowEnter(lib.current)
    case SlowLoad => if lib.current.Some? then SlowLoaded(pc.snap, lib.current.value) else SlowExit
    case SlowCheck =>
      if lib.tables[pc.image] == None then Stranded(pc.image)
      else if Right(lib.tables[pc.image], c) then SlowStore(pc.snap, pc.image)
      else SlowExit
    case StoreVerified => SlowCalling(pc.image)
    case _ => pc
  }

  function NextLib(lib: Library, pc: CallPc, m: Move): Library
    requires Allowed(lib, pc, m)
  {
    match m
    case StoreVerified => lib.(verified := pc.snap)
    case Replace(None) => lib.(current := None)
    case Replace(Some((i, table))) => lib.(current := Some(i), tables := lib.tables[i := table])
    case SetActive(on) => lib.(active := on)
    case _ => lib
  }

  /** The state after a move, given what the protocol step made of its part. */
  function MovedTo(w: World, c: Contract, t: Tid, m: Move, rcu: State): World
    requires t < |w.calls| && Allowed(w.lib, w.calls[t], m)
  {
    World(rcu, NextLib(w.lib, w.calls[t], m), w.calls[t := NextPc(w.lib, c, w.calls[t], m)])
  }

  function Moved(w: World, c: Contract, t: Tid, m: Move): World
    requires CanMove(w, t, m)
  {
    MovedTo(w, c, t, m, if RcuPart(w.lib, m).Some? then Next(w.rcu, t, RcuPart(w.lib, m).value) else w.rcu)
  }

  // ----- runs

  type Run = seq<(Tid, Move)>

  predicate Runs(threads: nat, c: Contract, run: Run)
    decreases |run|, 0
  {
    run == [] ||
    var before, last := run[..|run| - 1], run[|run| - 1];
    Runs(threads, c, before) && CanMove(After(threads, c, before), last.0, last.1)
  }

  function After(threads: nat, c: Contract, run: Run): World
    requires Runs(threads, c, run)
    decreases |run|, 1
  {
    if run == [] then Start(threads)
    else Moved(After(threads, c, run[..|run| - 1]), c, run[|run| - 1].0, run[|run| - 1].1)
  }

  // ----- invariant

  predicate Holds(w: World, t: Tid, i: ImageId)
    requires t < |w.rcu.threads|
  {
    i in w.lib.tables && w.rcu.threads[t].rpc == Inside && ObjsOf(i) <= w.rcu.threads[t].held
  }

  /** A recorded snapshot is the image checked, or an image that is no longer current and never will be again. */
  predicate SnapOk(w: World, snap: Option<ImageId>, image: ImageId) {
    snap == None || (snap.value in w.lib.tables && (snap == Some(image) || snap != w.lib.current))
  }

  ghost predicate HasRight(w: World, c: Contract) {
    exists i :: i in w.lib.tables && Right(w.lib.tables[i], c)
  }

  lemma RightStays(w: World, c: Contract, t: Tid, m: Move, s': State)
    requires t < |w.calls| && Allowed(w.lib, w.calls[t], m) && HasRight(w, c)
    ensures HasRight(MovedTo(w, c, t, m, s'), c)
  {
    var i :| i in w.lib.tables && Right(w.lib.tables[i], c);
    assert i in MovedTo(w, c, t, m, s').lib.tables;
  }

  ghost predicate CallOk(w: World, c: Contract, t: Tid)
    requires t < |w.calls| && t < |w.rcu.threads|
  {
    match w.calls[t]
    case FastEnter => true
    case SlowEnter(snap) => snap.Some? ==> snap.value in w.lib.tables
    case FastLoaded(seen) => w.rcu.threads[t].rpc == Inside && (seen.Some? ==> Holds(w, t, seen.value))
    case FastCalling(i) => Holds(w, t, i) && Plausible(w.lib.tables[i], c) && HasRight(w, c)
    case SlowLoaded(snap, i) => Holds(w, t, i) && SnapOk(w, snap, i)
    case SlowStore(snap, i) => Holds(w, t, i) && SnapOk(w, snap, i) && Right(w.lib.tables[i], c)
    case SlowCalling(i) => Holds(w, t, i) && Right(w.lib.tables[i], c)
    case Stranded(i) => Holds(w, t, i) && w.lib.tables[i] == None
    case FastExit => w.rcu.threads[t].rpc == Inside
    case SlowExit => w.rcu.threads[t].rpc == Inside
    case Rest => w.rcu.threads[t].rpc == Outside
    case SlowState => w.rcu.threads[t].rpc == Outside
    case SlowSnap => w.rcu.threads[t].rpc == Outside
  }

  /** The recorded image passed the full check, or is no longer current and never will be again. */
  ghost predicate VerifiedOk(w: World, c: Contract) {
    w.lib.verified.Some? ==>
      HasRight(w, c) && w.lib.verified.value in w.lib.tables &&
        (Right(w.lib.tables[w.lib.verified.value], c) || w.lib.verified != w.lib.current)
  }

  ghost predicate SharedOk(w: World, c: Contract) {
    && Inv(w.rcu)
    && |w.calls| == |w.rcu.threads|
    && w.rcu.linked == Linked(w.lib.current)
    && (w.lib.current.Some? ==> w.lib.current.value in w.lib.tables)
    && (forall o :: o in w.rcu.known ==> o / 2 in w.lib.tables)
    && VerifiedOk(w, c)
  }

  ghost predicate WorldOk(w: World, c: Contract) {
    SharedOk(w, c) && forall t: Tid :: t < |w.calls| ==> CallOk(w, c, t)
  }

  predicate SameReader(s: State, s': State, u: Tid) {
    u < |s.threads| && u < |s'.threads| && s'.threads[u].rpc == s.threads[u].rpc &&
      s'.threads[u].held == s.threads[u].held
  }

  /** What the protocol step of a move does to reachability and to the readers. */
  ghost predicate Effect(w: World, t: Tid, m: Move, s': State)
    requires t < |w.rcu.threads|
  {
    var part := RcuPart(w.lib, m);
    && Inv(s') && |s'.threads| == |w.rcu.threads|
    && (forall u: Tid :: u < |w.rcu.threads| && u != t ==> SameReader(w.rcu, s', u))
    && (part == None ==> s' == w.rcu)
    && (part.Some? && !part.value.Swap? ==> s'.linked == w.rcu.linked && s'.known == w.rcu.known)
    && (part.Some? && part.value.Swap? ==>
          s'.linked == w.rcu.linked - part.value.gone + part.value.added && s'.known == w.rcu.known + part.value.added)
    && (part.Some? && (part.value.Register? || !IsReaderStep(part.value)) ==> SameReader(w.rcu, s', t))
    && (part.Some? && part.value.LoadPointer? ==>
          s'.threads[t].rpc == Inside && s'.threads[t].held == w.rcu.threads[t].held + part.value.objs)
    && (part.Some? && part.value.Exit? ==> s'.threads[t].rpc == Outside)
  }

  lemma RcuEffect(w: World, t: Tid, m: Move)
    requires Inv(w.rcu) && |w.calls| == |w.rcu.threads| && CanMove(w, t, m) && RcuPart(w.lib, m).Some?
    ensures Effect(w, t, m, Next(w.rcu, t, RcuPart(w.lib, m).value))
  {
    var a := RcuPart(w.lib, m).value;
    var s' := Next(w.rcu, t, a);
    StepPreservesInv(w.rcu, t, a);
    OnlySwapsRelink(w.rcu, t, a);
    forall u: Tid | u < |w.rcu.threads| && (u != t || a.Register? || !IsReaderStep(a))
      ensures SameReader(w.rcu, s', u)
    {
      if !IsReaderStep(a) { WritersLeaveReadersAlone(w.rcu, t, a, u); }
    }
  }

  lemma OthersOk(w: World, c: Contract, t: Tid, m: Move, s': State, u: Tid)
    requires WorldOk(w, c) && CanMove(w, t, m) && Effect(w, t, m, s') && u < |w.calls| && u != t
    ensures CallOk(MovedTo(w, c, t, m, s'), c, u)
  {
    assert CallOk(w, c, u) && SameReader(w.rcu, s', u);
    if HasRight(w, c) { RightStays(w, c, t, m, s'); }
  }

  lemma CallerOk(w: World, c: Contract, t: Tid, m: Move, s': State)
    requires WorldOk(w, c) && CanMove(w, t, m) && Effect(w, t, m, s')
    ensures CallOk(MovedTo(w, c, t, m, s'), c, t)
  {
    assert CallOk(w, c, t);
    if HasRight(w, c) { RightStays(w, c, t, m, s'); }
  }

  lemma SharedStaysOk(w: World, c: Contract, t: Tid, m: Move, s': State)
    requires WorldOk(w, c) && CanMove(w, t, m) && Effect(w, t, m, s')
    ensures SharedOk(MovedTo(w, c, t, m, s'), c)
  {
    VerifiedStaysOk(w, c, t, m, s');
    LinkedStaysOk(w, c, t, m, s');
  }

  lemma VerifiedStaysOk(w: World, c: Contract, t: Tid, m: Move, s': State)
    requires WorldOk(w, c) && CanMove(w, t, m) && Effect(w, t, m, s')
    ensures VerifiedOk(MovedTo(w, c, t, m, s'), c)
  {
    var w' := MovedTo(w, c, t, m, s');
    assert CallOk(w, c, t);
    if HasRight(w, c) { RightStays(w, c, t, m, s'); }
    if m.StoreVerified? {
      assert Right(w'.lib.tables[w.calls[t].image], c);
    }
  }

  lemma LinkedStaysOk(w: World, c: Contract, t: Tid, m: Move, s': State)
    requires WorldOk(w, c) && CanMove(w, t, m) && Effect(w, t, m, s')
    ensures var w' := MovedTo(w, c, t, m, s');
      && |w'.calls| == |s'.threads| && s'.linked == Linked(w'.lib.current)
      && (w'.lib.current.Some? ==> w'.lib.current.value in w'.lib.tables)
      && (forall o :: o in s'.known ==> o / 2 in w'.lib.tables)
  {
  }

  lemma MoveKeepsOk(w: World, c: Contract, t: Tid, m: Move)
    requires WorldOk(w, c) && CanMove(w, t, m)
    ensures WorldOk(Moved(w, c, t, m), c)
  {
    var s' := if RcuPart(w.lib, m).Some? then Next(w.rcu, t, RcuPart(w.lib, m).value) else w.rcu;
    if RcuPart(w.lib, m).Some? { RcuEffect(w, t, m); }
    SharedStaysOk(w, c, t, m, s');
    CallerOk(w, c, t, m, s');
    forall u: Tid | u < |w.calls| && u != t ensures CallOk(MovedTo(w, c, t, m, s'), c, u) {
      OthersOk(w, c, t, m, s', u);
    }
  }

  lemma {:induction false} RunsAreOk(threads: nat, c: Contract, run: Run)
    requires Runs(threads, c, run)
    ensures WorldOk(After(threads, c, run), c)
    decreases |run|
  {
    if run == [] {
      InitInv(threads);
    } else {
      RunsAreOk(threads, c, run[..|run| - 1]);
      MoveKeepsOk(After(threads, c, run[..|run| - 1]), c, run[|run| - 1].0, run[|run| - 1].1);
    }
  }

  // ----- main results

  /** What a thread that runs a native call can rely on: the entry at the handle's index of an image with a table, with
      the handle's hash and signature, a pointer and, when `named`, the handle's name. */
  ghost predicate Callable(t: Table, c: Contract, named: bool) {
    && t.Some? && c.index < |t.value|
    && var e := t.value[c.index];
    && e.nameHash == c.nameHash && e.sig == c.sig && e.fnptr > 0 && (named ==> e.name == c.name)
  }

  /** The image that thread `t` is calling is callable, and neither it nor its index has been reclaimed. */
  ghost predicate CallsSafely(w: World, c: Contract, t: Tid)
    requires t < |w.calls| && (w.calls[t].FastCalling? || w.calls[t].SlowCalling?)
  {
    var i := w.calls[t].image;
    && i in w.lib.tables && Callable(w.lib.tables[i], c, w.calls[t].SlowCalling?)
    && (forall n :: n in w.rcu.d.reclaimed ==> n.obj != 2 * i && n.obj != 2 * i + 1)
  }

  lemma CallingIsSafe(w: World, c: Contract, t: Tid)
    requires WorldOk(w, c) && t < |w.calls| && (w.calls[t].FastCalling? || w.calls[t].SlowCalling?)
    ensures CallsSafely(w, c, t)
  {
    var i := w.calls[t].image;
    assert CallOk(w, c, t) && ObjectsOk(w.rcu, t);
    assert 2 * i in ObjsOf(i) && 2 * i + 1 in ObjsOf(i);
  }

  /** A native call runs only while the image it targets, and that image's index, cannot have been
      reclaimed, and only at an entry whose hash and signature match and whose pointer is non-zero;
      on the slow path the name matches as well. */
  lemma NativeCallIsProtected(threads: nat, c: Contract, run: Run, t: Tid)
    requires Runs(threads, c, run) && t < |After(threads, c, run).calls|
    requires var pc := After(threads, c, run).calls[t]; pc.FastCalling? || pc.SlowCalling?
    ensures CallsSafely(After(threads, c, run), c, t)
  {
    RunsAreOk(threads, c, run);
    CallingIsSafe(After(threads, c, run), c, t);
  }

  /** The slow path accepts an image if and only if it has a table whose entry at the handle's index has the handle's
      hash, signature and name and a pointer.  Any other image with a table is refused, and the section is left. */
  lemma SlowCheckExactlyWhen(w: World, c: Contract, t: Tid)
    requires CanMove(w, t, SlowCheck)
    ensures var pc, pc' := w.calls[t], Moved(w, c, t, SlowCheck).calls[t];
      match w.lib.tables[pc.image]
      case None => pc' == Stranded(pc.image)
      case Some(entries) =>
        if |entries| <= c.index then pc' == SlowExit
        else
          var e := entries[c.index];
          if e.nameHash != c.nameHash || e.sig != c.sig || e.name != c.name || e.fnptr == 0 then pc' == SlowExit
          else pc' == SlowStore(pc.snap, pc.image)
  {
  }

  /** The fast path accepts the image it loaded if and only if it is the recorded one and its entry has the handle's
      hash and signature and a pointer; otherwise the section is left and the slow path decides. */
  lemma FastCheckExactlyWhen(w: World, c: Contract, t: Tid)
    requires CanMove(w, t, FastCheck)
    ensures var pc, pc' := w.calls[t], Moved(w, c, t, FastCheck).calls[t];
      if pc.seen == None || pc.seen != w.lib.verified || pc.seen.value !in w.lib.tables then pc' == FastExit
      else
        match w.lib.tables[pc.seen.value]
        case None => pc' == FastExit
        case Some(entries) =>
          if |entries| <= c.index then pc' == FastExit
          else
            var e := entries[c.index];
            if e.nameHash != c.nameHash || e.sig != c.sig || e.fnptr == 0 then pc' == FastExit
            else pc' == FastCalling(pc.seen.value)
  {
  }

  // ----- no call without a library

  /** The call can only come to its end without having called anything. */
  predicate Fruitless(pc: CallPc) {
    pc.Rest? || pc.FastEnter? || pc == FastLoaded(None) || pc.FastExit? || pc.SlowState? || pc.SlowSnap? ||
    pc.SlowEnter? || pc.SlowExit?
  }

  lemma FruitlessStep(w: World, c: Contract, u: Tid, m: Move, s': State, t: Tid)
    requires u < |w.calls| && Allowed(w.lib, w.calls[u], m) && w.lib.current == None
    requires m.Replace? ==> m.image == None
    requires t < |w.calls| && Fruitless(w.calls[t])
    ensures var w' := MovedTo(w, c, u, m, s'); w'.lib.current == None && Fruitless(w'.calls[t])
  {
  }

  /** A call that begins when the image is gone, and while no other is published, calls nothing. */
  lemma {:induction false} UnloadedIsNeverCalled(threads: nat, c: Contract, before: Run, run: Run, t: Tid)
    requires Runs(threads, c, before) && Runs(threads, c, run) && before <= run
    requires After(threads, c, before).lib.current == None
    requires t < |After(threads, c, before).calls| && After(threads, c, before).calls[t] == Rest
    requires forall i :: |before| <= i < |run| && run[i].1.Replace? ==> run[i].1.image == None
    ensures After(threads, c, run).lib.current == None
    ensures t < |After(threads, c, run).calls| && Fruitless(After(threads, c, run).calls[t])
    decreases |run|
  {
    if |run| == |before| {
      assert run == before;
    } else {
      var n := |run| - 1;
      assert before <= run[..n];
      UnloadedIsNeverCalled(threads, c, before, run[..n], t);
      assert run[n].1.Replace? ==> run[n].1.image == None;
      var w := After(threads, c, run[..n]);
      FruitlessStep(w, c, run[n].0, run[n].1, After(threads, c, run).rcu, t);
    }
  }

  /** While the library has never been active, no slow path gets past its first check and nothing is ever recorded for
      the fast path, whatever images are there. */
  lemma {:induction false} InactiveIsNeverCalled(threads: nat, c: Contract, run: Run, t: Tid)
    requires Runs(threads, c, run) && t < |After(threads, c, run).calls|
    requires forall i :: 0 <= i < |run| ==> run[i].1 != SetActive(true)
    ensures var w := After(threads, c, run);
      && !w.lib.active && w.lib.verified == None
      && var pc := w.calls[t]; pc.Rest? || pc.FastEnter? || pc.FastLoaded? || pc.FastExit? || pc.SlowState?
    decreases |run|
  {
    if run != [] {
      var n := |run| - 1;
      assert |After(threads, c, run[..n]).calls| == |After(threads, c, run).calls|;
      InactiveIsNeverCalled(threads, c, run[..n], t);
      if run[n].0 != t { InactiveIsNeverCalled(threads, c, run[..n], run[n].0); }
      assert run[n].1 != SetActive(true);
    }
  }

  /** A thread is outside its section between calls, also after a call that followed a stranded one; a stranded
      thread is inside, with an image that has no table. */
  lemma CallsLeaveTheirSection(threads: nat, c: Contract, run: Run, t: Tid)
    requires Runs(threads, c, run) && t < |After(threads, c, run).calls|
    ensures var w := After(threads, c, run);
      && |w.rcu.threads| == |w.calls|
      && (w.calls[t] == Rest ==> w.rcu.threads[t].rpc == Outside)
      && (w.calls[t].Stranded? ==>
            w.rcu.threads[t].rpc == Inside && w.calls[t].image in w.lib.tables &&
              w.lib.tables[w.calls[t].image] == None)
  {
    RunsAreOk(threads, c, run);
    assert CallOk(After(threads, c, run), c, t);
  }

  // ----- when can the fast path call an entry of the wrong name?

  /** Every image published in the run has its table in `pool`. */
  ghost predicate Draws(run: Run, pool: set<Table>) {
    forall i :: 0 <= i < |run| && run[i].1.Replace? && run[i].1.image.Some? ==> run[i].1.image.value.1 in pool
  }

  ghost predicate WrongCall(w: World, c: Contract, t: Tid) {
    t < |w.calls| && w.calls[t].FastCalling? && w.calls[t].image in w.lib.tables &&
      !Right(w.lib.tables[w.calls[t].image], c)
  }

  lemma {:induction false} TablesAreDrawn(threads: nat, c: Contract, run: Run, pool: set<Table>, i: ImageId)
    requires Runs(threads, c, run) && Draws(run, pool) && i in After(threads, c, run).lib.tables
    ensures After(threads, c, run).lib.tables[i] in pool
    decreases |run|
  {
    if run != [] {
      var before, last := run[..|run| - 1], run[|run| - 1];
      forall k | 0 <= k < |before| && before[k].1.Replace? && before[k].1.image.Some?
        ensures before[k].1.image.value.1 in pool
      {
        assert before[k] == run[k];
      }
      if i in After(threads, c, before).lib.tables { TablesAreDrawn(threads, c, before, pool, i); }
    }
  }

  /** Whoever reaches a wrong call has published both a table that only looks right and one that is right. */
  lemma WrongCallNeedsBoth(threads: nat, c: Contract, run: Run, pool: set<Table>, t: Tid)
    requires Runs(threads, c, run) && Draws(run, pool) && WrongCall(After(threads, c, run), c, t)
    ensures exists look :: look in pool && Plausible(look, c) && !Right(look, c)
    ensures exists good :: good in pool && Right(good, c)
  {
    var w := After(threads, c, run);
    RunsAreOk(threads, c, run);
    assert CallOk(w, c, t);
    TablesAreDrawn(threads, c, run, pool, w.calls[t].image);
    var i :| i in w.lib.tables && Right(w.lib.tables[i], c);
    TablesAreDrawn(threads, c, run, pool, i);
  }

  // A wrong call is built on sketches: what matters of a world with two threads.

  /** `listed` says who is registered; `at` is 0 outside the section, 1 with the epoch loaded, 2 inside. */
  datatype Sketch = Sketch(lib: Library, calls: seq<CallPc>, listed: seq<bool>, at: seq<nat>)

  predicate Stage(rpc: ReaderPc, at: nat) {
    (at == 0 ==> rpc == Outside) && (at == 1 ==> rpc.Loaded?) && (at == 2 ==> rpc == Inside)
  }

  predicate Looks(w: World, k: Sketch) {
    && w.lib == k.lib && w.calls == k.calls
    && |k.calls| == |k.listed| == |k.at| == |w.rcu.threads| == 2
    && w.rcu.linked == Linked(k.lib.current) && (forall o :: o in w.rcu.known ==> o / 2 in k.lib.tables)
    && (0 in w.rcu.list <==> k.listed[0]) && (1 in w.rcu.list <==> k.listed[1])
    && Stage(w.rcu.threads[0].rpc, k.at[0]) && Stage(w.rcu.threads[1].rpc, k.at[1])
  }

  /** The section stage a move needs, and the one it leads to. */
  predicate Legal(k: Sketch, t: Tid, m: Move) {
    && t < |k.calls| == |k.listed| == |k.at| == 2
    && Allowed(k.lib, k.calls[t], m)
    && !m.Writer? && !m.CallAgain? && !m.Recover?
    && (m == Enter(Register) ==> !k.listed[t] && k.at[t] == 0)
    && (m == Enter(LoadEpoch) ==> k.listed[t] && k.at[t] == 0)
    && (m == Enter(StoreEpoch) ==> k.at[t] == 1)
    && (m.FastLoad? || m.SlowLoad? || m.Leave? ==> k.at[t] == 2)
  }

  function SketchNext(k: Sketch, c: Contract, t: Tid, m: Move): Sketch
    requires Legal(k, t, m)
  {
    Sketch(
      NextLib(k.lib, k.calls[t], m),
      k.calls[t := NextPc(k.lib, c, k.calls[t], m)],
      if m == Enter(Register) then k.listed[t := true] else k.listed,
      if m == Enter(LoadEpoch) then k.at[t := 1]
      else if m == Enter(StoreEpoch) then k.at[t := 2]
      else if m.Leave? then k.at[t := 0]
      else k.at)
  }

  lemma SketchEnabled(w: World, k: Sketch, t: Tid, m: Move)
    requires Looks(w, k) && Legal(k, t, m)
    ensures CanMove(w, t, m)
  {
  }

  lemma SketchFollows(w: World, k: Sketch, c: Contract, t: Tid, m: Move)
    requires Looks(w, k) && Legal(k, t, m) && CanMove(w, t, m)
    ensures Looks(Moved(w, c, t, m), SketchNext(k, c, t, m))
  {
    if RcuPart(w.lib, m).Some? {
      var a := RcuPart(w.lib, m).value;
      if m.Replace? {
        assert Next(w.rcu, t, a) == RetireStep(w.rcu, t, a);
      } else {
        assert Next(w.rcu, t, a) == ReaderStep(w.rcu, t, a);
      }
    }
  }

  /** A sequence of sketches, each following from the one before. */
  predicate Path(ks: seq<Sketch>, c: Contract, run: Run) {
    && |ks| == |run| + 1
    && (forall i :: 0 <= i < |run| ==>
      Legal(ks[i], run[i].0, run[i].1) && ks[i + 1] == SketchNext(ks[i], c, run[i].0, run[i].1))
  }

  /** Every path of sketches from the start is a run. */
  lemma {:induction false} PathRuns(ks: seq<Sketch>, c: Contract, run: Run)
    requires Path(ks, c, run) && Looks(Start(2), ks[0])
    ensures Runs(2, c, run) && Looks(After(2, c, run), ks[|run|])
  {
    if run != [] {
      var n := |run| - 1;
      PathRuns(ks[..n + 1], c, run[..n]);
      var w := After(2, c, run[..n]);
      SketchEnabled(w, ks[n], run[n].0, run[n].1);
      SketchFollows(w, ks[n], c, run[n].0, run[n].1);
    }
  }

  const NOTHING := Sketch(Library(map[], None, false, None), [Rest, Rest], [false, false], [0, 0])

  /** Some run that publishes only tables of `pool` leads to this sketch. */
  ghost predicate Arrives(k: Sketch, c: Contract, pool: set<Table>) {
    exists ks, run :: Path(ks, c, run) && ks[0] == NOTHING && ks[|run|] == k && Draws(run, pool)
  }

  lemma Arrive(k: Sketch, c: Contract, pool: set<Table>, t: Tid, m: Move, k': Sketch)
    requires Arrives(k, c, pool) && Legal(k, t, m) && k' == SketchNext(k, c, t, m)
    requires m.Replace? && m.image.Some? ==> m.image.value.1 in pool
    ensures Arrives(k', c, pool)
  {
    var ks, run :| Path(ks, c, run) && ks[0] == NOTHING && ks[|run|] == k && Draws(run, pool);
    var longer, more := ks + [k'], run + [(t, m)];
    forall i | 0 <= i < |more|
      ensures Legal(longer[i], more[i].0, more[i].1) && longer[i + 1] == SketchNext(longer[i], c, more[i].0, more[i].1)
    {
      if i < |run| { assert more[i] == run[i] && longer[i] == ks[i] && longer[i + 1] == ks[i + 1]; }
    }
    assert Path(longer, c, more) && longer[|more|] == k';
  }

  /** And that run ends in a world with these calls and this library. */
  lemma ArrivalRuns(k: Sketch, c: Contract, pool: set<Table>) returns (run: Run)
    requires Arrives(k, c, pool)
    ensures Runs(2, c, run) && Draws(run, pool)
    ensures After(2, c, run).calls == k.calls && After(2, c, run).lib == k.lib
  {
    var ks;
    ks, run :| Path(ks, c, run) && ks[0] == NOTHING && ks[|run|] == k && Draws(run, pool);
    PathRuns(ks, c, run);
  }

  /** Both threads registered, image 0 current, thread `t` at `pc` and section stage `at`. */
  function Solo(lib: Library, t: Tid, pc: CallPc, at: nat, other: CallPc, otherAt: nat): Sketch {
    if t == 0 then Sketch(lib, [pc, other], [true, true], [at, otherAt])
    else Sketch(lib, [other, pc], [true, true], [otherAt, at])
  }

  lemma Begin(c: Contract, pool: set<Table>, look: Table)
    requires look in pool
    ensures Arrives(Solo(Library(map[0 := look], Some(0), true, None), 1, Rest, 0, Rest, 0), c, pool)
  {
    assert Path([NOTHING], c, []);
    assert Draws([], pool) && [NOTHING][0] == NOTHING;
    var k1 := NOTHING.(lib := Library(map[0 := look], Some(0), false, None));
    Arrive(NOTHING, c, pool, 0, Replace(Some((0, look))), k1);
    var k2 := k1.(lib := Library(map[0 := look], Some(0), true, None));
    Arrive(k1, c, pool, 0, SetActive(true), k2);
    var k3 := k2.(listed := [true, false]);
    Arrive(k2, c, pool, 0, Enter(Register), k3);
    Arrive(k3, c, pool, 1, Enter(Register), k3.(listed := [true, true]));
  }

  /** A call enters its section and loads the current image. */
  lemma LoadsImage(c: Contract, pool: set<Table>, lib: Library, t: Tid, other: CallPc, otherAt: nat)
    requires t < 2 && Arrives(Solo(lib, t, Rest, 0, other, otherAt), c, pool)
    ensures Arrives(Solo(lib, t, FastLoaded(lib.current), 2, other, otherAt), c, pool)
  {
    Arrive(Solo(lib, t, Rest, 0, other, otherAt), c, pool, t, Call, Solo(lib, t, FastEnter, 0, other, otherAt));
    EntersSection(c, pool, lib, t, FastEnter, other, otherAt);
    Arrive(Solo(lib, t, FastEnter, 2, other, otherAt), c, pool, t, FastLoad,
      Solo(lib, t, FastLoaded(lib.current), 2, other, otherAt));
  }

  lemma EntersSection(c: Contract, pool: set<Table>, lib: Library, t: Tid, pc: CallPc, other: CallPc, otherAt: nat)
    requires t < 2 && (pc.FastEnter? || pc.SlowEnter?) && Arrives(Solo(lib, t, pc, 0, other, otherAt), c, pool)
    ensures Arrives(Solo(lib, t, pc, 2, other, otherAt), c, pool)
  {
    Arrive(Solo(lib, t, pc, 0, other, otherAt), c, pool, t, Enter(LoadEpoch), Solo(lib, t, pc, 1, other, otherAt));
    Arrive(Solo(lib, t, pc, 1, other, otherAt), c, pool, t, Enter(StoreEpoch), Solo(lib, t, pc, 2, other, otherAt));
  }

  /** Thread 1 misses the fast path. */
  lemma MissesFastPath(c: Contract, pool: set<Table>, lib: Library)
    requires lib.active && lib.verified == None && Arrives(Solo(lib, 1, Rest, 0, Rest, 0), c, pool)
    ensures Arrives(Solo(lib, 1, FastExit, 2, Rest, 0), c, pool)
  {
    LoadsImage(c, pool, lib, 1, Rest, 0);
    Arrive(Solo(lib, 1, FastLoaded(lib.current), 2, Rest, 0), c, pool, 1, FastCheck,
      Solo(lib, 1, FastExit, 2, Rest, 0));
  }

  /** Then it takes the slow path up to its snapshot of the current image. */
  lemma TakesSnapshot(c: Contract, pool: set<Table>, lib: Library)
    requires lib.active && lib.verified == None && Arrives(Solo(lib, 1, Rest, 0, Rest, 0), c, pool)
    ensures Arrives(Solo(lib, 1, SlowEnter(lib.current), 0, Rest, 0), c, pool)
  {
    MissesFastPath(c, pool, lib);
    Arrive(Solo(lib, 1, FastExit, 2, Rest, 0), c, pool, 1, Leave, Solo(lib, 1, SlowState, 0, Rest, 0));
    Arrive(Solo(lib, 1, SlowState, 0, Rest, 0), c, pool, 1, CheckState, Solo(lib, 1, SlowSnap, 0, Rest, 0));
    Arrive(Solo(lib, 1, SlowSnap, 0, Rest, 0), c, pool, 1, Snapshot, Solo(lib, 1, SlowEnter(lib.current), 0, Rest, 0));
  }

  /** Thread 1 validates the image that is current now and records the snapshot it took before. */
  lemma RecordsSnapshot(c: Contract, pool: set<Table>, lib: Library, snap: ImageId, other: CallPc)
    requires lib.current.Some? && lib.current.value in lib.tables && Right(lib.tables[lib.current.value], c)
    requires Arrives(Solo(lib, 1, SlowEnter(Some(snap)), 0, other, 2), c, pool)
    ensures Arrives(Solo(lib.(verified := Some(snap)), 1, SlowCalling(lib.current.value), 2, other, 2), c, pool)
  {
    var i := lib.current.value;
    EntersSection(c, pool, lib, 1, SlowEnter(Some(snap)), other, 2);
    Arrive(Solo(lib, 1, SlowEnter(Some(snap)), 2, other, 2), c, pool, 1, SlowLoad,
      Solo(lib, 1, SlowLoaded(Some(snap), i), 2, other, 2));
    Arrive(Solo(lib, 1, SlowLoaded(Some(snap), i), 2, other, 2), c, pool, 1, SlowCheck,
      Solo(lib, 1, SlowStore(Some(snap), i), 2, other, 2));
    Arrive(Solo(lib, 1, SlowStore(Some(snap), i), 2, other, 2), c, pool, 1, StoreVerified,
           Solo(lib.(verified := Some(snap)), 1, SlowCalling(i), 2, other, 2));
  }

  /** Conversely, from any such pair of tables two threads can reach a wrong call: one loads the image
      that only looks right, the other has taken its snapshot but validates the image swapped in since. */
  lemma WrongCallPossible(c: Contract, pool: set<Table>, look: Table, good: Table)
    requires look in pool && Plausible(look, c) && !Right(look, c)
    requires good in pool && Right(good, c)
    ensures exists run :: Runs(2, c, run) && Draws(run, pool) && WrongCall(After(2, c, run), c, 0)
  {
    var lib := Library(map[0 := look], Some(0), true, None);
    var lib' := Library(map[0 := look, 1 := good], Some(1), true, None);
    var snap, loaded := SlowEnter(Some(0)), FastLoaded(Some(0));
    Begin(c, pool, look);
    TakesSnapshot(c, pool, lib);
    assert Solo(lib, 1, snap, 0, Rest, 0) == Solo(lib, 0, Rest, 0, snap, 0);
    LoadsImage(c, pool, lib, 0, snap, 0);
    assert Solo(lib, 0, loaded, 2, snap, 0) == Solo(lib, 1, snap, 0, loaded, 2);
    Arrive(Solo(lib, 1, snap, 0, loaded, 2), c, pool, 1, Replace(Some((1, good))), Solo(lib', 1, snap, 0, loaded, 2));
    RecordsSnapshot(c, pool, lib', 0, loaded);
    var lib'' := lib'.(verified := Some(0));
    var k := Solo(lib'', 1, SlowCalling(1), 2, FastCalling(0), 2);
    Arrive(Solo(lib'', 1, SlowCalling(1), 2, loaded, 2), c, pool, 0, FastCheck, k);
    var run := ArrivalRuns(k, c, pool);
  }

  /** A table that only looks right, and one that is right. */
  ghost predicate HasBoth(c: Contract, pool: set<Table>) {
    && (exists look :: look in pool && Plausible(look, c) && !Right(look, c))
    && (exists good :: good in pool && Right(good, c))
  }

  /** The exact condition: some run over `pool` makes the fast path call an entry of the wrong name if and
      only if `pool` has a table that is right and one that only looks right. */
  lemma WrongCallExactlyWhen(c: Contract, pool: set<Table>)
    ensures (exists threads: nat, run: Run, t: Tid ::
               Runs(threads, c, run) && Draws(run, pool) && WrongCall(After(threads, c, run), c, t))
      <==> HasBoth(c, pool)
  {
    if threads: nat, run: Run, t: Tid :|
      Runs(threads, c, run) && Draws(run, pool) && WrongCall(After(threads, c, run), c, t)
    {
      WrongCallNeedsBoth(threads, c, run, pool, t);
    }
    if HasBoth(c, pool) {
      var look :| look in pool && Plausible(look, c) && !Right(look, c);
      var good :| good in pool && Right(good, c);
      WrongCallPossible(c, pool, look, good);
    }
  }

  // ----- when can a call return without leaving its section?

  ghost predicate Strands(w: World, t: Tid) { t < |w.calls| && w.calls[t].Stranded? }

  lemma StrandingNeedsBareImage(threads: nat, c: Contract, run: Run, pool: set<Table>, t: Tid)
    requires Runs(threads, c, run) && Draws(run, pool) && Strands(After(threads, c, run), t)
    ensures None in pool
  {
    var w := After(threads, c, run);
    RunsAreOk(threads, c, run);
    assert CallOk(w, c, t);
    TablesAreDrawn(threads, c, run, pool, w.calls[t].image);
  }

  /** Every call that meets an image without a table on its slow path is stranded. */
  lemma StrandingPossible(c: Contract, pool: set<Table>)
    requires None in pool
    ensures exists run :: Runs(2, c, run) && Draws(run, pool) && Strands(After(2, c, run), 1)
  {
    var lib := Library(map[0 := None], Some(0), true, None);
    var snap := SlowEnter(Some(0));
    Begin(c, pool, None);
    TakesSnapshot(c, pool, lib);
    EntersSection(c, pool, lib, 1, snap, Rest, 0);
    var k, k' := Solo(lib, 1, SlowLoaded(Some(0), 0), 2, Rest, 0), Solo(lib, 1, Stranded(0), 2, Rest, 0);
    Arrive(Solo(lib, 1, snap, 2, Rest, 0), c, pool, 1, SlowLoad, k);
    Arrive(k, c, pool, 1, SlowCheck, k');
    var run := ArrivalRuns(k', c, pool);
  }

  /** The exact condition: some run over `pool` makes a call return from inside its section if and only if `pool` has an
      image without a table. */
  lemma StrandingExactlyWhen(c: Contract, pool: set<Table>)
    ensures (exists threads: nat, run: Run, t: Tid ::
               Runs(threads, c, run) && Draws(run, pool) && Strands(After(threads, c, run), t))
      <==> None in pool
  {
    if threads: nat, run: Run, t: Tid :|
      Runs(threads, c, run) && Draws(run, pool) && Strands(After(threads, c, run), t)
    {
      StrandingNeedsBareImage(threads, c, run, pool, t);
    }
    if None in pool { StrandingPossible(c, pool); }
  }

  /** The thread enters a section again, or its epoch is cleared. */
  ghost predicate Resumes(move: (Tid, Move), t: Tid) { move.0 == t && (move.1.CallAgain? || move.1.Recover?) }

  /** Any other move leaves the thread stranded, and its grace periods open. */
  lemma StrandedStays(w: World, c: Contract, u: Tid, m: Move, t: Tid, limit: nat)
    requires WorldOk(w, c) && CanMove(w, u, m) && Strands(w, t) && Stalls(w.rcu, t, limit) && !Resumes((u, m), t)
    ensures Strands(Moved(w, c, u, m), t) && Stalls(Moved(w, c, u, m).rcu, t, limit)
  {
    if RcuPart(w.lib, m).Some? { StallStep(w.rcu, u, RcuPart(w.lib, m).value, t, limit); }
  }

  /** Until its next section or its end, a stranded thread keeps every later grace period from being proven: no
      watermark reaches the epoch at which it was stranded, whatever the others do. */
  lemma {:induction false} StrandedCallerStalls(threads: nat, c: Contract, before: Run, run: Run, t: Tid)
    requires Runs(threads, c, before) && Runs(threads, c, run) && before <= run && Strands(After(threads, c, before), t)
    requires forall i :: |before| <= i < |run| ==> !Resumes(run[i], t)
    ensures Strands(After(threads, c, run), t)
    ensures Stalls(After(threads, c, run).rcu, t, After(threads, c, before).rcu.d.global)
    decreases |run|
  {
    if |run| == |before| {
      assert run == before;
      RunsAreOk(threads, c, run);
      assert CallOk(After(threads, c, run), c, t);
      StallBegins(After(threads, c, run).rcu, t);
    } else {
      var n := |run| - 1;
      assert before <= run[..n];
      StrandedCallerStalls(threads, c, before, run[..n], t);
      RunsAreOk(threads, c, run[..n]);
      assert !Resumes(run[n], t);
      StrandedStays(After(threads, c, run[..n]), c, run[n].0, run[n].1, t, After(threads, c, before).rcu.d.global);
    }
  }

  // ----- a handle called by one thread at a time never calls a wrong entry

  ghost predicate OneCaller(run: Run, who: Tid) {
    forall i :: 0 <= i < |run| && run[i].1.Call? ==> run[i].0 == who
  }

  /** Nobody else is in a call, and what `who` has loaded and would accept has passed the full check. */
  ghost predicate AloneOk(w: World, c: Contract, who: Tid) {
    && (forall t: Tid :: t < |w.calls| && t != who ==> w.calls[t] == Rest)
    && (who < |w.calls| ==>
          match w.calls[who]
          case FastLoaded(seen) =>
            seen.Some? && seen == w.lib.verified && seen.value in w.lib.tables ==> Right(w.lib.tables[seen.value], c)
          case FastCalling(i) => i in w.lib.tables && Right(w.lib.tables[i], c)
          case _ => true)
  }

  lemma {:induction false} OneCallerIsAlwaysRight(threads: nat, c: Contract, run: Run, who: Tid)
    requires Runs(threads, c, run) && OneCaller(run, who)
    ensures AloneOk(After(threads, c, run), c, who)
    ensures forall t: Tid :: !WrongCall(After(threads, c, run), c, t)
    decreases |run|
  {
    if run != [] {
      var before, last := run[..|run| - 1], run[|run| - 1];
      assert OneCaller(before, who) by { assert forall i :: 0 <= i < |before| ==> before[i] == run[i]; }
      OneCallerIsAlwaysRight(threads, c, before, who);
      RunsAreOk(threads, c, before);
      assert last.1.Call? ==> last.0 == who;
      MoveKeepsAlone(After(threads, c, before), c, last.0, last.1, who);
    }
  }

  lemma MoveKeepsAlone(w: World, c: Contract, t: Tid, m: Move, who: Tid)
    requires WorldOk(w, c) && CanMove(w, t, m) && AloneOk(w, c, who) && (m.Call? ==> t == who)
    ensures AloneOk(Moved(w, c, t, m), c, who)
  {
    assert CallOk(w, c, t);
    if who < |w.calls| { assert CallOk(w, c, who); }
  }
}
