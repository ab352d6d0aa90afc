/** `rcu::Domain` as an interleaved step system.

    Every shared load and store of the reader path is a step of its own, every
    writer-lock section is one step, and the lock-free reader scan takes one step
    per registered thread.  The reader half and the writer half of a thread
    interleave freely, so the runs of this system include those of the program.
 */
module RcuProtocol {
  import opened RcuDomain

  type Tid = nat

  // ----- state

  /** `Loaded(e)`: `enter` has read the global epoch but has not yet published it; an epoch published before
      is still there if the thread never left its section. */
  datatype ReaderPc = Outside | Loaded(epoch: nat) | Inside

  datatype Call = Sync(eager: bool) | Until

  /** `Polling`: owns the advancement, about to (re)load the thread list.
      `Scanning`: the part of the loaded list that is still to be examined. */
  datatype WriterPc =
    | Idle
    | Retiring(obj: Obj, cls: ReclaimClass, tag: nat)
    | MustPublish
    | Spinning
    | Contending
    | Polling(call: Call, prior: nat, polled: bool)
    | Scanning(call: Call, prior: nat, todo: seq<Tid>)
    | Proven(call: Call, prior: nat)
    | TryStart(cur: nat)
    | TryScan(cur: nat, min: nat, todo: seq<Tid>)

  /** What the last `synchronize_until` of this thread returned. */
  datatype UntilResult = NoCall | ReturnedTrue(prior: nat) | ReturnedFalse

  datatype Thread = Thread(
    rpc: ReaderPc,
    epoch: nat,
    held: set<Obj>,
    wpc: WriterPc,
    pending: set<Obj>,
    batch: seq<Node>,
    result: UntilResult)

  /** `list` is the thread list, newest first.  `linked` are the objects a reader
      can still reach, `known` all objects ever linked.  `tags` records the epoch
      each retirement loaded, `ever` every node ever queued. */
  datatype State = State(
    d: Shared,
    list: seq<Tid>,
    threads: seq<Thread>,
    linked: set<Obj>,
    known: set<Obj>,
    tags: map<Obj, nat>,
    ever: seq<Node>)

  const FRESH := Thread(Outside, 0, {}, Idle, {}, [], NoCall)

  function Init(n: nat): State {
    State(INITIAL, [], seq(n, i => FRESH), {}, {}, map[], [])
  }

  // ----- steps

  datatype Step =
    | Register                              // get_thread on first use
    | LoadEpoch | StoreEpoch                // enter
    | Reenter                               // the load of an enter by a thread that never left; its pointers are dead
    | LoadPointer(objs: set<Obj>)           // follow a shared pointer inside the section
    | Exit
    | Swap(gone: set<Obj>, added: set<Obj>) // unlink and link in one exchange
    | RetireLoad(obj: Obj, cls: ReclaimClass)
    | RetireAppend | RetireFail
    | PublishBatch
    | SyncEnter(eager: bool) | SpinEnd
    | UntilEnter | UntilGiveUp
    | ScanStart | ScanThread | ScanExpire
    | Finish
    | TryEnter | TryScanStart | TryScanThread | TryFinish

  predicate Enabled(s: State, t: Tid, a: Step) {
    t < |s.threads| &&
    var th := s.threads[t];
    match a
    case Register => t !in s.list && th.rpc == Outside
    case LoadEpoch => t in s.list && th.rpc == Outside
    case StoreEpoch => th.rpc.Loaded?
    case Reenter => th.rpc == Inside
    case LoadPointer(objs) => th.rpc == Inside && objs <= s.linked
    case Exit => th.rpc == Inside
    case Swap(gone, added) => gone <= s.linked && added !! s.known
    case RetireLoad(obj, _) => th.wpc == Idle && obj in th.pending
    case RetireAppend => th.wpc.Retiring?
    case RetireFail => th.wpc.Retiring?
    case PublishBatch => th.wpc == MustPublish
    case SyncEnter(_) => th.wpc == Idle
    case SpinEnd => th.wpc == Spinning && s.d.sync == 0
    case UntilEnter => th.wpc == Idle || th.wpc == Contending
    case UntilGiveUp => th.wpc == Contending
    case ScanStart => th.wpc.Polling?
    case ScanThread => th.wpc.Scanning?
    case ScanExpire => th.wpc.Polling? && th.wpc.call == Until && th.wpc.polled
    case Finish => th.wpc.Proven?
    case TryEnter => th.wpc == Idle
    case TryScanStart => th.wpc.TryStart?
    case TryScanThread => th.wpc.TryScan? && th.wpc.todo != []
    case TryFinish => th.wpc.TryScan? && th.wpc.todo == []
  }

  function Put(s: State, t: Tid, th: Thread): State
    requires t < |s.threads|
  {
    s.(threads := s.threads[t := th])
  }

  function Published(s: State, r: Tid): nat {
    if r < |s.threads| then s.threads[r].epoch else 0
  }

  predicate IsReaderStep(a: Step) {
    a.Register? || a.LoadEpoch? || a.StoreEpoch? || a.Reenter? || a.LoadPointer? || a.Exit?
  }

  function ReaderStep(s: State, t: Tid, a: Step): State
    requires Enabled(s, t, a) && IsReaderStep(a)
  {
    var th := s.threads[t];
    match a
    case Register => s.(list := [t] + s.list)
    case LoadEpoch => Put(s, t, th.(rpc := Loaded(s.d.global)))
    case StoreEpoch => Put(s, t, th.(rpc := Inside, epoch := th.rpc.epoch))
    case Reenter => Put(s, t, th.(rpc := Loaded(s.d.global), held := {}))
    case LoadPointer(objs) => Put(s, t, th.(held := th.held + objs))
    case Exit => Put(s, t, th.(rpc := Outside, epoch := 0, held := {}))
  }

  predicate IsRetireStep(a: Step) {
    a.Swap? || a.RetireLoad? || a.RetireAppend? || a.RetireFail? || a.PublishBatch?
  }

  function RetireStep(s: State, t: Tid, a: Step): State
    requires Enabled(s, t, a) && IsRetireStep(a)
  {
    var th := s.threads[t];
    match a
    case Swap(gone, added) =>
      Put(s, t, th.(pending := th.pending + gone)).(linked := s.linked - gone + added, known := s.known + added)
    case RetireLoad(obj, cls) =>
      Put(s, t, th.(pending := th.pending - {obj}, wpc := Retiring(obj, cls, s.d.global)))
        .(tags := s.tags[obj := s.d.global])
    case RetireAppend =>
      var n := Node(th.wpc.obj, th.wpc.tag, th.wpc.cls);
      Put(s, t, th.(batch := th.batch + [n],
                    wpc := if |th.batch| + 1 >= BATCH_PUBLISH then MustPublish else Idle))
        .(ever := s.ever + [n])
    case RetireFail => Put(s, t, th.(wpc := Idle))
    case PublishBatch => Put(s, t, th.(batch := [], wpc := Idle)).(d := Publish(s.d, th.batch))
  }

  predicate IsEnterStep(a: Step) {
    a.SyncEnter? || a.SpinEnd? || a.UntilEnter? || a.UntilGiveUp? || a.TryEnter?
  }

  function EnterStep(s: State, t: Tid, a: Step): State
    requires Enabled(s, t, a) && IsEnterStep(a)
  {
    var th := s.threads[t];
    match a
    case SyncEnter(eager) =>
      var pc := match StartOutcome(Publish(s.d, th.batch), eager)
        case Contended => Spinning
        case NotDue => Idle
        case Advanced(prior) => Polling(Sync(eager), prior, false);
      Put(s, t, th.(batch := [], wpc := pc)).(d := SyncBegin(s.d, th.batch, eager))
    case SpinEnd => Put(s, t, th.(wpc := Idle))
    case UntilEnter =>
      var pc := if s.d.sync != 0 then Contending else Polling(Until, s.d.global, false);
      Put(s, t, th.(batch := [], wpc := pc, result := NoCall)).(d := BeginAdvance(s.d, th.batch))
    case UntilGiveUp => Put(s, t, th.(wpc := Idle, result := ReturnedFalse))
    case TryEnter => Put(s, t, th.(batch := [], wpc := TryStart(s.d.global))).(d := Publish(s.d, th.batch))
  }

  predicate IsScanStep(a: Step) {
    a.ScanStart? || a.ScanThread? || a.TryScanStart? || a.TryScanThread?
  }

  /** One iteration of the scans: `readers_passed` gives up at the first reader at or
      below its target, `try_collect` lowers its minimum. */
  function ScanStep(s: State, t: Tid, a: Step): State
    requires Enabled(s, t, a) && IsScanStep(a)
  {
    var th := s.threads[t];
    match a
    case ScanStart => Put(s, t, th.(wpc := Scanning(th.wpc.call, th.wpc.prior, s.list)))
    case ScanThread =>
      var pc := th.wpc;
      if pc.todo == [] then Put(s, t, th.(wpc := Proven(pc.call, pc.prior)))
      else
        var e := Published(s, pc.todo[0]);
        if e != 0 && e <= pc.prior then Put(s, t, th.(wpc := Polling(pc.call, pc.prior, true)))
        else Put(s, t, th.(wpc := Scanning(pc.call, pc.prior, pc.todo[1..])))
    case TryScanStart => Put(s, t, th.(wpc := TryScan(th.wpc.cur, th.wpc.cur, s.list)))
    case TryScanThread =>
      var pc := th.wpc;
      var e := Published(s, pc.todo[0]);
      var min := if e != 0 && e < pc.min then e else pc.min;
      Put(s, t, th.(wpc := TryScan(pc.cur, min, pc.todo[1..])))
  }

  predicate IsFinishStep(a: Step) {
    a.ScanExpire? || a.Finish? || a.TryFinish?
  }

  function FinishStep(s: State, t: Tid, a: Step): State
    requires Enabled(s, t, a) && IsFinishStep(a)
  {
    var th := s.threads[t];
    match a
    case ScanExpire =>
      Put(s, t, th.(wpc := Idle, result := ReturnedFalse)).(d := EndAdvance(s.d, th.wpc.prior, false))
    case Finish =>
      var prior := th.wpc.prior;
      if th.wpc.call == Until then
        Put(s, t, th.(wpc := Idle, result := ReturnedTrue(prior))).(d := EndAdvance(s.d, prior, true))
      else
        Put(s, t, th.(wpc := Idle)).(d := SyncEnd(s.d, prior, th.wpc.call.eager))
    case TryFinish =>
      var pc := th.wpc;
      Put(s, t, th.(wpc := Idle)).(d := if pc.min > 1 then CollectBoth(s.d, pc.min - 1) else s.d)
  }

  function Next(s: State, t: Tid, a: Step): State
    requires Enabled(s, t, a)
  {
    if IsRetireStep(a) then RetireStep(s, t, a)
    else if IsEnterStep(a) then EnterStep(s, t, a)
    else if IsScanStep(a) then ScanStep(s, t, a)
    else if IsFinishStep(a) then FinishStep(s, t, a)
    else ReaderStep(s, t, a)
  }

  // ----- runs

  /** A schedule: which thread takes which step. */
  type Schedule = seq<(Tid, Step)>

  predicate Runs(s: State, sched: Schedule)
    decreases |sched|
  {
    sched == [] || (Enabled(s, sched[0].0, sched[0].1) && Runs(Next(s, sched[0].0, sched[0].1), sched[1..]))
  }

  function Run(s: State, sched: Schedule): State
    requires Runs(s, sched)
    decreases |sched|
  {
    if sched == [] then s else Run(Next(s, sched[0].0, sched[0].1), sched[1..])
  }
}
