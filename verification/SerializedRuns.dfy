/** The serialized operations of `ImageReclaim` are runs of the interleaved protocol: one thread calls `retire_image`
    again and again, another one is a reader that outlasts the deadline where a bounded wait fails.
 */
module SerializedRuns {
  import opened RcuDomain
  import opened RcuProtocol
  import opened ImageOrder
  import ImageReclaim

  // ----- runs between states

  ghost predicate Leads(s: State, s': State) {
    exists sched :: Runs(s, sched) && Run(s, sched) == s' && Disciplined(s, sched)
  }

  lemma {:induction false} RunConcat(s: State, x: Schedule, y: Schedule)
    requires Runs(s, x) && Runs(Run(s, x), y) && Disciplined(s, x) && Disciplined(Run(s, x), y)
    ensures Runs(s, x + y) && Run(s, x + y) == Run(Run(s, x), y) && Disciplined(s, x + y)
    decreases |x|
  {
    if x == [] {
      assert x + y == y;
    } else {
      assert (x + y)[0] == x[0] && (x + y)[1..] == x[1..] + y;
      RunConcat(Next(s, x[0].0, x[0].1), x[1..], y);
    }
  }

  lemma Joins(s: State, s1: State, s2: State)
    requires Leads(s, s1) && Leads(s1, s2)
    ensures Leads(s, s2)
  {
    var x :| Runs(s, x) && Run(s, x) == s1 && Disciplined(s, x);
    var y :| Runs(s1, y) && Run(s1, y) == s2 && Disciplined(s1, y);
    RunConcat(s, x, y);
  }

  lemma Steps(s: State, t: Tid, a: Step, s': State)
    requires Enabled(s, t, a) && s' == Next(s, t, a) && RetiresInOrder(s, t, a)
    ensures Leads(s, s')
  {
    var sched := [(t, a)];
    assert sched[1..] == [];
    assert Runs(s', []) && Run(s', []) == s' && Disciplined(s', []);
    assert Runs(s, sched) && Run(s, sched) == Run(s', sched[1..]) && Disciplined(s, sched);
  }

  lemma Steps2(s: State, t: Tid, a: Step, s1: State, u: Tid, b: Step, s2: State)
    requires Enabled(s, t, a) && s1 == Next(s, t, a) && RetiresInOrder(s, t, a)
    requires Enabled(s1, u, b) && s2 == Next(s1, u, b) && RetiresInOrder(s1, u, b)
    ensures Leads(s, s2)
  {
    Steps(s, t, a, s1);
    Steps(s1, u, b, s2);
    Joins(s, s1, s2);
  }

  // ----- thread 0 operates, thread 1 reads

  datatype Past = Past(known: set<Obj>, tags: map<Obj, nat>, ever: seq<Node>)

  function Op(wpc: WriterPc, pending: set<Obj>, batch: seq<Node>, result: UntilResult): Thread {
    Thread(Outside, 0, {}, wpc, pending, batch, result)
  }

  function At(d: Shared, x: Past, op: Thread, reader: Thread): State {
    State(d, [1], [op, reader], {}, x.known, x.tags, x.ever)
  }

  lemma Unlinks(d: Shared, x: Past, res: UntilResult, objs: set<Obj>)
    requires objs !! x.known
    ensures Leads(At(d, x, Op(Idle, {}, [], res), FRESH),
      At(d, x.(known := x.known + objs), Op(Idle, objs, [], res), FRESH))
  {
    var s := At(d, x, Op(Idle, {}, [], res), FRESH);
    var x' := x.(known := x.known + objs);
    var s1 := At(d, x', Op(Idle, {}, [], res), FRESH).(linked := objs);
    var s2 := At(d, x', Op(Idle, objs, [], res), FRESH);
    assert {} - {} + objs == objs && objs - objs + {} == {} && {} + objs == objs && x'.known + {} == x'.known;
    assert s1 == Next(s, 0, Swap({}, objs)) by { assert s.threads[0 := s.threads[0]] == s.threads; }
    assert s2 == Next(s1, 0, Swap(objs, {}));
    Steps2(s, 0, Swap({}, objs), s1, 0, Swap(objs, {}), s2);
  }

  function Queued(x: Past, n: Node): Past { x.(tags := x.tags[n.obj := n.epoch], ever := x.ever + [n]) }

  lemma Queues(d: Shared, x: Past, pending: set<Obj>, batch: seq<Node>, n: Node, res: UntilResult, reader: Thread)
    requires n.obj in pending && |batch| + 1 < BATCH_PUBLISH && n.epoch == d.global && Typed(n)
    requires n.obj % 2 == 1 ==> n.obj - 1 in x.tags
    requires reader.batch == [] && reader.wpc == Idle
    ensures Leads(At(d, x, Op(Idle, pending, batch, res), reader),
                  At(d, Queued(x, n), Op(Idle, pending - {n.obj}, batch + [n], res), reader))
  {
    var s := At(d, x, Op(Idle, pending, batch, res), reader);
    var pc := Retiring(n.obj, n.cls, d.global);
    var s1 := At(d, x.(tags := x.tags[n.obj := n.epoch]), Op(pc, pending - {n.obj}, batch, res), reader);
    var s2 := At(d, Queued(x, n), Op(Idle, pending - {n.obj}, batch + [n], res), reader);
    assert s1 == Next(s, 0, RetireLoad(n.obj, n.cls));
    assert s2 == Next(s1, 0, RetireAppend);
    Steps2(s, 0, RetireLoad(n.obj, n.cls), s1, 0, RetireAppend, s2);
  }

  /** The scan passes a reader whose published epoch is zero. */
  lemma Proves(d: Shared, x: Past, call: Call, prior: nat, pending: set<Obj>, res: UntilResult, reader: Thread)
    requires reader.epoch == 0
    ensures Leads(At(d, x, Op(Polling(call, prior, false), pending, [], res), reader),
                  At(d, x, Op(Proven(call, prior), pending, [], res), reader))
  {
    var s := At(d, x, Op(Polling(call, prior, false), pending, [], res), reader);
    var s1 := At(d, x, Op(Scanning(call, prior, [1]), pending, [], res), reader);
    var s2 := At(d, x, Op(Scanning(call, prior, []), pending, [], res), reader);
    var s3 := At(d, x, Op(Proven(call, prior), pending, [], res), reader);
    assert [1][1..] == [];
    Steps2(s, 0, ScanStart, s1, 0, ScanThread, s2);
    Steps(s2, 0, ScanThread, s3);
    Joins(s, s2, s3);
  }

  lemma Synchronizes(d: Shared, x: Past, pending: set<Obj>, batch: seq<Node>, eager: bool, res: UntilResult)
    requires d.sync == 0
    ensures Leads(At(d, x, Op(Idle, pending, batch, res), FRESH),
                  At(Synchronize(d, batch, eager), x, Op(Idle, pending, [], res), FRESH))
  {
    var s := At(d, x, Op(Idle, pending, batch, res), FRESH);
    var d1 := SyncBegin(d, batch, eager);
    if StartOutcome(d, eager).NotDue? {
      Steps(s, 0, SyncEnter(eager), At(d1, x, Op(Idle, pending, [], res), FRESH));
    } else {
      var s1 := At(d1, x, Op(Polling(Sync(eager), d.global, false), pending, [], res), FRESH);
      Steps(s, 0, SyncEnter(eager), s1);
      SyncCompletes(d1, x, pending, d.global, eager, res);
      Joins(s, s1, At(SyncEnd(d1, d.global, eager), x, Op(Idle, pending, [], res), FRESH));
    }
  }

  lemma SyncCompletes(d: Shared, x: Past, pending: set<Obj>, prior: nat, eager: bool, res: UntilResult)
    ensures Leads(At(d, x, Op(Polling(Sync(eager), prior, false), pending, [], res), FRESH),
                  At(SyncEnd(d, prior, eager), x, Op(Idle, pending, [], res), FRESH))
  {
    var s1 := At(d, x, Op(Polling(Sync(eager), prior, false), pending, [], res), FRESH);
    var s2 := At(d, x, Op(Proven(Sync(eager), prior), pending, [], res), FRESH);
    var s3 := At(SyncEnd(d, prior, eager), x, Op(Idle, pending, [], res), FRESH);
    Proves(d, x, Sync(eager), prior, pending, res, FRESH);
    Steps(s2, 0, Finish, s3);
    Joins(s1, s2, s3);
  }

  lemma WaitsInTime(d: Shared, x: Past, batch: seq<Node>, res: UntilResult, reader: Thread)
    requires d.sync == 0 && reader.epoch == 0
    ensures Leads(At(d, x, Op(Idle, {}, batch, res), reader),
                  At(SynchronizeUntil(d, batch, true), x, Op(Idle, {}, [], ReturnedTrue(d.global)), reader))
  {
    var s := At(d, x, Op(Idle, {}, batch, res), reader);
    var d1 := BeginAdvance(d, batch);
    var s1 := At(d1, x, Op(Polling(Until, d.global, false), {}, [], NoCall), reader);
    Steps(s, 0, UntilEnter, s1);
    UntilCompletes(d1, x, d.global, reader);
    Joins(s, s1, At(EndAdvance(d1, d.global, true), x, Op(Idle, {}, [], ReturnedTrue(d.global)), reader));
  }

  lemma UntilCompletes(d: Shared, x: Past, prior: nat, reader: Thread)
    requires reader.epoch == 0
    ensures Leads(At(d, x, Op(Polling(Until, prior, false), {}, [], NoCall), reader),
                  At(EndAdvance(d, prior, true), x, Op(Idle, {}, [], ReturnedTrue(prior)), reader))
  {
    var s1 := At(d, x, Op(Polling(Until, prior, false), {}, [], NoCall), reader);
    var s2 := At(d, x, Op(Proven(Until, prior), {}, [], NoCall), reader);
    var s3 := At(EndAdvance(d, prior, true), x, Op(Idle, {}, [], ReturnedTrue(prior)), reader);
    Proves(d, x, Until, prior, {}, NoCall, reader);
    Steps(s2, 0, Finish, s3);
    Joins(s1, s2, s3);
  }

  /** The reader is inside from before the advance until after the deadline. */
  lemma WaitsTooLong(d: Shared, x: Past, batch: seq<Node>, res: UntilResult)
    requires d.sync == 0 && 1 <= d.global
    ensures Leads(At(d, x, Op(Idle, {}, batch, res), FRESH),
                  At(SynchronizeUntil(d, batch, false), x, Op(Idle, {}, [], ReturnedFalse), FRESH))
  {
    var s := At(d, x, Op(Idle, {}, batch, res), FRESH);
    var inside := FRESH.(rpc := Inside, epoch := d.global);
    var s2 := At(d, x, Op(Idle, {}, batch, res), inside);
    ReaderEnters(d, x, Op(Idle, {}, batch, res));
    var d1 := BeginAdvance(d, batch);
    var s3 := At(d1, x, Op(Polling(Until, d.global, false), {}, [], NoCall), inside);
    var s4 := At(d1, x, Op(Scanning(Until, d.global, [1]), {}, [], NoCall), inside);
    Steps2(s2, 0, UntilEnter, s3, 0, ScanStart, s4);
    Joins(s, s2, s4);
    Expires(d1, x, d.global);
    Joins(s, s4, At(EndAdvance(d1, d.global, false), x, Op(Idle, {}, [], ReturnedFalse), FRESH));
  }

  lemma ReaderEnters(d: Shared, x: Past, op: Thread)
    ensures Leads(At(d, x, op, FRESH), At(d, x, op, FRESH.(rpc := Inside, epoch := d.global)))
  {
    var s1 := At(d, x, op, FRESH.(rpc := RcuProtocol.Loaded(d.global)));
    Steps2(At(d, x, op, FRESH), 1, LoadEpoch, s1, 1, StoreEpoch,
      At(d, x, op, FRESH.(rpc := Inside, epoch := d.global)));
  }

  lemma Expires(d1: Shared, x: Past, prior: nat)
    requires 1 <= prior
    ensures var inside := FRESH.(rpc := Inside, epoch := prior);
      Leads(At(d1, x, Op(Scanning(Until, prior, [1]), {}, [], NoCall), inside),
            At(EndAdvance(d1, prior, false), x, Op(Idle, {}, [], ReturnedFalse), FRESH))
  {
    var inside := FRESH.(rpc := Inside, epoch := prior);
    var s4 := At(d1, x, Op(Scanning(Until, prior, [1]), {}, [], NoCall), inside);
    var s5 := At(d1, x, Op(Polling(Until, prior, true), {}, [], NoCall), inside);
    var s6 := At(EndAdvance(d1, prior, false), x, Op(Idle, {}, [], ReturnedFalse), inside);
    var s7 := At(EndAdvance(d1, prior, false), x, Op(Idle, {}, [], ReturnedFalse), FRESH);
    Steps(s4, 0, ScanThread, s5);
    Steps(s5, 0, ScanExpire, s6);
    Joins(s4, s5, s6);
    ReaderLeaves(s6.d, x, s6.threads[0], prior);
    Joins(s4, s6, s7);
  }

  lemma ReaderLeaves(d: Shared, x: Past, op: Thread, epoch: nat)
    ensures Leads(At(d, x, op, FRESH.(rpc := Inside, epoch := epoch)), At(d, x, op, FRESH))
  {
    Steps(At(d, x, op, FRESH.(rpc := Inside, epoch := epoch)), 1, Exit, At(d, x, op, FRESH));
  }

  // ----- one operation

  lemma BoundedRuns(d: Shared, x: Past, k: nat, proven: bool, res: UntilResult) returns (x': Past, res': UntilResult)
    requires d.sync == 0 && 1 <= d.global && forall o :: o in x.known ==> o < 2 * k
    ensures forall o :: o in x'.known ==> o < 2 * (k + 1)
    ensures Leads(At(d, x, Op(Idle, {}, [], res), FRESH),
                  At(ImageReclaim.RetireImage(d, k, ImageReclaim.Bounded(proven)), x', Op(Idle, {}, [], res'), FRESH))
  {
    var s := At(d, x, Op(Idle, {}, [], res), FRESH);
    var batch: seq<Node>;
    x', batch := QueuesBoth(d, x, k, res);
    var s1 := At(d, x', Op(Idle, {}, batch, res), FRESH);
    if proven {
      res' := ReturnedTrue(d.global);
      WaitsInTime(d, x', batch, res, FRESH);
    } else {
      res' := ReturnedFalse;
      WaitsTooLong(d, x', batch, res);
    }
    Joins(s, s1, At(SynchronizeUntil(d, batch, proven), x', Op(Idle, {}, [], res'), FRESH));
  }

  /** Index and image are unlinked and queued together. */
  lemma QueuesBoth(d: Shared, x: Past, k: nat, res: UntilResult) returns (x': Past, batch: seq<Node>)
    requires forall o :: o in x.known ==> o < 2 * k
    ensures forall o :: o in x'.known ==> o < 2 * (k + 1)
    ensures batch == [Node(IndexOf(k), d.global, Eager), Node(ImageOf(k), d.global, Batched)]
    ensures Leads(At(d, x, Op(Idle, {}, [], res), FRESH), At(d, x', Op(Idle, {}, batch, res), FRESH))
  {
    var index, image := Node(IndexOf(k), d.global, Eager), Node(ImageOf(k), d.global, Batched);
    var x1 := QueuesIndex(d, x, k, res);
    var s := At(d, x, Op(Idle, {}, [], res), FRESH);
    var s1 := At(d, x1, Op(Idle, {image.obj}, [index], res), FRESH);
    Queues(d, x1, {image.obj}, [index], image, res, FRESH);
    x', batch := Queued(x1, image), [index, image];
    assert {image.obj} - {image.obj} == {} && [index] + [image] == batch;
    Joins(s, s1, At(d, x', Op(Idle, {}, batch, res), FRESH));
  }

  lemma QueuesIndex(d: Shared, x: Past, k: nat, res: UntilResult) returns (x': Past)
    requires forall o :: o in x.known ==> o < 2 * k
    ensures (forall o :: o in x'.known ==> o < 2 * (k + 1)) && IndexOf(k) in x'.tags
    ensures Leads(At(d, x, Op(Idle, {}, [], res), FRESH),
                  At(d, x', Op(Idle, {ImageOf(k)}, [Node(IndexOf(k), d.global, Eager)], res), FRESH))
  {
    var index := Node(IndexOf(k), d.global, Eager);
    var objs := {IndexOf(k), ImageOf(k)};
    var x1 := x.(known := x.known + objs);
    Unlinks(d, x, res, objs);
    Queues(d, x1, objs, [], index, res, FRESH);
    x' := Queued(x1, index);
    assert objs - {index.obj} == {ImageOf(k)} && [] + [index] == [index];
    Joins(At(d, x, Op(Idle, {}, [], res), FRESH), At(d, x1, Op(Idle, objs, [], res), FRESH),
          At(d, x', Op(Idle, {ImageOf(k)}, [index], res), FRESH));
  }

  lemma UnboundedRuns(d: Shared, x: Past, k: nat, res: UntilResult) returns (x': Past)
    requires d.sync == 0 && forall o :: o in x.known ==> o < 2 * k
    ensures forall o :: o in x'.known ==> o < 2 * (k + 1)
    ensures Leads(At(d, x, Op(Idle, {}, [], res), FRESH),
                  At(ImageReclaim.RetireImage(d, k, ImageReclaim.Unbounded), x', Op(Idle, {}, [], res), FRESH))
  {
    var index, m := Node(IndexOf(k), d.global, Eager), ImageOf(k);
    var d1 := Synchronize(d, [index], true);
    var x1 := SyncsIndex(d, x, k, res);
    x' := QueuesAndSyncs(d1, x1, m, res);
    Joins(At(d, x, Op(Idle, {}, [], res), FRESH), At(d1, x1, Op(Idle, {m}, [], res), FRESH),
          At(Synchronize(d1, [Node(m, d1.global, Batched)], false), x', Op(Idle, {}, [], res), FRESH));
  }

  lemma SyncsIndex(d: Shared, x: Past, k: nat, res: UntilResult) returns (x': Past)
    requires d.sync == 0 && forall o :: o in x.known ==> o < 2 * k
    ensures (forall o :: o in x'.known ==> o < 2 * (k + 1)) && IndexOf(k) in x'.tags
    ensures var d1 := Synchronize(d, [Node(IndexOf(k), d.global, Eager)], true);
      && d1.sync == 0 && d1.global == d.global + 1
      && Leads(At(d, x, Op(Idle, {}, [], res), FRESH), At(d1, x', Op(Idle, {ImageOf(k)}, [], res), FRESH))
  {
    var index, m := Node(IndexOf(k), d.global, Eager), ImageOf(k);
    x' := QueuesIndex(d, x, k, res);
    Synchronizes(d, x', {m}, [index], true, res);
    Joins(At(d, x, Op(Idle, {}, [], res), FRESH), At(d, x', Op(Idle, {m}, [index], res), FRESH),
          At(Synchronize(d, [index], true), x', Op(Idle, {m}, [], res), FRESH));
  }

  lemma QueuesAndSyncs(d: Shared, x: Past, m: Obj, res: UntilResult) returns (x': Past)
    requires d.sync == 0 && m % 2 == 1 && m - 1 in x.tags
    ensures x'.known == x.known
    ensures Leads(At(d, x, Op(Idle, {m}, [], res), FRESH),
                  At(Synchronize(d, [Node(m, d.global, Batched)], false), x', Op(Idle, {}, [], res), FRESH))
  {
    var image := Node(m, d.global, Batched);
    Queues(d, x, {m}, [], image, res, FRESH);
    x' := Queued(x, image);
    assert {m} - {m} == {} && [] + [image] == [image];
    Synchronizes(d, x', {}, [image], false, res);
    Joins(At(d, x, Op(Idle, {m}, [], res), FRESH), At(d, x', Op(Idle, {}, [image], res), FRESH),
          At(Synchronize(d, [image], false), x', Op(Idle, {}, [], res), FRESH));
  }

  // ----- all of them

  lemma {:induction false} ServeRuns(ops: seq<ImageReclaim.Policy>) returns (x: Past, res: UntilResult)
    ensures forall o :: o in x.known ==> o < 2 * |ops|
    ensures Leads(Init(2), At(ImageReclaim.Serve(ops), x, Op(Idle, {}, [], res), FRESH))
  {
    if ops == [] {
      x, res := Past({}, map[], []), NoCall;
      var s := At(INITIAL, x, FRESH, FRESH);
      assert [1] + [] == [1] && s.threads == Init(2).threads;
      Steps(Init(2), 1, Register, s);
    } else {
      var k := |ops| - 1;
      var x0, res0 := ServeRuns(ops[..k]);
      ImageReclaim.ServedAlways(ops[..k]);
      var d := ImageReclaim.Serve(ops[..k]);
      var s := At(d, x0, Op(Idle, {}, [], res0), FRESH);
      if ops[k].Bounded? {
        x, res := BoundedRuns(d, x0, k, ops[k].proven, res0);
      } else {
        res := res0;
        x := UnboundedRuns(d, x0, k, res0);
      }
      Joins(Init(2), s, At(ImageReclaim.Serve(ops), x, Op(Idle, {}, [], res), FRESH));
    }
  }

  /** A run of `retire_image` calls that ends with the domain of the serialized operations. */
  ghost predicate CarriesOut(sched: Schedule, ops: seq<ImageReclaim.Policy>) {
    Runs(Init(2), sched) && Disciplined(Init(2), sched) && Run(Init(2), sched).d == ImageReclaim.Serve(ops)
  }

  lemma CarriedOutNeverBreaks(sched: Schedule, ops: seq<ImageReclaim.Policy>, i: nat)
    requires CarriesOut(sched, ops)
    ensures !Breaks(Init(2), sched, i)
  {
    ImageReclaim.IndexReclaimedFirst(ops);
    OrderBreaksExactlyWhen(2, sched, i);
    OrderedIsNotEarly(ImageReclaim.Serve(ops).reclaimed, i);
  }

  lemma OrderedIsNotEarly(done: seq<Node>, i: nat)
    requires ImageReclaim.WellOrdered(done)
    ensures !Early(done, i)
  {
    assert ImageOf(i) % 2 == 1 && ImageOf(i) - 1 == IndexOf(i);
  }

  lemma CarriedOut(ops: seq<ImageReclaim.Policy>) returns (sched: Schedule)
    ensures CarriesOut(sched, ops)
  {
    var x, res := ServeRuns(ops);
    var s := At(ImageReclaim.Serve(ops), x, Op(Idle, {}, [], res), FRESH);
    sched :| Runs(Init(2), sched) && Run(Init(2), sched) == s && Disciplined(Init(2), sched);
  }

  /** Every sequence of serialized operations is a run of the protocol that ends with the same domain, and in which the
      guard of the failing branches is met for no image. */
  lemma SerializedNeverBreaks(ops: seq<ImageReclaim.Policy>)
    ensures exists sched :: CarriesOut(sched, ops) && forall i: nat :: !Breaks(Init(2), sched, i)
  {
    var sched := CarriedOut(ops);
    forall i: nat ensures !Breaks(Init(2), sched, i) { CarriedOutNeverBreaks(sched, ops, i); }
  }

  // ----- nested sections

  const INDEX := Node(0, 1, Eager)
  const IMAGE := Node(1, 1, Batched)

  /** The exit of an inner section: the published epoch is cleared, and the outer section still uses what it has
      loaded. */
  function InnerExit(s: State, t: Tid): State
    requires t < |s.threads|
  {
    s.(threads := s.threads[t := s.threads[t].(rpc := Outside, epoch := 0)])
  }

  function Reading(held: set<Obj>): Thread { Thread(Inside, 1, held, Idle, {}, [], NoCall) }

  lemma ReaderIsIn()
    ensures Leads(Init(2), At(INITIAL, Past({}, map[], []), FRESH, Reading({})))
  {
    var s1 := At(INITIAL, Past({}, map[], []), FRESH, FRESH);
    assert [1] + [] == [1] && s1.threads == Init(2).threads;
    Steps(Init(2), 1, Register, s1);
    ReaderEnters(INITIAL, Past({}, map[], []), FRESH);
    Joins(Init(2), s1, At(INITIAL, Past({}, map[], []), FRESH, Reading({})));
  }

  /** Thread 1 holds the image and its index, and thread 0 has unlinked both. */
  lemma ReaderLoads()
    ensures Leads(Init(2), At(INITIAL, Past({0, 1}, map[], []), Op(Idle, {0, 1}, [], NoCall), Reading({0, 1})))
  {
    var x := Past({0, 1}, map[], []);
    var s2 := At(INITIAL, Past({}, map[], []), FRESH, Reading({}));
    ReaderIsIn();
    var s3 := At(INITIAL, x, FRESH, Reading({})).(linked := {0, 1});
    assert {} - {} + {0, 1} == {0, 1} && {} + {0, 1} == {0, 1};
    assert FRESH.pending + {} == {} && FRESH.(pending := FRESH.pending + {}) == FRESH;
    assert s2.threads[0 := FRESH] == s2.threads;
    assert s3 == Next(s2, 0, Swap({}, {0, 1}));
    Steps(s2, 0, Swap({}, {0, 1}), s3);
    Joins(Init(2), s2, s3);
    LoadsAndUnlinks(x);
    Joins(Init(2), s3, At(INITIAL, x, Op(Idle, {0, 1}, [], NoCall), Reading({0, 1})));
  }

  lemma LoadsAndUnlinks(x: Past)
    requires x == Past({0, 1}, map[], [])
    ensures Leads(At(INITIAL, x, FRESH, Reading({})).(linked := {0, 1}),
                  At(INITIAL, x, Op(Idle, {0, 1}, [], NoCall), Reading({0, 1})))
  {
    var s3 := At(INITIAL, x, FRESH, Reading({})).(linked := {0, 1});
    var s4 := At(INITIAL, x, FRESH, Reading({0, 1})).(linked := {0, 1});
    var s5 := At(INITIAL, x, Op(Idle, {0, 1}, [], NoCall), Reading({0, 1}));
    assert {} + {0, 1} == {0, 1} && {0, 1} - {0, 1} + {} == {} && {0, 1} + {} == {0, 1};
    Steps2(s3, 1, LoadPointer({0, 1}), s4, 0, Swap({0, 1}, {}), s5);
  }

  /** Both are queued. */
  lemma QueuedUnderReader()
    ensures Leads(Init(2), At(INITIAL, Past({0, 1}, map[0 := 1, 1 := 1], [INDEX, IMAGE]),
                              Op(Idle, {}, [INDEX, IMAGE], NoCall), Reading({0, 1})))
  {
    var x := Past({0, 1}, map[], []);
    var s := At(INITIAL, x, Op(Idle, {0, 1}, [], NoCall), Reading({0, 1}));
    ReaderLoads();
    Queues(INITIAL, x, {0, 1}, [], INDEX, NoCall, Reading({0, 1}));
    var x1 := Past({0, 1}, map[0 := 1], [INDEX]);
    assert {0, 1} - {0} == {1} && [] + [INDEX] == [INDEX] && {1} - {1} == {} && [INDEX] + [IMAGE] == [INDEX, IMAGE];
    var s1 := At(INITIAL, x1, Op(Idle, {1}, [INDEX], NoCall), Reading({0, 1}));
    Joins(Init(2), s, s1);
    Queues(INITIAL, x1, {1}, [INDEX], IMAGE, NoCall, Reading({0, 1}));
    var x2 := Past({0, 1}, map[0 := 1, 1 := 1], [INDEX, IMAGE]);
    assert map[0 := 1][1 := 1] == map[0 := 1, 1 := 1];
    Joins(Init(2), s1, At(INITIAL, x2, Op(Idle, {}, [INDEX, IMAGE], NoCall), Reading({0, 1})));
  }

  /** Why sections must not be nested: after the exit of an inner section, what the outer section holds can be reclaimed
      under it. */
  lemma InnerExitUnprotects()
    ensures exists s: State, s': State ::
      && Leads(Init(2), s) && |s.threads| == 2 && s.threads[1].rpc == Inside && Leads(InnerExit(s, 1), s')
      && |s'.threads| == 2 && IMAGE in s'.d.reclaimed && IMAGE.obj in s'.threads[1].held
  {
    var x := Past({0, 1}, map[0 := 1, 1 := 1], [INDEX, IMAGE]);
    var batch := [INDEX, IMAGE];
    var s := At(INITIAL, x, Op(Idle, {}, batch, NoCall), Reading({0, 1}));
    QueuedUnderReader();
    var out := Reading({0, 1}).(rpc := Outside, epoch := 0);
    assert InnerExit(s, 1) == At(INITIAL, x, Op(Idle, {}, batch, NoCall), out);
    WaitsInTime(INITIAL, x, batch, NoCall, out);
    BothReclaimed();
    var s' := At(SynchronizeUntil(INITIAL, batch, true), x, Op(Idle, {}, [], ReturnedTrue(1)), out);
    assert Leads(InnerExit(s, 1), s') && s'.threads[1] == out;
  }

  lemma BothReclaimed()
    ensures IMAGE in SynchronizeUntil(INITIAL, [INDEX, IMAGE], true).reclaimed
  {
    var d := BeginAdvance(INITIAL, [INDEX, IMAGE]);
    assert d.retired == [INDEX, IMAGE];
    CollectSplitsList(d.retired, 1, Eager);
    var mid := Collect(d, 1, Eager);
    assert IMAGE in mid.retired by { assert [INDEX, IMAGE][1] == IMAGE; }
    CollectSplitsList(mid.retired, 1, Batched);
  }
}
