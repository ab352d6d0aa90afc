/** Runs that show the limits of the protocol: a token answered before its callback, and two ways in which an image is
    deleted while its index still waits in the list.
 */
module RcuWitness {
  import opened Options
  import opened RcuDomain
  import opened RcuProtocol
  import opened RcuSafety
  import opened RcuFine
  import opened RcuTokens
  import opened ImageOrder
  import ImageReclaim

  const INDEX := Node(0, 1, Eager)
  const IMAGE := Node(1, 1, Batched)

  lemma {:induction false} RunThen(s0: State, sched: Schedule, t: Tid, a: Step)
    requires Runs(s0, sched) && Enabled(Run(s0, sched), t, a)
    ensures Runs(s0, sched + [(t, a)]) && Run(s0, sched + [(t, a)]) == Next(Run(s0, sched), t, a)
    ensures Disciplined(s0, sched) && RetiresInOrder(Run(s0, sched), t, a) ==> Disciplined(s0, sched + [(t, a)])
    decreases |sched|
  {
    if sched == [] {
      assert sched + [(t, a)] == [(t, a)];
      assert [(t, a)][1..] == [];
    } else {
      assert (sched + [(t, a)])[1..] == sched[1..] + [(t, a)];
      RunThen(Next(s0, sched[0].0, sched[0].1), sched[1..], t, a);
    }
  }

  /** Two threads can reach `s` by `r`, and every retirement in `r` is one of `retire_image`. */
  ghost predicate Reached(r: Schedule, s: State) {
    Runs(Init(2), r) && Run(Init(2), r) == s && Disciplined(Init(2), r)
  }

  lemma Extend(r: Schedule, s: State, t: Tid, a: Step, s': State) returns (longer: Schedule)
    requires Reached(r, s) && Enabled(s, t, a) && s' == Next(s, t, a) && RetiresInOrder(s, t, a)
    ensures Reached(longer, s')
  {
    longer := r + [(t, a)];
    RunThen(Init(2), r, t, a);
  }

  // ----- thread 0 retires image 0 and its index

  /** Nothing has happened but `k` batched synchronize calls. */
  function Ticked(k: nat): State { Init(2).(d := Shared(1, 0, 0, 0, k, [], [])) }

  lemma {:induction false} Ticks(k: nat) returns (r: Schedule)
    requires k < EPOCH_BATCH
    ensures Reached(r, Ticked(k))
  {
    if k == 0 {
      r := [];
    } else {
      r := Ticks(k - 1);
      assert Ticked(k).threads == Ticked(k - 1).threads[1 := FRESH];
      r := Extend(r, Ticked(k - 1), 1, SyncEnter(false), Ticked(k));
    }
  }

  /** The index and the image have been unlinked and both have been queued at epoch 1. */
  function Both(d: Shared, list: seq<Tid>, t0: Thread, t1: Thread): State {
    State(d, list, [t0, t1], {}, {0, 1}, map[0 := 1, 1 := 1], [INDEX, IMAGE])
  }

  lemma UnlinksBoth(r0: Schedule, d: Shared) returns (r: Schedule)
    requires Reached(r0, Init(2).(d := d))
    requires d.global == 1
    ensures Reached(r, State(d, [], [Thread(Outside, 0, {}, Idle, {0, 1}, [], NoCall), FRESH], {}, {0, 1}, map[], []))
  {
    assert {} - {} + {0, 1} == {0, 1} && {0, 1} - {0, 1} + {} == {};
    assert Init(2).threads == [FRESH, FRESH];
    var s0 := Init(2).(d := d);
    r := r0;
    var s1 := State(d, [], [FRESH, FRESH], {0, 1}, {0, 1}, map[], []);
    r := Extend(r, s0, 0, Swap({}, {0, 1}), s1);
    var s2 := State(d, [], [Thread(Outside, 0, {}, Idle, {0, 1}, [], NoCall), FRESH], {}, {0, 1}, map[], []);
    r := Extend(r, s1, 0, Swap({0, 1}, {}), s2);
  }

  lemma QueuesIndex(r0: Schedule, d: Shared) returns (r: Schedule)
    requires Reached(r0, State(d, [], [Thread(Outside, 0, {}, Idle, {0, 1}, [], NoCall), FRESH], {}, {0, 1}, map[], []))
    requires d.global == 1
    ensures Reached(r, State(d, [], [Thread(Outside, 0, {}, Idle, {1}, [INDEX], NoCall), FRESH], {}, {0, 1},
      map[0 := 1], [INDEX]))
  {
    assert {0, 1} - {0} == {1};
    var s0 := State(d, [], [Thread(Outside, 0, {}, Idle, {0, 1}, [], NoCall), FRESH], {}, {0, 1}, map[], []);
    r := r0;
    var s1 := State(d, [], [Thread(Outside, 0, {}, Retiring(0, Eager, 1), {1}, [], NoCall), FRESH], {}, {0, 1},
      map[0 := 1], []);
    r := Extend(r, s0, 0, RetireLoad(0, Eager), s1);
    var s2 := State(d, [], [Thread(Outside, 0, {}, Idle, {1}, [INDEX], NoCall), FRESH], {}, {0, 1}, map[0 := 1],
      [INDEX]);
    r := Extend(r, s1, 0, RetireAppend, s2);
  }

  lemma QueuesImage(r0: Schedule, d: Shared) returns (r: Schedule)
    requires Reached(r0,
      State(d, [], [Thread(Outside, 0, {}, Idle, {1}, [INDEX], NoCall), FRESH], {}, {0, 1}, map[0 := 1], [INDEX]))
    requires d.global == 1
    ensures Reached(r, Both(d, [], Thread(Outside, 0, {}, Idle, {}, [INDEX, IMAGE], NoCall), FRESH))
  {
    assert {1} - {1} == {};
    assert map[0 := 1][1 := 1] == map[0 := 1, 1 := 1];
    assert [INDEX] + [IMAGE] == [INDEX, IMAGE];
    var s0 := State(d, [], [Thread(Outside, 0, {}, Idle, {1}, [INDEX], NoCall), FRESH], {}, {0, 1}, map[0 := 1],
      [INDEX]);
    r := r0;
    var s1 := State(d, [], [Thread(Outside, 0, {}, Retiring(1, Batched, 1), {}, [INDEX], NoCall), FRESH], {}, {0, 1},
      map[0 := 1, 1 := 1], [INDEX]);
    r := Extend(r, s0, 0, RetireLoad(1, Batched), s1);
    var s2 := Both(d, [], Thread(Outside, 0, {}, Idle, {}, [INDEX, IMAGE], NoCall), FRESH);
    r := Extend(r, s1, 0, RetireAppend, s2);
  }

  lemma QueuesBoth(k: nat) returns (r: Schedule)
    requires k < EPOCH_BATCH
    ensures Reached(r, Both(Shared(1, 0, 0, 0, k, [], []), [],
      Thread(Outside, 0, {}, Idle, {}, [INDEX, IMAGE], NoCall), FRESH))
  {
    r := Ticks(k);
    r := UnlinksBoth(r, Shared(1, 0, 0, 0, k, [], []));
    r := QueuesIndex(r, Shared(1, 0, 0, 0, k, [], []));
    r := QueuesImage(r, Shared(1, 0, 0, 0, k, [], []));
  }

  // ----- a token that is answered too early

  lemma OtherProves(r0: Schedule) returns (r: Schedule)
    requires Reached(r0,
      Both(Shared(1, 0, 0, 0, 0, [], []), [], Thread(Outside, 0, {}, Idle, {}, [INDEX, IMAGE], NoCall), FRESH))
    ensures Reached(r, Both(Shared(2, 0, 0, 2, 0, [], []), [],
      Thread(Outside, 0, {}, Idle, {}, [INDEX, IMAGE], NoCall),
        Thread(Outside, 0, {}, Proven(Until, 1), {}, [], NoCall)))
  {
    var s0 := Both(Shared(1, 0, 0, 0, 0, [], []), [], Thread(Outside, 0, {}, Idle, {}, [INDEX, IMAGE], NoCall), FRESH);
    r := r0;
    var s1 := Both(Shared(2, 0, 0, 2, 0, [], []), [], Thread(Outside, 0, {}, Idle, {}, [INDEX, IMAGE], NoCall),
      Thread(Outside, 0, {}, Polling(Until, 1, false), {}, [], NoCall));
    r := Extend(r, s0, 1, UntilEnter, s1);
    var s2 := Both(Shared(2, 0, 0, 2, 0, [], []), [], Thread(Outside, 0, {}, Idle, {}, [INDEX, IMAGE], NoCall),
      Thread(Outside, 0, {}, Scanning(Until, 1, []), {}, [], NoCall));
    r := Extend(r, s1, 1, ScanStart, s2);
    var s3 := Both(Shared(2, 0, 0, 2, 0, [], []), [], Thread(Outside, 0, {}, Idle, {}, [INDEX, IMAGE], NoCall),
      Thread(Outside, 0, {}, Proven(Until, 1), {}, [], NoCall));
    r := Extend(r, s2, 1, ScanThread, s3);
  }

  lemma OtherCollects(r0: Schedule) returns (r: Schedule)
    requires Reached(r0,
      Both(Shared(2, 0, 0, 2, 0, [], []), [], Thread(Outside, 0, {}, Idle, {}, [INDEX, IMAGE], NoCall),
        Thread(Outside, 0, {}, Proven(Until, 1), {}, [], NoCall)))
    ensures Reached(r, Both(Shared(2, 1, 1, 0, 0, [], []), [],
      Thread(Outside, 0, {}, Idle, {}, [INDEX, IMAGE], NoCall), Thread(Outside, 0, {}, Idle, {}, [], ReturnedTrue(1))))
  {
    var s0 := Both(Shared(2, 0, 0, 2, 0, [], []), [], Thread(Outside, 0, {}, Idle, {}, [INDEX, IMAGE], NoCall),
      Thread(Outside, 0, {}, Proven(Until, 1), {}, [], NoCall));
    r := r0;
    var s1 := Both(Shared(2, 1, 1, 0, 0, [], []), [], Thread(Outside, 0, {}, Idle, {}, [INDEX, IMAGE], NoCall),
      Thread(Outside, 0, {}, Idle, {}, [], ReturnedTrue(1)));
    r := Extend(r, s0, 1, Finish, s1);
  }

  /** The same state at the finer grain. */
  lemma Refined(r: Schedule, s: State) returns (run: seq<FineStep>, f: Fine)
    requires Reached(r, s)
    ensures FineRuns(Start(2), run) && FineRun(Start(2), run) == f && f.work.None? && f.base == s && Sound(f)
  {
    InitInv(2);
    run := RunsAreFineRuns(Start(2), r);
    f := FineReachable(2, run);
  }

  /** Another thread collects while the retiring thread has not published its batch: the image's token is answered as
      reclaimed, and its callback has not run. */
  lemma TokenCanBeEarly()
    ensures exists run, f: Fine ::
      FineRuns(Start(2), run) && FineRun(Start(2), run) == f && Waits(f) && AnsweredEarly(f, IMAGE)
  {
    var r := QueuesBoth(0);
    r := OtherProves(r);
    r := OtherCollects(r);
    var run, f := Refined(r,
      Both(Shared(2, 1, 1, 0, 0, [], []), [], Thread(Outside, 0, {}, Idle, {}, [INDEX, IMAGE], NoCall),
        Thread(Outside, 0, {}, Idle, {}, [], ReturnedTrue(1))));
    assert Waits(f) && AnsweredEarly(f, IMAGE);
  }

  /** The image is in the batch of the thread that retired it. */
  predicate Waits(f: Fine) { |f.base.threads| == 2 && IMAGE in f.base.threads[0].batch }

  // ----- the batched-only collection deletes an image before its index

  lemma ListParts()
    ensures Taken([INDEX, IMAGE], 1, Batched) == [IMAGE] && Kept([INDEX, IMAGE], 1, Batched) == [INDEX]
    ensures Taken([INDEX], 2, Eager) == [INDEX] && Kept([INDEX], 2, Eager) == []
  {
    assert [INDEX, IMAGE][1..] == [IMAGE] && [IMAGE][1..] == [] && [INDEX][1..] == [];
    assert Taken([IMAGE], 1, Batched) == [IMAGE] && Kept([IMAGE], 1, Batched) == [];
  }

  lemma EighthAdvances(r0: Schedule) returns (r: Schedule)
    requires Reached(r0,
      Both(Shared(1, 0, 0, 0, 7, [], []), [], Thread(Outside, 0, {}, Idle, {}, [INDEX, IMAGE], NoCall), FRESH))
    ensures Reached(r, Both(Shared(2, 0, 0, 2, 0, [INDEX, IMAGE], []), [],
      Thread(Outside, 0, {}, Contending, {}, [], NoCall),
        Thread(Outside, 0, {}, Polling(Sync(false), 1, false), {}, [], NoCall)))
  {
    var s0 := Both(Shared(1, 0, 0, 0, 7, [], []), [], Thread(Outside, 0, {}, Idle, {}, [INDEX, IMAGE], NoCall), FRESH);
    r := r0;
    var s1 := Both(Shared(2, 0, 0, 2, 0, [], []), [], Thread(Outside, 0, {}, Idle, {}, [INDEX, IMAGE], NoCall),
      Thread(Outside, 0, {}, Polling(Sync(false), 1, false), {}, [], NoCall));
    r := Extend(r, s0, 1, SyncEnter(false), s1);
    var s2 := Both(Shared(2, 0, 0, 2, 0, [INDEX, IMAGE], []), [], Thread(Outside, 0, {}, Contending, {}, [], NoCall),
      Thread(Outside, 0, {}, Polling(Sync(false), 1, false), {}, [], NoCall));
    r := Extend(r, s1, 0, UntilEnter, s2);
  }

  lemma BatchedProves(r0: Schedule) returns (r: Schedule)
    requires Reached(r0,
      Both(Shared(2, 0, 0, 2, 0, [INDEX, IMAGE], []), [], Thread(Outside, 0, {}, Contending, {}, [], NoCall),
        Thread(Outside, 0, {}, Polling(Sync(false), 1, false), {}, [], NoCall)))
    ensures Reached(r, Both(Shared(2, 0, 0, 2, 0, [INDEX, IMAGE], []), [],
      Thread(Outside, 0, {}, Contending, {}, [], NoCall),
        Thread(Outside, 0, {}, Proven(Sync(false), 1), {}, [], NoCall)))
  {
    var s0 := Both(Shared(2, 0, 0, 2, 0, [INDEX, IMAGE], []), [], Thread(Outside, 0, {}, Contending, {}, [], NoCall),
      Thread(Outside, 0, {}, Polling(Sync(false), 1, false), {}, [], NoCall));
    r := r0;
    var s1 := Both(Shared(2, 0, 0, 2, 0, [INDEX, IMAGE], []), [], Thread(Outside, 0, {}, Contending, {}, [], NoCall),
      Thread(Outside, 0, {}, Scanning(Sync(false), 1, []), {}, [], NoCall));
    r := Extend(r, s0, 1, ScanStart, s1);
    var s2 := Both(Shared(2, 0, 0, 2, 0, [INDEX, IMAGE], []), [], Thread(Outside, 0, {}, Contending, {}, [], NoCall),
      Thread(Outside, 0, {}, Proven(Sync(false), 1), {}, [], NoCall));
    r := Extend(r, s1, 1, ScanThread, s2);
  }

  lemma BatchedCollects(r0: Schedule) returns (r: Schedule)
    requires Reached(r0,
      Both(Shared(2, 0, 0, 2, 0, [INDEX, IMAGE], []), [], Thread(Outside, 0, {}, Contending, {}, [], NoCall),
        Thread(Outside, 0, {}, Proven(Sync(false), 1), {}, [], NoCall)))
    ensures Reached(r, Both(Shared(2, 1, 0, 0, 0, [INDEX], [IMAGE]), [],
      Thread(Outside, 0, {}, Contending, {}, [], NoCall), FRESH))
  {
    ListParts();
    assert [] + [IMAGE] == [IMAGE];
    var s0 := Both(Shared(2, 0, 0, 2, 0, [INDEX, IMAGE], []), [], Thread(Outside, 0, {}, Contending, {}, [], NoCall),
      Thread(Outside, 0, {}, Proven(Sync(false), 1), {}, [], NoCall));
    r := r0;
    var s1 := Both(Shared(2, 1, 0, 0, 0, [INDEX], [IMAGE]), [], Thread(Outside, 0, {}, Contending, {}, [], NoCall),
      FRESH);
    r := Extend(r, s0, 1, Finish, s1);
  }

  lemma UntilProves(r0: Schedule) returns (r: Schedule)
    requires Reached(r0,
      Both(Shared(2, 1, 0, 0, 0, [INDEX], [IMAGE]), [], Thread(Outside, 0, {}, Contending, {}, [], NoCall), FRESH))
    ensures Reached(r, Both(Shared(3, 1, 0, 3, 0, [INDEX], [IMAGE]), [],
      Thread(Outside, 0, {}, Proven(Until, 2), {}, [], NoCall), FRESH))
  {
    assert [] + [INDEX] == [INDEX];
    var s0 := Both(Shared(2, 1, 0, 0, 0, [INDEX], [IMAGE]), [], Thread(Outside, 0, {}, Contending, {}, [], NoCall),
      FRESH);
    r := r0;
    var s1 := Both(Shared(3, 1, 0, 3, 0, [INDEX], [IMAGE]), [],
      Thread(Outside, 0, {}, Polling(Until, 2, false), {}, [], NoCall), FRESH);
    r := Extend(r, s0, 0, UntilEnter, s1);
    var s2 := Both(Shared(3, 1, 0, 3, 0, [INDEX], [IMAGE]), [],
      Thread(Outside, 0, {}, Scanning(Until, 2, []), {}, [], NoCall), FRESH);
    r := Extend(r, s1, 0, ScanStart, s2);
    var s3 := Both(Shared(3, 1, 0, 3, 0, [INDEX], [IMAGE]), [],
      Thread(Outside, 0, {}, Proven(Until, 2), {}, [], NoCall), FRESH);
    r := Extend(r, s2, 0, ScanThread, s3);
  }

  lemma UntilCollects(r0: Schedule) returns (r: Schedule)
    requires Reached(r0,
      Both(Shared(3, 1, 0, 3, 0, [INDEX], [IMAGE]), [], Thread(Outside, 0, {}, Proven(Until, 2), {}, [], NoCall),
        FRESH))
    ensures Reached(r, Both(Shared(3, 2, 2, 0, 0, [], [IMAGE, INDEX]), [],
      Thread(Outside, 0, {}, Idle, {}, [], ReturnedTrue(2)), FRESH))
  {
    ListParts();
    assert [IMAGE] + [INDEX] == [IMAGE, INDEX];
    var s0 := Both(Shared(3, 1, 0, 3, 0, [INDEX], [IMAGE]), [],
      Thread(Outside, 0, {}, Proven(Until, 2), {}, [], NoCall), FRESH);
    r := r0;
    var s1 := Both(Shared(3, 2, 2, 0, 0, [], [IMAGE, INDEX]), [],
      Thread(Outside, 0, {}, Idle, {}, [], ReturnedTrue(2)), FRESH);
    r := Extend(r, s0, 0, Finish, s1);
  }

  lemma RetirerGivesUp(r0: Schedule) returns (r: Schedule)
    requires Reached(r0,
      Both(Shared(2, 0, 0, 2, 0, [INDEX, IMAGE], []), [], Thread(Outside, 0, {}, Contending, {}, [], NoCall),
        Thread(Outside, 0, {}, Proven(Sync(false), 1), {}, [], NoCall)))
    ensures Reached(r, Both(Shared(2, 0, 0, 2, 0, [INDEX, IMAGE], []), [],
      Thread(Outside, 0, {}, Idle, {}, [], ReturnedFalse),
        Thread(Outside, 0, {}, Proven(Sync(false), 1), {}, [], NoCall)))
  {
    var s0 := Both(Shared(2, 0, 0, 2, 0, [INDEX, IMAGE], []), [], Thread(Outside, 0, {}, Contending, {}, [], NoCall),
      Thread(Outside, 0, {}, Proven(Sync(false), 1), {}, [], NoCall));
    r := r0;
    var s1 := Both(Shared(2, 0, 0, 2, 0, [INDEX, IMAGE], []), [], Thread(Outside, 0, {}, Idle, {}, [], ReturnedFalse),
      Thread(Outside, 0, {}, Proven(Sync(false), 1), {}, [], NoCall));
    r := Extend(r, s0, 0, UntilGiveUp, s1);
  }

  /** The retiring thread has published its image above the watermark and given up; another thread has the lock, has
      stored the watermark and has not reached the image: the outcome would be recorded as reclaimed. */
  ghost predicate ReadTooSoon(f: Fine) {
    && f.base.threads == [Thread(Outside, 0, {}, Idle, {}, [], ReturnedFalse),
      Thread(Outside, 0, {}, Proven(Sync(false), 1), {}, [], NoCall)]
    && IMAGE in Domain(f).retired && IMAGE !in f.late && Ahead(f, IMAGE) && AnsweredEarly(f, IMAGE)
    && ImageReclaim.Outcome(Domain(f), IMAGE.epoch, ImageReclaim.Bounded(false)) == ImageReclaim.Reclaimed
  }

  lemma CollectorCanBeRead()
    ensures exists run, f: Fine :: FineRuns(Start(2), run) && FineRun(Start(2), run) == f && ReadTooSoon(f)
  {
    var r := QueuesBoth(7);
    r := EighthAdvances(r);
    r := BatchedProves(r);
    r := RetirerGivesUp(r);
    var run, f := Refined(r,
      Both(Shared(2, 0, 0, 2, 0, [INDEX, IMAGE], []), [], Thread(Outside, 0, {}, Idle, {}, [], ReturnedFalse),
        Thread(Outside, 0, {}, Proven(Sync(false), 1), {}, [], NoCall)));
    assert MarkFits(f.base.d, f.late, IMAGE);
    var f2 := StoresMark(run, f);
    FineThen(Start(2), run, [Begin(1, Finish)] + ([StoreMark] + []));
  }

  /** From there the other thread takes the lock and stores its watermark. */
  lemma StoresMark(run: seq<FineStep>, f: Fine) returns (f2: Fine)
    requires f.base == Both(Shared(2, 0, 0, 2, 0, [INDEX, IMAGE], []), [],
      Thread(Outside, 0, {}, Idle, {}, [], ReturnedFalse),
        Thread(Outside, 0, {}, Proven(Sync(false), 1), {}, [], NoCall))
    requires f.work.None? && IMAGE !in f.late
    ensures FineRuns(f, [Begin(1, Finish)] + ([StoreMark] + []))
    ensures FineRun(f, [Begin(1, Finish)] + ([StoreMark] + [])) == f2 && ReadTooSoon(f2)
  {
    var d := Shared(2, 0, 0, 2, 0, [INDEX, IMAGE], []);
    var f1 := f.(work := Some(Work(1, Finish, 1, [], Between, [Batched], d)));
    assert f1 == FineNext(f, Begin(1, Finish));
    f2 := f.(work := Some(Work(1, Finish, 1, [], Walking(Batched, [], 0), [], d.(completed := 1))));
    assert [Batched][1..] == [];
    assert f2 == FineNext(f1, StoreMark);
    FineFirst(f1, StoreMark, []);
    FineFirst(f, Begin(1, Finish), [StoreMark] + []);
    SoonEnough(f2);
  }

  lemma SoonEnough(f: Fine)
    requires f.work.Some? && f.work.value.pass == Walking(Batched, [], 0) && f.work.value.safe == 1 && IMAGE !in f.late
    requires f.work.value.d == Shared(2, 1, 0, 2, 0, [INDEX, IMAGE], [])
    requires f.base.threads == [Thread(Outside, 0, {}, Idle, {}, [], ReturnedFalse),
      Thread(Outside, 0, {}, Proven(Sync(false), 1), {}, [], NoCall)]
    ensures ReadTooSoon(f)
  {
    assert [INDEX, IMAGE][0..] == [INDEX, IMAGE] && [INDEX, IMAGE][1] == IMAGE;
  }

  ghost predicate Faults(s: State) { ImageReclaim.Callbacks(s.d.reclaimed, |s.d.reclaimed|).fault }

  lemma ImageThenIndexFaults()
    ensures ImageReclaim.Callbacks([IMAGE, INDEX], 2).fault
  {
    var done := [IMAGE, INDEX];
    assert ImageReclaim.Callbacks(done, 1).deleted == {0} by { assert ImageReclaim.Callbacks(done, 0).deleted == {}; }
  }

  /** A bounded `retire_image` that loses the advancement to the eighth `synchronize()` of another thread: that call
      deletes the image, and the retiring thread's own collection then runs `reclaim_index` inside it. */
  lemma BatchedSyncCanFault()
    ensures exists r, s :: Reached(r, s) && Faults(s)
  {
    var r := QueuesBoth(7);
    r := EighthAdvances(r);
    r := BatchedProves(r);
    r := BatchedCollects(r);
    r := UntilProves(r);
    r := UntilCollects(r);
    ImageThenIndexFaults();
  }

  // ----- so does try_collect when the eager watermark is already there

  lemma EagerProves(r0: Schedule) returns (r: Schedule)
    requires Reached(r0,
      Both(Shared(1, 0, 0, 0, 0, [], []), [], Thread(Outside, 0, {}, Idle, {}, [INDEX, IMAGE], NoCall), FRESH))
    ensures Reached(r, Both(Shared(2, 0, 0, 2, 0, [], []), [],
      Thread(Outside, 0, {}, Idle, {}, [INDEX, IMAGE], NoCall),
        Thread(Outside, 0, {}, Proven(Sync(true), 1), {}, [], NoCall)))
  {
    var s0 := Both(Shared(1, 0, 0, 0, 0, [], []), [], Thread(Outside, 0, {}, Idle, {}, [INDEX, IMAGE], NoCall), FRESH);
    r := r0;
    var s1 := Both(Shared(2, 0, 0, 2, 0, [], []), [], Thread(Outside, 0, {}, Idle, {}, [INDEX, IMAGE], NoCall),
      Thread(Outside, 0, {}, Polling(Sync(true), 1, false), {}, [], NoCall));
    r := Extend(r, s0, 1, SyncEnter(true), s1);
    var s2 := Both(Shared(2, 0, 0, 2, 0, [], []), [], Thread(Outside, 0, {}, Idle, {}, [INDEX, IMAGE], NoCall),
      Thread(Outside, 0, {}, Scanning(Sync(true), 1, []), {}, [], NoCall));
    r := Extend(r, s1, 1, ScanStart, s2);
    var s3 := Both(Shared(2, 0, 0, 2, 0, [], []), [], Thread(Outside, 0, {}, Idle, {}, [INDEX, IMAGE], NoCall),
      Thread(Outside, 0, {}, Proven(Sync(true), 1), {}, [], NoCall));
    r := Extend(r, s2, 1, ScanThread, s3);
  }

  lemma EagerCollects(r0: Schedule) returns (r: Schedule)
    requires Reached(r0,
      Both(Shared(2, 0, 0, 2, 0, [], []), [], Thread(Outside, 0, {}, Idle, {}, [INDEX, IMAGE], NoCall),
        Thread(Outside, 0, {}, Proven(Sync(true), 1), {}, [], NoCall)))
    ensures Reached(r, Both(Shared(2, 0, 1, 0, 0, [], []), [],
      Thread(Outside, 0, {}, Idle, {}, [INDEX, IMAGE], NoCall), FRESH))
  {
    var s0 := Both(Shared(2, 0, 0, 2, 0, [], []), [], Thread(Outside, 0, {}, Idle, {}, [INDEX, IMAGE], NoCall),
      Thread(Outside, 0, {}, Proven(Sync(true), 1), {}, [], NoCall));
    r := r0;
    var s1 := Both(Shared(2, 0, 1, 0, 0, [], []), [], Thread(Outside, 0, {}, Idle, {}, [INDEX, IMAGE], NoCall), FRESH);
    r := Extend(r, s0, 1, Finish, s1);
  }

  lemma ReaderRegisters(r0: Schedule) returns (r: Schedule)
    requires Reached(r0,
      Both(Shared(2, 0, 1, 0, 0, [], []), [], Thread(Outside, 0, {}, Idle, {}, [INDEX, IMAGE], NoCall), FRESH))
    ensures Reached(r, Both(Shared(2, 0, 1, 0, 0, [], []), [1],
      Thread(Outside, 0, {}, Idle, {}, [INDEX, IMAGE], NoCall), FRESH))
  {
    assert [1] + [] == [1];
    var s0 := Both(Shared(2, 0, 1, 0, 0, [], []), [], Thread(Outside, 0, {}, Idle, {}, [INDEX, IMAGE], NoCall), FRESH);
    r := r0;
    var s1 := Both(Shared(2, 0, 1, 0, 0, [], []), [1], Thread(Outside, 0, {}, Idle, {}, [INDEX, IMAGE], NoCall), FRESH);
    r := Extend(r, s0, 1, Register, s1);
  }

  lemma ReaderEnters(r0: Schedule) returns (r: Schedule)
    requires Reached(r0,
      Both(Shared(2, 0, 1, 0, 0, [], []), [1], Thread(Outside, 0, {}, Idle, {}, [INDEX, IMAGE], NoCall), FRESH))
    ensures Reached(r, Both(Shared(2, 0, 1, 0, 0, [], []), [1],
      Thread(Outside, 0, {}, Idle, {}, [INDEX, IMAGE], NoCall), Thread(Inside, 2, {}, Idle, {}, [], NoCall)))
  {
    var s0 := Both(Shared(2, 0, 1, 0, 0, [], []), [1], Thread(Outside, 0, {}, Idle, {}, [INDEX, IMAGE], NoCall), FRESH);
    r := r0;
    var s1 := Both(Shared(2, 0, 1, 0, 0, [], []), [1], Thread(Outside, 0, {}, Idle, {}, [INDEX, IMAGE], NoCall),
      Thread(Loaded(2), 0, {}, Idle, {}, [], NoCall));
    r := Extend(r, s0, 1, LoadEpoch, s1);
    var s2 := Both(Shared(2, 0, 1, 0, 0, [], []), [1], Thread(Outside, 0, {}, Idle, {}, [INDEX, IMAGE], NoCall),
      Thread(Inside, 2, {}, Idle, {}, [], NoCall));
    r := Extend(r, s1, 1, StoreEpoch, s2);
  }

  lemma TryScans(r0: Schedule) returns (r: Schedule)
    requires Reached(r0,
      Both(Shared(2, 0, 1, 0, 0, [], []), [1], Thread(Outside, 0, {}, Idle, {}, [INDEX, IMAGE], NoCall),
        Thread(Inside, 2, {}, Idle, {}, [], NoCall)))
    ensures Reached(r, Both(Shared(2, 0, 1, 0, 0, [INDEX, IMAGE], []), [1],
      Thread(Outside, 0, {}, TryScan(2, 2, []), {}, [], NoCall), Thread(Inside, 2, {}, Idle, {}, [], NoCall)))
  {
    assert [INDEX, IMAGE] + [] == [INDEX, IMAGE] && [1][1..] == [];
    var s0 := Both(Shared(2, 0, 1, 0, 0, [], []), [1], Thread(Outside, 0, {}, Idle, {}, [INDEX, IMAGE], NoCall),
      Thread(Inside, 2, {}, Idle, {}, [], NoCall));
    r := r0;
    var s1 := Both(Shared(2, 0, 1, 0, 0, [INDEX, IMAGE], []), [1], Thread(Outside, 0, {}, TryStart(2), {}, [], NoCall),
      Thread(Inside, 2, {}, Idle, {}, [], NoCall));
    r := Extend(r, s0, 0, TryEnter, s1);
    var s2 := Both(Shared(2, 0, 1, 0, 0, [INDEX, IMAGE], []), [1],
      Thread(Outside, 0, {}, TryScan(2, 2, [1]), {}, [], NoCall), Thread(Inside, 2, {}, Idle, {}, [], NoCall));
    r := Extend(r, s1, 0, TryScanStart, s2);
    var s3 := Both(Shared(2, 0, 1, 0, 0, [INDEX, IMAGE], []), [1],
      Thread(Outside, 0, {}, TryScan(2, 2, []), {}, [], NoCall), Thread(Inside, 2, {}, Idle, {}, [], NoCall));
    r := Extend(r, s2, 0, TryScanThread, s3);
  }

  lemma TryCollects(r0: Schedule) returns (r: Schedule)
    requires Reached(r0,
      Both(Shared(2, 0, 1, 0, 0, [INDEX, IMAGE], []), [1], Thread(Outside, 0, {}, TryScan(2, 2, []), {}, [], NoCall),
        Thread(Inside, 2, {}, Idle, {}, [], NoCall)))
    ensures Reached(r, Both(Shared(2, 1, 1, 0, 0, [INDEX], [IMAGE]), [1], FRESH,
      Thread(Inside, 2, {}, Idle, {}, [], NoCall)))
  {
    ListParts();
    assert [] + [IMAGE] == [IMAGE];
    var s0 := Both(Shared(2, 0, 1, 0, 0, [INDEX, IMAGE], []), [1],
      Thread(Outside, 0, {}, TryScan(2, 2, []), {}, [], NoCall), Thread(Inside, 2, {}, Idle, {}, [], NoCall));
    r := r0;
    var s1 := Both(Shared(2, 1, 1, 0, 0, [INDEX], [IMAGE]), [1], FRESH, Thread(Inside, 2, {}, Idle, {}, [], NoCall));
    r := Extend(r, s0, 0, TryFinish, s1);
  }

  /** The image is gone and its index waits. */
  lemma ImageFirst(s: State)
    requires s.d.reclaimed == [IMAGE] && s.d.retired == [INDEX] && s.ever == [INDEX, IMAGE]
    ensures OutOfOrder(s, 0) && HasObj(s.d.retired, IndexOf(0))
  {
    assert s.ever[0].obj == IndexOf(0) && s.d.retired[0].obj == IndexOf(0) && s.d.reclaimed[0].obj == ImageOf(0);
    assert !ImageReclaim.Seen(s.d.reclaimed, 0, IndexOf(0));
  }

  /** A collection of both classes can delete an image before its index too: the eager one returns at its watermark,
      which an eager synchronize call raised while the batch was unpublished. */
  lemma TryCollectCanBreakOrder()
    ensures exists r, s :: Reached(r, s) && OutOfOrder(s, 0) && HasObj(s.d.retired, IndexOf(0))
  {
    var r := QueuesBoth(0);
    r := EagerProves(r);
    r := EagerCollects(r);
    r := ReaderRegisters(r);
    r := ReaderEnters(r);
    r := TryScans(r);
    r := TryCollects(r);
    ImageFirst(Both(Shared(2, 1, 1, 0, 0, [INDEX], [IMAGE]), [1], FRESH, Thread(Inside, 2, {}, Idle, {}, [], NoCall)));
  }
}
