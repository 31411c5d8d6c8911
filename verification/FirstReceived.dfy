/**
  Which of two taps survives (deduplication.service.ts, "first received wins").

  A job marks its own row towards the earliest other survivor in the window, and that survivor
  may be later than the row itself.
*/
module FirstReceived {
  import opened Basics
  import opened Checkins
  import opened Deduplication

  // ---------------------------------------------------------------------------
  // "First received wins" holds exactly when jobs meet an older row
  // ---------------------------------------------------------------------------

  /** The intent stated beside the service: a marked row points at one received no later. */
  ghost predicate FirstReceivedWins(rows: seq<Checkin>, id: Id, pick: Option<Id>)
    requires id < |rows|
  {
    pick.Some? && pick.value < |rows| ==> rows[pick.value].createdAt <= rows[id].createdAt
  }

  /** One job keeps the older row iff some older survivor is in the window or none is. */
  lemma {:induction false} FirstReceivedWinsIff(env: Env, rows: seq<Checkin>, id: Id, pick: Option<Id>)
    requires id < |rows| && LegalPick(env, rows, id, rows[id], pick)
    ensures FirstReceivedWins(rows, id, pick) <==>
              ((exists c: Id :: Candidate(env, rows, id, rows[id], c) && rows[c].createdAt <= rows[id].createdAt)
               || forall c: Id :: !Candidate(env, rows, id, rows[id], c))
  {
    if pick.Some? {
      assert Candidate(env, rows, id, rows[id], pick.value);
    }
  }

  // ---------------------------------------------------------------------------
  // Two runs in which the first received loses
  // ---------------------------------------------------------------------------

  const TapKey := Key(0, 0, 0, None)
  const FirstTap := Checkin(TapKey, 0, 0, false, None)
  const SecondTap := Checkin(TapKey, 1000, 1, false, None)
  const StoreFirst := Insert(TapKey, 0, 0)
  const StoreSecond := Insert(TapKey, 1000, 1)

  /** Both taps are stored before either job runs, and the first tap's own job runs first: it
      meets only the later tap, so the first received is marked and the later one survives. */
  lemma {:induction false} FirstReceivedCanLose(env: Env)
    ensures var t := RunFrom(env, Start, [StoreFirst, StoreSecond] + JobEvents(0, Some(1)) + JobEvents(1, None));
            && t.rows == [FirstTap.(isDuplicate := true, duplicateOf := Some(1)), SecondTap]
            && t.done == {0, 1}
  {
    var stored := RunFrom(env, Start, [StoreFirst, StoreSecond]);
    RunSplits(env, Start, [StoreFirst], [StoreSecond]);
    assert [StoreFirst] + [StoreSecond] == [StoreFirst, StoreSecond];
    SingleEvent(env, Start, StoreFirst);
    SingleEvent(env, Step(env, Start, StoreFirst), StoreSecond);
    assert stored.rows == [FirstTap, SecondTap];
    assert Candidate(env, stored.rows, 0, FirstTap, 1);
    SerialJobIsARun(env, stored, 0, 0, Some(1));
    RunSplits(env, Start, [StoreFirst, StoreSecond], JobEvents(0, Some(1)));
    var marked := RunFrom(env, stored, JobEvents(0, Some(1)));
    assert marked.rows == [FirstTap.(isDuplicate := true, duplicateOf := Some(1)), SecondTap];
    SerialJobIsARun(env, marked, 0, 1, None);
    RunSplits(env, Start, [StoreFirst, StoreSecond] + JobEvents(0, Some(1)), JobEvents(1, None));
  }

  /** Running the first tap's job before the second is even stored is not enough: a redelivery
      of that job searches again and then meets the later tap. */
  lemma {:induction false} RedeliveryCanUnseatTheFirst(env: Env)
    ensures var t := RunFrom(env, Start, [StoreFirst] + JobEvents(0, None) + [StoreSecond] + JobEvents(0, Some(1)));
            t.rows == [FirstTap.(isDuplicate := true, duplicateOf := Some(1)), SecondTap]
  {
    var stored := Step(env, Start, StoreFirst);
    SingleEvent(env, Start, StoreFirst);
    assert stored.rows == [FirstTap];
    SerialJobIsARun(env, stored, 0, 0, None);
    RunSplits(env, Start, [StoreFirst], JobEvents(0, None));
    var settled := RunFrom(env, stored, JobEvents(0, None));
    var both := Step(env, settled, StoreSecond);
    RunSplits(env, Start, [StoreFirst] + JobEvents(0, None), [StoreSecond]);
    SingleEvent(env, settled, StoreSecond);
    assert both.rows == [FirstTap, SecondTap];
    assert forall v :: WorkerOf(both, v) == WorkerOf(settled, v);
    assert Candidate(env, both.rows, 0, FirstTap, 1);
    SerialJobIsARun(env, both, 0, 0, Some(1));
    RunSplits(env, Start, [StoreFirst] + JobEvents(0, None) + [StoreSecond], JobEvents(0, Some(1)));
  }

  // ---------------------------------------------------------------------------
  // An order of searches under which it never does
  // ---------------------------------------------------------------------------

  /** A row of the same key, later created and inside the window of row `id`. */
  predicate LaterInWindow(env: Env, rows: seq<Checkin>, id: Id, j: Id)
    requires id < |rows|
  {
    && j < |rows| && rows[j].key == rows[id].key && rows[j].createdAt > rows[id].createdAt
    && Abs(rows[j].at - rows[id].at) <= WindowMs(env.codes, rows[id].key.factor)
  }

  /** Event `e` runs the search of a job for row `id`. */
  predicate Searches(s: State, e: Event, id: Id) {
    e.Find? && WorkerOf(s, e.w).Locked? && WorkerOf(s, e.w).id == id && id < |s.rows|
  }

  /** The search about to run meets a later-created row in the window only when the jobs of both
      rows have committed before. */
  ghost predicate MeetsOnlySettled(env: Env, s: State, e: Event) {
    forall id: Id, j: Id :: Searches(s, e, id) && LaterInWindow(env, s.rows, id, j) ==> id in s.done && j in s.done
  }

  /** And then the searching row is still unmarked: no overlapping delivery of its own job has
      marked it since it was loaded. */
  ghost predicate SearchesInOrder(env: Env, s: State, e: Event) {
    && MeetsOnlySettled(env, s, e)
    && forall id: Id, j: Id :: Searches(s, e, id) && LaterInWindow(env, s.rows, id, j) ==> !s.rows[id].isDuplicate
  }

  ghost predicate RunsInOrder(env: Env, es: seq<Event>)
    decreases |es|
  {
    es == [] || (RunsInOrder(env, es[..|es| - 1]) && SearchesInOrder(env, RunFrom(env, Start, es[..|es| - 1]), es[|es| - 1]))
  }

  /** Every mark, published or about to be, points at a row created no later. */
  ghost predicate MarksPointBack(s: State) {
    && (forall i :: 0 <= i < |s.rows| ==> FirstReceivedWins(s.rows, i, s.rows[i].duplicateOf))
    && (forall w :: WorkerOf(s, w).Found? && WorkerOf(s, w).id < |s.rows| ==>
          FirstReceivedWins(s.rows, WorkerOf(s, w).id, WorkerOf(s, w).pick))
  }

  lemma {:induction false} OrderlyFindPointsBack(env: Env, s: State, e: Event)
    requires Inv(env, s) && SearchesInOrder(env, s, e) && e.Find? && WorkerOf(s, e.w).Locked?
    requires LegalPick(env, s.rows, WorkerOf(s, e.w).id, WorkerOf(s, e.w).row, e.pick)
    ensures WorkerOf(s, e.w).id < |s.rows| && FirstReceivedWins(s.rows, WorkerOf(s, e.w).id, e.pick)
  {
    var me := WorkerOf(s, e.w);
    assert WorkerOk(env, s, e.w);
    assert Searches(s, e, me.id);
    if e.pick.Some? {
      assert Candidate(env, s.rows, me.id, me.row, e.pick.value);
      assert LaterInWindow(env, s.rows, me.id, e.pick.value) <==> s.rows[e.pick.value].createdAt > s.rows[me.id].createdAt;
    }
  }

  lemma {:induction false} WinningStaysWinning(a: seq<Checkin>, b: seq<Checkin>, id: Id, pick: Option<Id>)
    requires OnlyMarks(a, b) && id < |a| && (pick.Some? ==> pick.value < |a|) && FirstReceivedWins(a, id, pick)
    ensures FirstReceivedWins(b, id, pick)
  {
  }

  lemma {:induction false} StepPointsBack(env: Env, s: State, e: Event)
    requires Inv(env, s) && MarksPointBack(s) && SearchesInOrder(env, s, e)
    ensures MarksPointBack(Step(env, s, e))
  {
    var t := Step(env, s, e);
    StepMarks(env, s, e);
    forall i | 0 <= i < |t.rows| ensures FirstReceivedWins(t.rows, i, t.rows[i].duplicateOf) {
      if t.rows[i].duplicateOf.Some? {
        if e.Commit? { assert WorkerOk(env, s, e.w); }
        WinningStaysWinning(s.rows, t.rows, i, t.rows[i].duplicateOf);
      }
    }
    forall w | WorkerOf(t, w).Found? && WorkerOf(t, w).id < |t.rows|
      ensures FirstReceivedWins(t.rows, WorkerOf(t, w).id, WorkerOf(t, w).pick)
    {
      assert WorkerOk(env, s, w);
      if WorkerOf(s, w).Locked? {
        OrderlyFindPointsBack(env, s, e);
        assert WorkerOf(t, w).pick.Some? ==> Candidate(env, s.rows, WorkerOf(s, w).id, WorkerOf(s, w).row, WorkerOf(t, w).pick.value);
      }
      WinningStaysWinning(s.rows, t.rows, WorkerOf(t, w).id, WorkerOf(t, w).pick);
    }
  }

  /** Where searches run in order, the first received wins in every run: no row is ever marked
      towards a later-created one, redeliveries of unmarked rows' jobs included. */
  lemma {:induction false} OrderlyRunsKeepTheFirst(env: Env, es: seq<Event>)
    requires RunsInOrder(env, es)
    ensures MarksPointBack(RunFrom(env, Start, es))
    decreases |es|
  {
    if es != [] {
      var init := es[..|es| - 1];
      OrderlyRunsKeepTheFirst(env, init);
      EveryRunIsSound(env, init);
      StepPointsBack(env, RunFrom(env, Start, init), es[|es| - 1]);
    }
  }

  // ---------------------------------------------------------------------------
  // The searching row has to be unmarked
  // ---------------------------------------------------------------------------

  ghost predicate AllSettled(env: Env, s: State, es: seq<Event>)
    decreases |es|
  {
    es == [] || (AllSettled(env, s, es[..|es| - 1]) && MeetsOnlySettled(env, RunFrom(env, s, es[..|es| - 1]), es[|es| - 1]))
  }

  lemma {:induction false} SettledSplits(env: Env, s: State, a: seq<Event>, b: seq<Event>)
    requires AllSettled(env, s, a) && AllSettled(env, RunFrom(env, s, a), b)
    ensures AllSettled(env, s, a + b)
    decreases |b|
  {
    if b == [] {
      assert a + b == a;
    } else {
      var init := b[..|b| - 1];
      assert (a + b)[..|a + b| - 1] == a + init;
      SettledSplits(env, s, a, init);
      RunSplits(env, s, a, init);
    }
  }

  lemma {:induction false} OneIsSettled(env: Env, s: State, e: Event)
    requires MeetsOnlySettled(env, s, e)
    ensures AllSettled(env, s, [e])
  {
    assert [e][..0] == [];
    assert AllSettled(env, s, [e][..0]) && RunFrom(env, s, [e][..0]) == s;
  }

  /** One more part of a run all of whose searches meet only settled rows. */
  lemma {:induction false} Extend(env: Env, es: seq<Event>, more: seq<Event>)
    requires AllSettled(env, Start, es) && AllSettled(env, RunFrom(env, Start, es), more)
    ensures AllSettled(env, Start, es + more)
    ensures RunFrom(env, Start, es + more) == RunFrom(env, RunFrom(env, Start, es), more)
  {
    SettledSplits(env, Start, es, more);
    RunSplits(env, Start, es, more);
  }

  lemma {:induction false} JobSearches(env: Env, s: State, id: Id, pick: Option<Id>)
    requires WorkerOf(s, 0).Idle? && forall v :: !HoldsLock(s, v)
    requires id < |s.rows| && !s.rows[id].isDuplicate && LegalPick(env, s.rows, id, s.rows[id], pick)
    requires forall j: Id :: LaterInWindow(env, s.rows, id, j) ==> id in s.done && j in s.done
    ensures AllSettled(env, s, JobEvents(id, pick))
  {
    var opening := [Load(0, id), Lock(0)];
    JobReachesSearch(env, s, 0, id);
    var locked := RunFrom(env, s, opening);
    assert opening[..1] == [Load(0, id)] && [Load(0, id)][..0] == [];
    assert AllSettled(env, s, [Load(0, id)][..0]);
    assert AllSettled(env, s, [Load(0, id)]);
    assert AllSettled(env, s, opening);
    OneIsSettled(env, locked, Find(0, pick));
    SettledSplits(env, s, opening, [Find(0, pick)]);
    var found := RunFrom(env, s, opening + [Find(0, pick)]);
    OneIsSettled(env, found, Commit(0));
    SettledSplits(env, s, opening + [Find(0, pick)], [Commit(0)]);
    assert opening + [Find(0, pick)] + [Commit(0)] == JobEvents(id, pick);
  }

  const TapE := Checkin(TapKey, 8000, 1, false, None)
  const TapA := Checkin(TapKey, 16000, 2, false, None)
  const TapF := Checkin(TapKey, 0, 0, false, None)
  const TapJ := Checkin(TapKey, 20000, 3, false, None)

  function Store(tap: Checkin): Event {
    Insert(tap.key, tap.at, tap.createdAt)
  }

  function Marked(tap: Checkin, canonical: Id): Checkin {
    tap.(isDuplicate := true, duplicateOf := Some(canonical))
  }

  /** The run so far: searches met only settled rows, and no transaction is open but, when
      `stale`, worker 1's with A as it was first stored. */
  ghost predicate Reached(env: Env, es: seq<Event>, rows: seq<Checkin>, done: set<Id>, stale: bool) {
    && AllSettled(env, Start, es)
    && RunFrom(env, Start, es).rows == rows && RunFrom(env, Start, es).done == done
    && forall v :: WorkerOf(RunFrom(env, Start, es), v) == if stale && v == 1 then Loaded(1, TapA) else Idle
  }

  lemma {:induction false} ThenStore(env: Env, es: seq<Event>, rows: seq<Checkin>, done: set<Id>, stale: bool, tap: Checkin)
    requires Reached(env, es, rows, done, stale) && !tap.isDuplicate && tap.duplicateOf.None?
    ensures Reached(env, es + [Store(tap)], rows + [tap], done, stale)
  {
    var s := RunFrom(env, Start, es);
    OneIsSettled(env, s, Store(tap));
    SingleEvent(env, s, Store(tap));
    Extend(env, es, [Store(tap)]);
    assert forall v :: WorkerOf(Step(env, s, Store(tap)), v) == WorkerOf(s, v);
  }

  lemma {:induction false} ThenJob(
      env: Env, es: seq<Event>, rows: seq<Checkin>, done: set<Id>, stale: bool, id: Id, pick: Option<Id>)
    requires Reached(env, es, rows, done, stale)
    requires id < |rows| && !rows[id].isDuplicate && LegalPick(env, rows, id, rows[id], pick)
    requires forall j: Id :: LaterInWindow(env, rows, id, j) ==> id in done && j in done
    ensures Reached(env, es + JobEvents(id, pick), Mark(rows, id, pick), done + {id}, stale)
  {
    var s := RunFrom(env, Start, es);
    assert WorkerOf(s, 0).Idle? && forall v :: !HoldsLock(s, v);
    JobSearches(env, s, id, pick);
    SerialJobIsARun(env, s, 0, id, pick);
    Extend(env, es, JobEvents(id, pick));
  }

  lemma {:induction false} ThenStaleLoad(env: Env, es: seq<Event>, rows: seq<Checkin>, done: set<Id>)
    requires Reached(env, es, rows, done, false) && |rows| == 2 && rows[1] == TapA
    ensures Reached(env, es + [Load(1, 1)], rows, done, true)
  {
    var s := RunFrom(env, Start, es);
    OneIsSettled(env, s, Load(1, 1));
    SingleEvent(env, s, Load(1, 1));
    Extend(env, es, [Load(1, 1)]);
    assert forall v :: v != 1 ==> WorkerOf(With(s, 1, Loaded(1, TapA)), v) == WorkerOf(s, v);
  }

  /** Worker 1 searches and commits from its stale copy. */
  lemma {:induction false} ThenResume(env: Env, es: seq<Event>, rows: seq<Checkin>, done: set<Id>, pick: Id)
    requires Reached(env, es, rows, done, true) && |rows| > 1 && LegalPick(env, rows, 1, TapA, Some(pick))
    requires forall j: Id :: LaterInWindow(env, rows, 1, j) ==> 1 in done && j in done
    ensures AllSettled(env, Start, es + Resume(pick))
    ensures RunFrom(env, Start, es + Resume(pick)).rows == Mark(rows, 1, Some(pick))
  {
    var s := RunFrom(env, Start, es);
    assert WorkerOf(s, 1) == Loaded(1, TapA) && forall v :: !HoldsLock(s, v);
    OneIsSettled(env, s, Lock(1));
    SingleEvent(env, s, Lock(1));
    Extend(env, es, [Lock(1)]);
    var locked := With(s, 1, Locked(1, TapA));
    assert Step(env, s, Lock(1)) == locked;
    OneIsSettled(env, locked, Find(1, Some(pick)));
    SingleEvent(env, locked, Find(1, Some(pick)));
    Extend(env, es + [Lock(1)], [Find(1, Some(pick))]);
    var found := Step(env, locked, Find(1, Some(pick)));
    OneIsSettled(env, found, Commit(1));
    SingleEvent(env, found, Commit(1));
    Extend(env, es + [Lock(1)] + [Find(1, Some(pick))], [Commit(1)]);
    assert es + [Lock(1)] + [Find(1, Some(pick))] + [Commit(1)] == es + Resume(pick);
  }

  function Resume(pick: Id): seq<Event> {
    [Lock(1), Find(1, Some(pick)), Commit(1)]
  }

  /** E and A are stored; worker 1 loads A; worker 0 marks A towards E. */
  const StaleLoad: seq<Event> := [] + [Store(TapE)] + JobEvents(0, None) + [Store(TapA)] + [Load(1, 1)] + JobEvents(1, Some(0))

  /** F, created first, arrives late; a redelivery marks E towards it; J is stored and settles. */
  const Unseat: seq<Event> := StaleLoad + [Store(TapF)] + JobEvents(0, Some(2)) + [Store(TapJ)] + JobEvents(3, None)

  /** A point-in-time factor, whose window is ten seconds. */
  ghost predicate TenSeconds(env: Env) {
    WindowMs(env.codes, TapKey.factor) == POINT_IN_TIME_WINDOW_MS
  }

  lemma {:induction false} NothingYet(env: Env)
    ensures Reached(env, [], [], {}, false)
  {
    assert RunFrom(env, Start, []) == Start;
  }

  lemma {:induction false} StaleLoadRuns(env: Env)
    requires TenSeconds(env)
    ensures Reached(env, StaleLoad, [TapE, Marked(TapA, 0)], {0, 1}, true)
  {
    NothingYet(env);
    ThenStore(env, [], [], {}, false, TapE);
    assert [] + [TapE] == [TapE];
    ThenJob(env, [] + [Store(TapE)], [TapE], {}, false, 0, None);
    var settled := [] + [Store(TapE)] + JobEvents(0, None);
    ThenStore(env, settled, [TapE], {0}, false, TapA);
    assert [TapE] + [TapA] == [TapE, TapA];
    ThenStaleLoad(env, settled + [Store(TapA)], [TapE, TapA], {0});
    assert Candidate(env, [TapE, TapA], 1, TapA, 0);
    ThenJob(env, settled + [Store(TapA)] + [Load(1, 1)], [TapE, TapA], {0}, true, 1, Some(0));
    assert Mark([TapE, TapA], 1, Some(0)) == [TapE, Marked(TapA, 0)];
  }

  lemma {:induction false} UnseatRuns(env: Env)
    requires TenSeconds(env)
    ensures Reached(env, Unseat, [Marked(TapE, 2), Marked(TapA, 0), TapF, TapJ], {0, 1, 3}, true)
  {
    StaleLoadRuns(env);
    ThenStore(env, StaleLoad, [TapE, Marked(TapA, 0)], {0, 1}, true, TapF);
    var three := [TapE, Marked(TapA, 0), TapF];
    assert [TapE, Marked(TapA, 0)] + [TapF] == three;
    assert Candidate(env, three, 0, TapE, 2);
    ThenJob(env, StaleLoad + [Store(TapF)], three, {0, 1}, true, 0, Some(2));
    var unseated := [Marked(TapE, 2), Marked(TapA, 0), TapF];
    assert Mark(three, 0, Some(2)) == unseated && {0, 1} + {0} == {0, 1};
    var es := StaleLoad + [Store(TapF)] + JobEvents(0, Some(2));
    ThenStore(env, es, unseated, {0, 1}, true, TapJ);
    var four := [Marked(TapE, 2), Marked(TapA, 0), TapF, TapJ];
    assert unseated + [TapJ] == four;
    ThenJob(env, es + [Store(TapJ)], four, {0, 1}, true, 3, None);
    assert {0, 1} + {3} == {0, 1, 3};
  }

  /** Settled neighbours are not enough: a second delivery that loaded A before its twin marked
      it searches on, and marks A towards the later J, though both their jobs had committed and
      every search of the run met only settled rows. */
  lemma {:induction false} StaleSearchCanMarkForward(env: Env)
    requires TenSeconds(env)
    ensures AllSettled(env, Start, Unseat + Resume(3))
    ensures RunFrom(env, Start, Unseat + Resume(3)).rows == [Marked(TapE, 2), Marked(TapA, 3), TapF, TapJ]
    ensures TapJ.createdAt > TapA.createdAt
  {
    UnseatRuns(env);
    var four := [Marked(TapE, 2), Marked(TapA, 0), TapF, TapJ];
    assert Candidate(env, four, 1, TapA, 3);
    ThenResume(env, Unseat, four, {0, 1, 3}, 3);
    assert Mark(four, 1, Some(3)) == [Marked(TapE, 2), Marked(TapA, 3), TapF, TapJ];
  }
}
