/**
  Windowed duplicate marking (deduplication.service.ts).

  Each job is one transaction: an unlocked read of its own row, an advisory lock on a
  hash of the correlation key, a search for a surviving row inside the window, and a
  commit that publishes the mark. `Step` interleaves any number of such transactions
  at statement granularity; an event that cannot happen (a lock that is taken, a stale
  choice) leaves the state as it is.
*/
module Deduplication {
  import opened Basics
  import opened Checkins

  const STATE_TRANSITION_WINDOW_MS := 2000
  const POINT_IN_TIME_WINDOW_MS := 10000

  /** The factor table and the (arbitrary, possibly colliding) advisory-lock hash. */
  datatype Env = Env(codes: FactorCodes, hash: Key -> int)

  function WindowMs(codes: FactorCodes, factor: Id): (w: nat) {
    if factor in codes && (codes[factor] == ROOM_ENTRY || codes[factor] == ROOM_EXIT)
    then STATE_TRANSITION_WINDOW_MS
    else POINT_IN_TIME_WINDOW_MS
  }

  /** A row the search may return for the check-in `row` stored under `id`. */
  predicate Candidate(env: Env, rows: seq<Checkin>, id: Id, row: Checkin, c: Id) {
    && c < |rows|
    && c != id
    && rows[c].key == row.key
    && !rows[c].isDuplicate
    && Abs(rows[c].at - row.at) <= WindowMs(env.codes, row.key.factor)
  }

  /** What `ORDER BY created_at LIMIT 1` may answer; rows created together tie. */
  ghost predicate LegalPick(env: Env, rows: seq<Checkin>, id: Id, row: Checkin, pick: Option<Id>) {
    match pick
    case None => forall c: Id :: !Candidate(env, rows, id, row, c)
    case Some(c) =>
      && Candidate(env, rows, id, row, c)
      && forall d: Id :: Candidate(env, rows, id, row, d) ==> rows[c].createdAt <= rows[d].createdAt
  }

  function Mark(rows: seq<Checkin>, id: Id, pick: Option<Id>): seq<Checkin>
    requires id < |rows|
  {
    if pick.Some? then rows[id := rows[id].(isDuplicate := true, duplicateOf := pick)] else rows
  }

  /** Room entries and exits, whatever their factor's id. */
  predicate IsRoomFactor(codes: FactorCodes, factor: Id) {
    factor in codes && (codes[factor] == "ROOM_ENTRY" || codes[factor] == "ROOM_EXIT")
  }

  /** Times at most two seconds apart for a room factor, at most ten for any other. */
  predicate TapsTogether(codes: FactorCodes, factor: Id, a: int, b: int) {
    if IsRoomFactor(codes, factor) then -2000 <= a - b <= 2000 else -10000 <= a - b <= 10000
  }

  lemma {:induction false} WindowIsFixed(codes: FactorCodes, factor: Id, a: int, b: int)
    ensures Abs(a - b) <= WindowMs(codes, factor) <==> TapsTogether(codes, factor, a, b)
  {
  }

  // ---------------------------------------------------------------------------
  // The service, one call at a time
  // ---------------------------------------------------------------------------

  class DeduplicationService {
    const env: Env
    var rows: seq<Checkin>

    constructor (env: Env)
      ensures this.env == env && rows == []
    {
      this.env := env;
      rows := [];
    }

    method Deduplicate(id: Id)
      modifies this`rows
      ensures |old(rows)| <= id || old(rows)[id].isDuplicate ==> rows == old(rows)
      ensures id < |old(rows)| && !old(rows)[id].isDuplicate ==>
                exists pick :: LegalPick(env, old(rows), id, old(rows)[id], pick) && rows == Mark(old(rows), id, pick)
      ensures |rows| == |old(rows)| && forall i :: 0 <= i < |rows| && i != id ==> rows[i] == old(rows)[i]
      ensures id < |rows| ==> rows[id].key == old(rows)[id].key && rows[id].at == old(rows)[id].at
                              && rows[id].createdAt == old(rows)[id].createdAt
      ensures id < |old(rows)| && !old(rows)[id].isDuplicate ==>
                (rows[id].isDuplicate <==>
                   exists c :: 0 <= c < |old(rows)| && c != id && old(rows)[c].key == old(rows)[id].key && !old(rows)[c].isDuplicate
                               && TapsTogether(env.codes, old(rows)[id].key.factor, old(rows)[c].at, old(rows)[id].at))
      ensures id < |old(rows)| && !old(rows)[id].isDuplicate && rows[id].isDuplicate ==>
                && rows[id].duplicateOf.Some? && rows[id].duplicateOf.value < |old(rows)|
                && var canonical := old(rows)[rows[id].duplicateOf.value];
                   && rows[id].duplicateOf.value != id && canonical.key == old(rows)[id].key && !canonical.isDuplicate
                   && TapsTogether(env.codes, canonical.key.factor, canonical.at, old(rows)[id].at)
    {
      if |rows| <= id || rows[id].isDuplicate {
        return;
      }
      var canonical := FindCanonicalWithinWindow(id, rows[id]);
      forall c: Id | c < |rows| ensures Candidate(env, rows, id, rows[id], c) <==>
          c != id && rows[c].key == rows[id].key && !rows[c].isDuplicate
          && TapsTogether(env.codes, rows[id].key.factor, rows[c].at, rows[id].at)
      {
        WindowIsFixed(env.codes, rows[id].key.factor, rows[c].at, rows[id].at);
      }
      if canonical.Some? {
        rows := rows[id := rows[id].(isDuplicate := true, duplicateOf := canonical)];
      }
    }

    method FindCanonicalWithinWindow(id: Id, row: Checkin) returns (pick: Option<Id>)
      ensures LegalPick(env, rows, id, row, pick)
    {
      var created := map c: Id | 0 <= c < |rows| && Candidate(env, rows, id, row, c) :: rows[c].createdAt;
      assert forall c: Id :: c in created.Keys <==> Candidate(env, rows, id, row, c);
      if created.Keys == {} {
        return None;
      }
      ghost var earliest := SmallestExists(created.Keys, created);
      var c :| c in created.Keys && forall d :: d in created.Keys ==> created[c] <= created[d];
      return Some(c);
    }
  }

  // ---------------------------------------------------------------------------
  // Interleaved transactions
  // ---------------------------------------------------------------------------

  datatype Worker =
    | Idle
    | Loaded(id: Id, row: Checkin)
    | Locked(id: Id, row: Checkin)
    | Found(id: Id, row: Checkin, pick: Option<Id>)

  /** `done` holds the check-ins for which some job has committed. */
  datatype State = State(rows: seq<Checkin>, workers: map<Id, Worker>, done: set<Id>)

  datatype Event =
    | Insert(key: Key, at: int, createdAt: int)
    | Load(w: Id, id: Id)
    | Lock(w: Id)
    | Find(w: Id, pick: Option<Id>)
    | Commit(w: Id)
    | Abort(w: Id)

  function WorkerOf(s: State, w: Id): Worker {
    if w in s.workers then s.workers[w] else Idle
  }

  function With(s: State, w: Id, worker: Worker): State {
    s.(workers := s.workers[w := worker])
  }

  predicate HoldsLock(s: State, w: Id) {
    WorkerOf(s, w).Locked? || WorkerOf(s, w).Found?
  }

  ghost predicate LockFree(env: Env, s: State, key: Key) {
    forall w :: HoldsLock(s, w) ==> env.hash(WorkerOf(s, w).row.key) != env.hash(key)
  }

  const Start := State([], map[], {})

  ghost function Step(env: Env, s: State, e: Event): State {
    match e
    case Insert(key, at, createdAt) =>
      s.(rows := s.rows + [Checkin(key, at, createdAt, false, None)])
    case Load(w, id) =>
      if !WorkerOf(s, w).Idle? || |s.rows| <= id then s
      else if s.rows[id].isDuplicate then s.(done := s.done + {id})
      else With(s, w, Loaded(id, s.rows[id]))
    case Lock(w) =>
      var worker := WorkerOf(s, w);
      if worker.Loaded? && LockFree(env, s, worker.row.key) then With(s, w, Locked(worker.id, worker.row)) else s
    case Find(w, pick) =>
      var worker := WorkerOf(s, w);
      if worker.Locked? && LegalPick(env, s.rows, worker.id, worker.row, pick)
      then With(s, w, Found(worker.id, worker.row, pick))
      else s
    case Commit(w) =>
      var worker := WorkerOf(s, w);
      if worker.Found? && worker.id < |s.rows|
      then With(s, w, Idle).(rows := Mark(s.rows, worker.id, worker.pick), done := s.done + {worker.id})
      else s
    case Abort(w) => With(s, w, Idle)
  }

  ghost function RunFrom(env: Env, s: State, es: seq<Event>): State
    decreases |es|
  {
    if es == [] then s else Step(env, RunFrom(env, s, es[..|es| - 1]), es[|es| - 1])
  }

  // ---------------------------------------------------------------------------
  // The invariant
  // ---------------------------------------------------------------------------

  /** Marks point inside the table, at a row of the same key. */
  ghost predicate LinksTyped(rows: seq<Checkin>) {
    forall i :: 0 <= i < |rows| ==>
      && (rows[i].isDuplicate <==> rows[i].duplicateOf.Some?)
      && (rows[i].isDuplicate ==>
            rows[i].duplicateOf.value < |rows| && rows[rows[i].duplicateOf.value].key == rows[i].key)
  }

  /** Following a mark always goes to a smaller rank. */
  ghost predicate Ranks(rows: seq<Checkin>, rank: seq<nat>) {
    && |rank| == |rows|
    && forall i :: 0 <= i < |rows| && rows[i].duplicateOf.Some? && rows[i].duplicateOf.value < |rows| ==>
         rank[rows[i].duplicateOf.value] < rank[i]
  }

  ghost predicate Apart(env: Env, a: Checkin, b: Checkin) {
    a.key == b.key ==> Abs(a.at - b.at) > WindowMs(env.codes, a.key.factor)
  }

  /** Survivors whose jobs have committed are more than a window apart. */
  ghost predicate Spread(env: Env, rows: seq<Checkin>, done: set<Id>) {
    && (forall i :: i in done ==> i < |rows|)
    && (forall i, j :: i in done && j in done && i != j && !rows[i].isDuplicate && !rows[j].isDuplicate ==>
          Apart(env, rows[i], rows[j]))
  }

  ghost predicate WorkerOk(env: Env, s: State, w: Id) {
    var worker := WorkerOf(s, w);
    !worker.Idle? ==>
      && worker.id < |s.rows|
      && worker.row.key == s.rows[worker.id].key
      && worker.row.at == s.rows[worker.id].at
      && (worker.Found? && worker.pick.None? ==>
            forall c: Id :: Candidate(env, s.rows, worker.id, worker.row, c) ==> c !in s.done)
      && (worker.Found? && worker.pick.Some? ==>
            && worker.pick.value < |s.rows| && worker.pick.value != worker.id
            && s.rows[worker.pick.value].key == worker.row.key
            && !s.rows[worker.pick.value].isDuplicate)
  }

  ghost predicate LocksExclusive(env: Env, s: State) {
    forall v, w :: v != w && HoldsLock(s, v) && HoldsLock(s, w) ==>
      env.hash(WorkerOf(s, v).row.key) != env.hash(WorkerOf(s, w).row.key)
  }

  ghost predicate Inv(env: Env, s: State) {
    && LinksTyped(s.rows)
    && (exists rank :: Ranks(s.rows, rank))
    && Spread(env, s.rows, s.done)
    && (forall w :: WorkerOk(env, s, w))
    && LocksExclusive(env, s)
  }

  /** A new row is nobody's duplicate and its own job has not committed. */
  lemma {:induction false} InsertKeepsForest(rows: seq<Checkin>, added: Checkin)
    requires LinksTyped(rows) && exists rank :: Ranks(rows, rank)
    requires !added.isDuplicate && added.duplicateOf.None?
    ensures LinksTyped(rows + [added]) && exists rank :: Ranks(rows + [added], rank)
  {
    var rank :| Ranks(rows, rank);
    assert Ranks(rows + [added], rank + [0]);
  }

  lemma {:induction false} InsertKeepsWorker(env: Env, s: State, e: Event, w: Id)
    requires e.Insert? && WorkerOk(env, s, w) && Spread(env, s.rows, s.done)
    ensures WorkerOk(env, Step(env, s, e), w)
  {
    var t := Step(env, s, e);
    var worker := WorkerOf(s, w);
    assert WorkerOf(t, w) == worker;
    if worker.Found? && worker.pick.None? {
      forall c: Id | Candidate(env, t.rows, worker.id, worker.row, c) ensures c !in t.done {
        assert c < |s.rows| ==> Candidate(env, s.rows, worker.id, worker.row, c);
      }
    }
  }

  lemma {:induction false} InsertKeepsInv(env: Env, s: State, e: Event)
    requires Inv(env, s) && e.Insert?
    ensures Inv(env, Step(env, s, e))
  {
    var t := Step(env, s, e);
    InsertKeepsForest(s.rows, Checkin(e.key, e.at, e.createdAt, false, None));
    forall w ensures WorkerOk(env, t, w) && WorkerOf(t, w) == WorkerOf(s, w) {
      InsertKeepsWorker(env, s, e, w);
    }
  }

  /** Publishing a mark from `id` to a surviving row keeps the links a forest. */
  lemma {:induction false} MarkKeepsForest(rows: seq<Checkin>, id: Id, pick: Option<Id>)
    requires LinksTyped(rows) && exists rank :: Ranks(rows, rank)
    requires id < |rows|
    requires pick.Some? ==>
               pick.value < |rows| && pick.value != id && rows[pick.value].key == rows[id].key && !rows[pick.value].isDuplicate
    ensures LinksTyped(Mark(rows, id, pick)) && exists rank :: Ranks(Mark(rows, id, pick), rank)
  {
    var rank :| Ranks(rows, rank);
    if pick.Some? {
      var lowered := seq(|rows|, i requires 0 <= i < |rank| => if i == pick.value then 0 else rank[i] + 1);
      assert Ranks(Mark(rows, id, pick), lowered);
    }
  }

  /** A commit by the lock holder leaves every other transaction's findings true. */
  lemma {:induction false} CommitKeepsWorker(env: Env, s: State, w: Id, v: Id)
    requires Inv(env, s) && WorkerOf(s, w).Found? && v != w
    ensures WorkerOk(env, Step(env, s, Commit(w)), v)
  {
    var t := Step(env, s, Commit(w));
    var me, other := WorkerOf(s, w), WorkerOf(s, v);
    assert WorkerOk(env, s, w) && WorkerOk(env, s, v);
    assert WorkerOf(t, v) == other;
    if other.Found? {
      assert HoldsLock(s, v) && HoldsLock(s, w);
      assert me.row.key != other.row.key;
      if other.pick.None? {
        forall c: Id | Candidate(env, t.rows, other.id, other.row, c) ensures c !in t.done {
          assert Candidate(env, s.rows, other.id, other.row, c);
          assert c != me.id;
        }
      }
    }
  }

  lemma {:induction false} CommitKeepsSpread(env: Env, s: State, w: Id)
    requires Inv(env, s) && WorkerOf(s, w).Found?
    ensures Spread(env, Step(env, s, Commit(w)).rows, Step(env, s, Commit(w)).done)
  {
    var t := Step(env, s, Commit(w));
    var me := WorkerOf(s, w);
    assert WorkerOk(env, s, w);
    forall j | j in s.done && j != me.id && !t.rows[me.id].isDuplicate && !t.rows[j].isDuplicate
      ensures Apart(env, t.rows[me.id], t.rows[j])
    {
      assert me.pick.None?;
      assert !Candidate(env, s.rows, me.id, me.row, j);
    }
  }

  lemma {:induction false} StepKeepsInv(env: Env, s: State, e: Event)
    requires Inv(env, s)
    ensures Inv(env, Step(env, s, e))
  {
    var t := Step(env, s, e);
    match e
    case Insert(key, at, createdAt) => InsertKeepsInv(env, s, e);
    case Commit(w) =>
      if WorkerOf(s, w).Found? {
        assert WorkerOk(env, s, w);
        MarkKeepsForest(s.rows, WorkerOf(s, w).id, WorkerOf(s, w).pick);
        CommitKeepsSpread(env, s, w);
        forall v ensures WorkerOk(env, t, v) {
          if v != w { CommitKeepsWorker(env, s, w, v); }
        }
        assert forall v :: HoldsLock(t, v) ==> HoldsLock(s, v) && WorkerOf(t, v) == WorkerOf(s, v);
      }
    case _ => UnwrittenStepKeepsInv(env, s, e);
  }

  /** Steps that publish nothing: only one transaction's own position can change. */
  lemma {:induction false} UnwrittenKeepsWorker(env: Env, s: State, e: Event, w: Id, v: Id)
    requires !e.Insert? && !e.Commit? && e.w == w
    requires WorkerOk(env, s, w) && WorkerOk(env, s, v)
    ensures WorkerOk(env, Step(env, s, e), v)
    ensures v != w ==> WorkerOf(Step(env, s, e), v) == WorkerOf(s, v)
  {
  }

  lemma {:induction false} UnwrittenKeepsLocks(env: Env, s: State, e: Event)
    requires !e.Insert? && !e.Commit? && LocksExclusive(env, s)
    ensures LocksExclusive(env, Step(env, s, e))
  {
    var t := Step(env, s, e);
    assert forall v :: v != e.w ==> WorkerOf(t, v) == WorkerOf(s, v);
    assert HoldsLock(t, e.w) ==> HoldsLock(s, e.w) || LockFree(env, s, WorkerOf(t, e.w).row.key);
  }

  lemma {:induction false} UnwrittenStepKeepsInv(env: Env, s: State, e: Event)
    requires Inv(env, s) && !e.Insert? && !e.Commit?
    ensures Inv(env, Step(env, s, e))
  {
    UnwrittenKeepsLocks(env, s, e);
    forall v ensures WorkerOk(env, Step(env, s, e), v) {
      UnwrittenKeepsWorker(env, s, e, e.w, v);
    }
  }

  // ---------------------------------------------------------------------------
  // What every run guarantees
  // ---------------------------------------------------------------------------

  lemma {:induction false} RunKeepsInv(env: Env, s: State, es: seq<Event>)
    requires Inv(env, s)
    ensures Inv(env, RunFrom(env, s, es))
    decreases |es|
  {
    if es != [] {
      RunKeepsInv(env, s, es[..|es| - 1]);
      StepKeepsInv(env, RunFrom(env, s, es[..|es| - 1]), es[|es| - 1]);
    }
  }

  lemma {:induction false} StartIsSound(env: Env)
    ensures Inv(env, Start)
  {
    var none: seq<nat> := [];
    assert Ranks(Start.rows, none);
    assert LinksTyped(Start.rows);
    assert Spread(env, Start.rows, Start.done);
    assert forall w: Id :: WorkerOk(env, Start, w);
    assert LocksExclusive(env, Start);
  }

  lemma {:induction false} EveryRunIsSound(env: Env, es: seq<Event>)
    ensures Inv(env, RunFrom(env, Start, es))
  {
    StartIsSound(env);
    RunKeepsInv(env, Start, es);
  }

  /** Any order of jobs, any number of workers, redelivery and aborts: two survivors whose
      jobs have committed are strictly more than their factor's window apart. */
  lemma {:induction false} SurvivorsAreSpread(env: Env, es: seq<Event>, a: Id, b: Id)
    requires var s := RunFrom(env, Start, es);
             && a < |s.rows| && b < |s.rows| && a != b && a in s.done && b in s.done
             && !s.rows[a].isDuplicate && !s.rows[b].isDuplicate && s.rows[a].key == s.rows[b].key
    ensures var s := RunFrom(env, Start, es);
            Abs(s.rows[a].at - s.rows[b].at) > WindowMs(env.codes, s.rows[a].key.factor)
  {
    EveryRunIsSound(env, es);
    var s := RunFrom(env, Start, es);
    assert Apart(env, s.rows[a], s.rows[b]);
  }

  /** The windows written out: settled survivors of one room factor are more than two seconds
      apart, those of any other factor more than ten. */
  lemma {:induction false} SettledSurvivorsAreApart(env: Env, es: seq<Event>, a: Id, b: Id)
    requires var s := RunFrom(env, Start, es);
             && a < |s.rows| && b < |s.rows| && a != b && a in s.done && b in s.done
             && !s.rows[a].isDuplicate && !s.rows[b].isDuplicate && s.rows[a].key == s.rows[b].key
    ensures var s := RunFrom(env, Start, es);
            if IsRoomFactor(env.codes, s.rows[a].key.factor)
            then s.rows[a].at - s.rows[b].at > 2000 || s.rows[b].at - s.rows[a].at > 2000
            else s.rows[a].at - s.rows[b].at > 10000 || s.rows[b].at - s.rows[a].at > 10000
  {
    SurvivorsAreSpread(env, es, a, b);
    var s := RunFrom(env, Start, es);
    WindowIsFixed(env.codes, s.rows[a].key.factor, s.rows[a].at, s.rows[b].at);
  }

  /** Rows are only added, and keep key, time and creation time. */
  ghost predicate OnlyMarks(a: seq<Checkin>, b: seq<Checkin>) {
    && |a| <= |b|
    && forall i :: 0 <= i < |a| ==> b[i].key == a[i].key && b[i].at == a[i].at && b[i].createdAt == a[i].createdAt
  }

  /** A step changes the marks of the committed row alone, and what one transaction has found
      alone. */
  lemma {:induction false} StepMarks(env: Env, s: State, e: Event)
    requires forall w :: WorkerOk(env, s, w)
    ensures var t := Step(env, s, e);
            && OnlyMarks(s.rows, t.rows)
            && (forall i :: 0 <= i < |t.rows| && t.rows[i].duplicateOf.Some? ==>
                  && i < |s.rows|
                  && (t.rows[i].duplicateOf == s.rows[i].duplicateOf
                      || (e.Commit? && WorkerOf(s, e.w).Found? && WorkerOf(s, e.w).id == i
                          && WorkerOf(s, e.w).pick == t.rows[i].duplicateOf)))
            && (forall w :: WorkerOf(t, w).Found? ==>
                  && WorkerOf(t, w).id < |s.rows|
                  && (WorkerOf(t, w) == WorkerOf(s, w)
                      || (e.Find? && e.w == w && WorkerOf(s, w).Locked? && WorkerOf(s, w).id == WorkerOf(t, w).id
                          && LegalPick(env, s.rows, WorkerOf(s, w).id, WorkerOf(s, w).row, WorkerOf(t, w).pick)
                          && e.pick == WorkerOf(t, w).pick)))
  {
    var t := Step(env, s, e);
    forall w ensures WorkerOf(t, w) == WorkerOf(s, w) || (!e.Insert? && w == e.w) {
    }
    assert !e.Insert? ==> WorkerOk(env, s, e.w);
    forall w | WorkerOf(t, w).Found? ensures WorkerOf(t, w).id < |s.rows| {
      assert WorkerOk(env, s, w);
    }
  }

  /** `pick` is close enough to row `id` to stand for it. */
  ghost predicate IsNear(env: Env, rows: seq<Checkin>, id: Id, pick: Option<Id>)
    requires id < |rows|
  {
    pick.Some? && pick.value < |rows| ==>
      && pick.value != id
      && TapsTogether(env.codes, rows[id].key.factor, rows[pick.value].at, rows[id].at)
  }

  ghost predicate MarksAreNear(env: Env, s: State) {
    && (forall i :: 0 <= i < |s.rows| ==> IsNear(env, s.rows, i, s.rows[i].duplicateOf))
    && (forall w :: WorkerOf(s, w).Found? && WorkerOf(s, w).id < |s.rows| ==>
          IsNear(env, s.rows, WorkerOf(s, w).id, WorkerOf(s, w).pick))
  }

  lemma {:induction false} PickIsNear(env: Env, s: State, w: Id, pick: Option<Id>)
    requires WorkerOk(env, s, w) && WorkerOf(s, w).Locked?
    requires LegalPick(env, s.rows, WorkerOf(s, w).id, WorkerOf(s, w).row, pick)
    ensures IsNear(env, s.rows, WorkerOf(s, w).id, pick)
  {
    if pick.Some? {
      var me := WorkerOf(s, w);
      assert Candidate(env, s.rows, me.id, me.row, pick.value);
      WindowIsFixed(env.codes, me.row.key.factor, s.rows[pick.value].at, me.row.at);
    }
  }

  lemma {:induction false} NearStaysNear(env: Env, a: seq<Checkin>, b: seq<Checkin>, id: Id, pick: Option<Id>)
    requires OnlyMarks(a, b) && id < |a| && (pick.Some? ==> pick.value < |a|) && IsNear(env, a, id, pick)
    ensures IsNear(env, b, id, pick)
  {
  }

  lemma {:induction false} StepStaysNear(env: Env, s: State, e: Event)
    requires Inv(env, s) && MarksAreNear(env, s)
    ensures MarksAreNear(env, Step(env, s, e))
  {
    var t := Step(env, s, e);
    StepMarks(env, s, e);
    forall i | 0 <= i < |t.rows| ensures IsNear(env, t.rows, i, t.rows[i].duplicateOf) {
      if t.rows[i].duplicateOf.Some? {
        if e.Commit? { assert WorkerOk(env, s, e.w); }
        NearStaysNear(env, s.rows, t.rows, i, t.rows[i].duplicateOf);
      }
    }
    forall w | WorkerOf(t, w).Found? && WorkerOf(t, w).id < |t.rows|
      ensures IsNear(env, t.rows, WorkerOf(t, w).id, WorkerOf(t, w).pick)
    {
      assert WorkerOk(env, s, w);
      if WorkerOf(s, w).Locked? {
        PickIsNear(env, s, w, WorkerOf(t, w).pick);
        assert WorkerOf(t, w).pick.Some? ==> Candidate(env, s.rows, WorkerOf(s, w).id, WorkerOf(s, w).row, WorkerOf(t, w).pick.value);
      }
      NearStaysNear(env, s.rows, t.rows, WorkerOf(t, w).id, WorkerOf(t, w).pick);
    }
  }

  lemma {:induction false} RunStaysNear(env: Env, es: seq<Event>)
    ensures MarksAreNear(env, RunFrom(env, Start, es))
    decreases |es|
  {
    if es != [] {
      RunStaysNear(env, es[..|es| - 1]);
      EveryRunIsSound(env, es[..|es| - 1]);
      StepStaysNear(env, RunFrom(env, Start, es[..|es| - 1]), es[|es| - 1]);
    }
  }

  /** In every run a marked row points at another row of its key at most two seconds away for a
      room factor and at most ten for any other; so a row with no such neighbour, like an exit
      three seconds before a return, is never marked. */
  lemma {:induction false} MarksPointNearby(env: Env, es: seq<Event>, i: Id)
    requires i < |RunFrom(env, Start, es).rows| && RunFrom(env, Start, es).rows[i].isDuplicate
    ensures var rows := RunFrom(env, Start, es).rows;
            exists c :: 0 <= c < |rows| && c != i && rows[i].duplicateOf == Some(c) && rows[c].key == rows[i].key
                        && if IsRoomFactor(env.codes, rows[i].key.factor)
                           then -2000 <= rows[c].at - rows[i].at <= 2000
                           else -10000 <= rows[c].at - rows[i].at <= 10000
  {
    EveryRunIsSound(env, es);
    RunStaysNear(env, es);
    var rows := RunFrom(env, Start, es).rows;
    assert IsNear(env, rows, i, rows[i].duplicateOf);
  }

  /** A tap with no neighbour of its key that close is never marked: an exit and a return three
      seconds later both survive, in every run. */
  lemma {:induction false} LoneTapsSurvive(env: Env, es: seq<Event>, i: Id)
    requires i < |RunFrom(env, Start, es).rows|
    requires var rows := RunFrom(env, Start, es).rows;
             forall c :: 0 <= c < |rows| && c != i && rows[c].key == rows[i].key ==>
               !TapsTogether(env.codes, rows[i].key.factor, rows[c].at, rows[i].at)
    ensures !RunFrom(env, Start, es).rows[i].isDuplicate
  {
    if RunFrom(env, Start, es).rows[i].isDuplicate {
      MarksPointNearby(env, es, i);
    }
  }

  /** A rolled-back job leaves the tables alone and frees its lock. */
  lemma {:induction false} AbortRollsBack(env: Env, s: State, w: Id)
    ensures var t := Step(env, s, Abort(w));
            && t.rows == s.rows && t.done == s.done && !HoldsLock(t, w)
            && forall v :: v != w ==> WorkerOf(t, v) == WorkerOf(s, v)
  {
  }

  ghost predicate PairwiseApart(ids: set<Id>, at: map<Id, int>, gap: nat)
    requires ids <= at.Keys
  {
    forall i, j :: i in ids && j in ids && i != j ==> Abs(at[i] - at[j]) > gap
  }

  /** Points of [lo, hi] pairwise more than `gap` apart leave no room for more than this. */
  lemma {:induction false} SpreadPointsFit(ids: set<Id>, at: map<Id, int>, lo: int, hi: int, gap: nat)
    requires ids != {} && ids <= at.Keys && PairwiseApart(ids, at, gap)
    requires forall i :: i in ids ==> lo <= at[i] <= hi
    ensures (|ids| - 1) * gap <= hi - lo
    decreases ids
  {
    var first := SmallestExists(ids, at);
    var rest := ids - {first};
    if rest == {} {
      assert ids == {first};
    } else {
      forall i | i in rest ensures lo + gap <= at[i] <= hi {
        assert i in ids && Abs(at[i] - at[first]) > gap;
      }
      SpreadPointsFit(rest, at, lo + gap, hi, gap);
      OneMore(|rest|, gap);
    }
  }

  lemma {:induction false} OneMore(n: int, gap: int)
    ensures n * gap == (n - 1) * gap + gap
  {
  }

  /** Once the jobs of a group of same-key survivors have committed, at most
      floor(L / W) + 1 of them fall in a span of L milliseconds. */
  lemma {:induction false} SurvivorsPerSpan(env: Env, es: seq<Event>, ids: set<Id>, key: Key, lo: int, span: nat)
    requires var s := RunFrom(env, Start, es);
             forall i :: i in ids ==> i < |s.rows| && i in s.done && s.rows[i].key == key && !s.rows[i].isDuplicate
                                      && lo <= s.rows[i].at <= lo + span
    ensures |ids| <= span / WindowMs(env.codes, key.factor) + 1
  {
    var s := RunFrom(env, Start, es);
    var gap := WindowMs(env.codes, key.factor);
    if ids != {} {
      var at := map i | i in ids :: s.rows[i].at;
      forall i, j | i in ids && j in ids && i != j ensures Abs(at[i] - at[j]) > gap {
        SurvivorsAreSpread(env, es, i, j);
      }
      assert PairwiseApart(ids, at, gap);
      SpreadPointsFit(ids, at, lo, lo + span, gap);
      assert gap == STATE_TRANSITION_WINDOW_MS || gap == POINT_IN_TIME_WINDOW_MS;
    }
  }

  /** Follow `n` marks from row `id`. */
  function Hop(rows: seq<Checkin>, id: Id, n: nat): Option<Id>
    decreases n
  {
    if n == 0 then Some(id)
    else if id < |rows| && rows[id].isDuplicate && rows[id].duplicateOf.Some?
    then Hop(rows, rows[id].duplicateOf.value, n - 1)
    else None
  }

  lemma {:induction false} HopsDescend(rows: seq<Checkin>, rank: seq<nat>, id: Id, n: nat)
    requires LinksTyped(rows) && Ranks(rows, rank) && id < |rows|
    ensures Hop(rows, id, n).Some? ==>
              Hop(rows, id, n).value < |rows| && rank[Hop(rows, id, n).value] + n <= rank[id]
              && rows[Hop(rows, id, n).value].key == rows[id].key
    decreases n
  {
    if n > 0 && rows[id].isDuplicate {
      HopsDescend(rows, rank, rows[id].duplicateOf.value, n - 1);
    }
  }

  /** Marks never form a cycle, however jobs interleave. */
  lemma {:induction false} MarksAreAcyclic(env: Env, es: seq<Event>, id: Id, n: nat)
    requires id < |RunFrom(env, Start, es).rows| && n > 0
    ensures Hop(RunFrom(env, Start, es).rows, id, n) != Some(id)
  {
    EveryRunIsSound(env, es);
    var rows := RunFrom(env, Start, es).rows;
    var rank :| Ranks(rows, rank);
    HopsDescend(rows, rank, id, n);
  }

  lemma {:induction false} SurvivorBelow(rows: seq<Checkin>, rank: seq<nat>, id: Id) returns (n: nat, survivor: Id)
    requires LinksTyped(rows) && Ranks(rows, rank) && id < |rows|
    ensures Hop(rows, id, n) == Some(survivor)
    ensures survivor < |rows| && !rows[survivor].isDuplicate && rows[survivor].key == rows[id].key
    decreases rank[id]
  {
    if rows[id].isDuplicate {
      n, survivor := SurvivorBelow(rows, rank, rows[id].duplicateOf.value);
      n := n + 1;
    } else {
      n, survivor := 0, id;
    }
  }

  /** Every chain of marks ends at a surviving row of the same correlation key. */
  lemma {:induction false} ChainEndsAtSurvivor(env: Env, es: seq<Event>, id: Id) returns (n: nat, survivor: Id)
    requires id < |RunFrom(env, Start, es).rows|
    ensures var rows := RunFrom(env, Start, es).rows;
            && Hop(rows, id, n) == Some(survivor)
            && survivor < |rows| && !rows[survivor].isDuplicate && rows[survivor].key == rows[id].key
  {
    EveryRunIsSound(env, es);
    var rows := RunFrom(env, Start, es).rows;
    var rank :| Ranks(rows, rank);
    n, survivor := SurvivorBelow(rows, rank, id);
  }

  /** Deduplication loses no evidence: filtering out duplicates never changes which
      factor codes a person has satisfied in a session. */
  lemma {:induction false} EvidenceSurvives(env: Env, es: seq<Event>, codes: FactorCodes, subject: Subject)
    ensures var rows := RunFrom(env, Start, es).rows;
            SatisfiedCodes(codes, rows, subject, true) == SatisfiedCodes(codes, rows, subject, false)
  {
    var rows := RunFrom(env, Start, es).rows;
    var kept := SatisfiedCodes(codes, rows, subject, true);
    forall code | code in SatisfiedCodes(codes, rows, subject, false) ensures code in kept {
      var i: Id :| i < |rows| && Concerns(rows[i], subject) && rows[i].key.factor in codes && code == codes[rows[i].key.factor];
      var n, survivor := ChainEndsAtSurvivor(env, es, i);
      assert Concerns(rows[survivor], subject);
    }
  }

  // ---------------------------------------------------------------------------
  // The service is one of the runs
  // ---------------------------------------------------------------------------

  lemma {:induction false} RunSplits(env: Env, s: State, a: seq<Event>, b: seq<Event>)
    ensures RunFrom(env, s, a + b) == RunFrom(env, RunFrom(env, s, a), b)
    decreases |b|
  {
    if b == [] {
      assert a + b == a;
    } else {
      assert (a + b)[..|a + b| - 1] == a + b[..|b| - 1];
      RunSplits(env, s, a, b[..|b| - 1]);
    }
  }

  lemma {:induction false} SingleEvent(env: Env, s: State, e: Event)
    ensures RunFrom(env, s, [e]) == Step(env, s, e)
  {
    assert [e][..0] == [];
    assert RunFrom(env, s, [e][..0]) == s;
  }

  /** With the lock free, a job reaches its search with the row as stored. */
  lemma {:induction false} JobReachesSearch(env: Env, s: State, w: Id, id: Id)
    requires WorkerOf(s, w).Idle? && forall v :: !HoldsLock(s, v)
    requires id < |s.rows| && !s.rows[id].isDuplicate
    ensures var t := RunFrom(env, s, [Load(w, id), Lock(w)]);
            && t.rows == s.rows && t.done == s.done && WorkerOf(t, w) == Locked(id, s.rows[id])
            && forall v :: v != w ==> WorkerOf(t, v) == WorkerOf(s, v)
  {
    assert [Load(w, id), Lock(w)][..1] == [Load(w, id)];
    assert RunFrom(env, s, []) == s;
    var loaded := With(s, w, Loaded(id, s.rows[id]));
    SingleEvent(env, s, Load(w, id));
    assert forall v :: v != w ==> WorkerOf(loaded, v) == WorkerOf(s, v);
    assert forall v :: HoldsLock(loaded, v) ==> HoldsLock(s, v);
    assert Step(env, loaded, Lock(w)) == With(loaded, w, Locked(id, s.rows[id]));
  }

  /** With no other job at its lock, a job's statements compute what one call to `Deduplicate`
      computes, whatever rows other jobs have already loaded. */
  lemma {:induction false} SerialJobIsARun(env: Env, s: State, w: Id, id: Id, pick: Option<Id>)
    requires WorkerOf(s, w).Idle? && forall v :: !HoldsLock(s, v)
    requires id < |s.rows| && !s.rows[id].isDuplicate && LegalPick(env, s.rows, id, s.rows[id], pick)
    ensures var t := RunFrom(env, s, [Load(w, id), Lock(w), Find(w, pick), Commit(w)]);
            && t.rows == Mark(s.rows, id, pick) && t.done == s.done + {id} && WorkerOf(t, w).Idle?
            && forall v :: v != w ==> WorkerOf(t, v) == WorkerOf(s, v)
  {
    JobReachesSearch(env, s, w, id);
    var opening := [Load(w, id), Lock(w)];
    var locked := RunFrom(env, s, opening);
    RunSplits(env, s, opening, [Find(w, pick)]);
    SingleEvent(env, locked, Find(w, pick));
    RunSplits(env, s, opening + [Find(w, pick)], [Commit(w)]);
    SingleEvent(env, Step(env, locked, Find(w, pick)), Commit(w));
    assert opening + [Find(w, pick)] + [Commit(w)] == [Load(w, id), Lock(w), Find(w, pick), Commit(w)];
  }

  /** One delivery of a job, by worker 0. */
  function JobEvents(id: Id, pick: Option<Id>): seq<Event> {
    [Load(0, id), Lock(0), Find(0, pick), Commit(0)]
  }
}
