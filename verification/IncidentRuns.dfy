/**
  Detection jobs and closures interleaved statement by statement.

  A job looks for the tenant's open incident; then it either updates that row, keeping it
  locked until commit, or inserts a new open one under a savepoint. The partial unique index
  makes the insert wait for another uncommitted insert of the same tenant, and for a closure
  of the open incident in progress; if an open incident is then committed the insert fails,
  which aborts the transaction until the savepoint is rolled back. An event that cannot
  happen leaves the state as it is.
*/
module IncidentRuns {
  import opened Basics
  import opened Incidents

  /** How a job settled which incident its entry goes to. */
  datatype Target = Append(incident: Id) | OpenNew | Join(incident: Id)

  datatype Worker =
    | Idle
    | Looked(signal: Signal, found: Option<Id>)
    | Violated(signal: Signal)
    | Recovered(signal: Signal)
    | Ready(signal: Signal, target: Target)
    | AboutToClose(incident: Id, closure: Closure)
    | Closing(incident: Id, closure: Closure)

  /** A committed job: its signal and the way it took, logged at the commit whatever was written. */
  datatype Job = Job(signal: Signal, target: Target)

  datatype State = State(
    incidents: seq<Incident>, entries: seq<Entry>, jobs: seq<Job>, closings: seq<Id>, workers: map<Id, Worker>)

  datatype Event =
    | Receive(w: Id, signal: Signal)
    | Update(w: Id)
    | Insert(w: Id)
    | RollbackToSavepoint(w: Id)
    | Fallback(w: Id)
    | Commit(w: Id)
    | ReadToClose(w: Id, incident: Id, closure: Closure)
    | UpdateToClose(w: Id)
    | CommitClose(w: Id)
    | Abort(w: Id)

  const Start := State([], [], [], [], map[])

  function WorkerOf(s: State, w: Id): Worker {
    if w in s.workers then s.workers[w] else Idle
  }

  function With(s: State, w: Id, worker: Worker): State {
    s.(workers := s.workers[w := worker])
  }

  /** The incident row a transaction has locked. */
  function HeldRow(worker: Worker): Option<Id> {
    match worker
    case Closing(i, _) => Some(i)
    case Ready(_, Append(i)) => Some(i)
    case _ => None
  }

  predicate Holds(s: State, w: Id, i: Id) {
    HeldRow(WorkerOf(s, w)) == Some(i)
  }

  /** An uncommitted insert of an open incident for `tenant`. */
  predicate Inserting(s: State, w: Id, tenant: Id) {
    WorkerOf(s, w).Ready? && WorkerOf(s, w).target.OpenNew? && WorkerOf(s, w).signal.tenant == tenant
  }

  predicate IsClosing(s: State, w: Id, tenant: Id) {
    WorkerOf(s, w).Closing? && IsOpen(s.incidents, tenant, WorkerOf(s, w).incident)
  }

  ghost predicate FreeFor(s: State, w: Id, i: Id) {
    forall v: Id :: v != w ==> !Holds(s, v, i)
  }

  ghost predicate MustWaitToInsert(s: State, w: Id, tenant: Id) {
    exists v: Id :: v != w && (Inserting(s, v, tenant) || IsClosing(s, v, tenant))
  }

  /** The rows a transaction that settled on `target` writes. */
  function Published(s: State, signal: Signal, target: Target): State {
    match target
    case Append(i) =>
      if i < |s.incidents|
      then s.(incidents := Moved(s.incidents, i, signal.area), entries := s.entries + [EntryFor(signal, i)])
      else s
    case OpenNew =>
      s.(incidents := s.incidents + [NewIncident(signal)], entries := s.entries + [EntryFor(signal, |s.incidents|)])
    case Join(i) => s.(entries := s.entries + [EntryFor(signal, i)])
  }

  ghost function Step(s: State, e: Event): State {
    var me := WorkerOf(s, e.w);
    match e
    case Receive(w, signal) =>
      if me.Idle? then With(s, w, Looked(signal, OpenIncident(s.incidents, signal.tenant))) else s
    case Update(w) =>
      if me.Looked? && me.found.Some? && FreeFor(s, w, me.found.value)
      then With(s, w, Ready(me.signal, Append(me.found.value)))
      else s
    case Insert(w) =>
      if !me.Looked? || me.found.Some? || MustWaitToInsert(s, w, me.signal.tenant) then s
      else if OpenIncident(s.incidents, me.signal.tenant).Some? then With(s, w, Violated(me.signal))
      else With(s, w, Ready(me.signal, OpenNew))
    case RollbackToSavepoint(w) =>
      if me.Violated? then With(s, w, Recovered(me.signal)) else s
    case Fallback(w) =>
      if me.Violated? then With(s, w, Idle)  // the transaction is aborted: every statement is refused
      else if me.Recovered? then
        var winner := OpenIncident(s.incidents, me.signal.tenant);
        With(s, w, if winner.Some? then Ready(me.signal, Join(winner.value)) else Idle)
      else s
    case Commit(w) =>
      if me.Ready?
      then Published(With(s, w, Idle).(jobs := s.jobs + [Job(me.signal, me.target)]), me.signal, me.target)
      else s
    case ReadToClose(w, i, closure) =>
      if me.Idle? && i < |s.incidents| then With(s, w, AboutToClose(i, closure)) else s
    case UpdateToClose(w) =>
      if me.AboutToClose? && me.incident < |s.incidents| && FreeFor(s, w, me.incident)
      then With(s, w, if s.incidents[me.incident].closure.None? then Closing(me.incident, me.closure) else Idle)
      else s
    case CommitClose(w) =>
      if me.Closing? && me.incident < |s.incidents|
      then With(s, w, Idle).(incidents := Closed(s.incidents, me.incident, me.closure), closings := s.closings + [me.incident])
      else s
    case Abort(w) => With(s, w, Idle)
  }

  ghost function RunFrom(s: State, es: seq<Event>): State
    decreases |es|
  {
    if es == [] then s else Step(RunFrom(s, es[..|es| - 1]), es[|es| - 1])
  }

  // ---------------------------------------------------------------------------
  // The invariant
  // ---------------------------------------------------------------------------

  ghost predicate OneOpen(incidents: seq<Incident>) {
    forall tenant: Id, i: Id, j: Id :: IsOpen(incidents, tenant, i) && IsOpen(incidents, tenant, j) ==> i == j
  }

  predicate TenantIs(incidents: seq<Incident>, i: Id, tenant: Id) {
    i < |incidents| && incidents[i].tenant == tenant
  }

  /** Each committed job left one entry, for its signal, on an incident of its tenant. */
  ghost predicate JobsOk(s: State) {
    && |s.entries| == |s.jobs|
    && forall k :: 0 <= k < |s.jobs| ==>
         && TenantIs(s.incidents, s.entries[k].incident, s.jobs[k].signal.tenant)
         && s.entries[k] == EntryFor(s.jobs[k].signal, s.entries[k].incident)
  }

  /** Exactly the closed incidents have a recorded closure, each once. */
  ghost predicate ClosingsOk(s: State) {
    && (forall i: Id :: i < |s.incidents| ==> (s.incidents[i].closure.Some? <==> i in s.closings))
    && (forall k :: 0 <= k < |s.closings| ==> s.closings[k] < |s.incidents|)
    && (forall k, l :: 0 <= k < l < |s.closings| ==> s.closings[k] != s.closings[l])
  }

  /** The area of the last of the first `n` entries on incident `i` not written by a lost race. */
  function LastArea(s: State, i: Id, n: nat): Option<Id>
    requires n <= |s.entries| == |s.jobs|
    decreases n
  {
    if n == 0 then None
    else if s.entries[n - 1].incident == i && !s.jobs[n - 1].target.Join? then Some(s.entries[n - 1].area)
    else LastArea(s, i, n - 1)
  }

  ghost predicate AreasOk(s: State)
    requires |s.entries| == |s.jobs|
  {
    forall i: Id :: i < |s.incidents| ==> LastArea(s, i, |s.entries|) == Some(s.incidents[i].currentArea)
  }

  ghost predicate WorkerOk(s: State, w: Id) {
    match WorkerOf(s, w)
    case Looked(signal, found) => found.Some? ==> TenantIs(s.incidents, found.value, signal.tenant)
    case Ready(signal, Append(i)) => TenantIs(s.incidents, i, signal.tenant) && FreeFor(s, w, i)
    case Ready(signal, Join(i)) => TenantIs(s.incidents, i, signal.tenant)
    case Ready(signal, OpenNew) =>
      && (forall i: Id :: !IsOpen(s.incidents, signal.tenant, i))
      && (forall v: Id :: v != w ==> !Inserting(s, v, signal.tenant))
    case Closing(i, _) => i < |s.incidents| && s.incidents[i].closure.None? && FreeFor(s, w, i)
    case _ => true
  }

  ghost predicate Inv(s: State) {
    && OneOpen(s.incidents)
    && JobsOk(s)
    && ClosingsOk(s)
    && AreasOk(s)
    && forall w: Id :: WorkerOk(s, w)
  }

  lemma {:induction false} LastAreaExtends(s: State, t: State, i: Id, n: nat)
    requires n <= |s.entries| == |s.jobs| && n <= |t.entries| == |t.jobs|
    requires forall k :: 0 <= k < n ==> s.entries[k] == t.entries[k] && s.jobs[k] == t.jobs[k]
    ensures LastArea(s, i, n) == LastArea(t, i, n)
    decreases n
  {
    if n > 0 {
      LastAreaExtends(s, t, i, n - 1);
    }
  }

  lemma {:induction false} CommitKeepsAreas(s: State, w: Id)
    requires JobsOk(s) && AreasOk(s) && WorkerOk(s, w) && WorkerOf(s, w).Ready?
    ensures JobsOk(Step(s, Commit(w))) && AreasOk(Step(s, Commit(w)))
  {
    var t := Step(s, Commit(w));
    assert forall k :: 0 <= k < |s.jobs| ==> t.entries[k] == s.entries[k] && t.jobs[k] == s.jobs[k];
    forall i: Id | i < |t.incidents| ensures LastArea(t, i, |t.entries|) == Some(t.incidents[i].currentArea) {
      LastAreaExtends(s, t, i, |s.entries|);
    }
  }

  lemma {:induction false} CommitKeepsTables(s: State, w: Id)
    requires Inv(s) && WorkerOf(s, w).Ready?
    ensures var t := Step(s, Commit(w));
            OneOpen(t.incidents) && JobsOk(t) && ClosingsOk(t) && AreasOk(t)
  {
    var t := Step(s, Commit(w));
    assert WorkerOk(s, w);
    CommitKeepsAreas(s, w);
    assert forall tenant: Id, i: Id :: i < |s.incidents| ==> IsOpen(t.incidents, tenant, i) == IsOpen(s.incidents, tenant, i);
  }

  lemma {:induction false} CloseKeepsTables(s: State, w: Id)
    requires Inv(s) && WorkerOf(s, w).Closing?
    ensures var t := Step(s, CommitClose(w));
            OneOpen(t.incidents) && JobsOk(t) && ClosingsOk(t) && AreasOk(t)
  {
    var t := Step(s, CommitClose(w));
    assert WorkerOk(s, w);
    assert forall tenant: Id, i: Id :: IsOpen(t.incidents, tenant, i) ==> IsOpen(s.incidents, tenant, i);
    forall i: Id | i < |t.incidents| ensures LastArea(t, i, |t.entries|) == Some(t.incidents[i].currentArea) {
      LastAreaExtends(s, t, i, |s.entries|);
    }
  }

  /** What a step leaves standing for everyone: rows keep their tenant, and a row changes
      from open or becomes open only by its holder's or its inserter's commit. */
  lemma {:induction false} StepFrame(s: State, e: Event)
    requires WorkerOk(s, e.w)
    ensures var t := Step(s, e);
            && |s.incidents| <= |t.incidents|
            && (forall i: Id :: i < |s.incidents| ==>
                  && t.incidents[i].tenant == s.incidents[i].tenant
                  && (s.incidents[i].closure != t.incidents[i].closure ==> Holds(s, e.w, i)))
            && (forall i: Id :: |s.incidents| <= i < |t.incidents| ==> Inserting(s, e.w, t.incidents[i].tenant))
            && (forall w: Id :: w != e.w ==> WorkerOf(t, w) == WorkerOf(s, w))
            && (forall i: Id :: Holds(t, e.w, i) ==> Holds(s, e.w, i) || FreeFor(s, e.w, i))
            && (forall tenant: Id :: Inserting(t, e.w, tenant) ==> Inserting(s, e.w, tenant) || !MustWaitToInsert(s, e.w, tenant))
  {
  }

  lemma {:induction false} StepKeepsOther(s: State, e: Event, v: Id)
    requires v != e.w && WorkerOk(s, e.w) && WorkerOk(s, v)
    ensures WorkerOk(Step(s, e), v)
  {
    var t := Step(s, e);
    StepFrame(s, e);
    var mine := WorkerOf(s, v);
    if HeldRow(mine).Some? {
      var i := HeldRow(mine).value;
      assert Holds(s, v, i);
      assert !Holds(s, e.w, i) && !FreeFor(s, e.w, i);
      assert forall w: Id :: w != v && Holds(t, w, i) ==> w == e.w || Holds(s, w, i);
    } else if mine.Ready? && mine.target.OpenNew? {
      var tenant := mine.signal.tenant;
      assert Inserting(s, v, tenant);
      assert !Inserting(s, e.w, tenant) && MustWaitToInsert(s, e.w, tenant);
      assert forall w: Id :: w != v && Inserting(t, w, tenant) ==> w == e.w || Inserting(s, w, tenant);
      forall i: Id ensures !IsOpen(t.incidents, tenant, i) {
        assert !IsOpen(s.incidents, tenant, i);
      }
    }
  }

  lemma {:induction false} StepKeepsOwn(s: State, e: Event)
    requires WorkerOk(s, e.w)
    ensures WorkerOk(Step(s, e), e.w)
  {
    var t := Step(s, e);
    assert forall w: Id :: w != e.w ==> WorkerOf(t, w) == WorkerOf(s, w);
    assert forall w: Id, i: Id :: w != e.w ==> Holds(t, w, i) == Holds(s, w, i);
    assert forall w: Id, tenant: Id :: w != e.w ==> Inserting(t, w, tenant) == Inserting(s, w, tenant);
  }

  lemma {:induction false} StepKeepsTables(s: State, e: Event)
    requires Inv(s)
    ensures var t := Step(s, e);
            OneOpen(t.incidents) && JobsOk(t) && ClosingsOk(t) && AreasOk(t)
  {
    var t := Step(s, e);
    if e.Commit? && WorkerOf(s, e.w).Ready? {
      CommitKeepsTables(s, e.w);
    } else if e.CommitClose? && WorkerOf(s, e.w).Closing? {
      CloseKeepsTables(s, e.w);
    } else {
      SameTables(s, t);
    }
  }

  lemma {:induction false} SameTables(s: State, t: State)
    requires OneOpen(s.incidents) && JobsOk(s) && ClosingsOk(s) && AreasOk(s)
    requires t.incidents == s.incidents && t.entries == s.entries && t.jobs == s.jobs && t.closings == s.closings
    ensures OneOpen(t.incidents) && JobsOk(t) && ClosingsOk(t) && AreasOk(t)
  {
    forall i: Id | i < |t.incidents| ensures LastArea(t, i, |t.entries|) == Some(t.incidents[i].currentArea) {
      LastAreaExtends(s, t, i, |s.entries|);
    }
  }

  lemma {:induction false} RunKeepsInv(s: State, es: seq<Event>)
    requires Inv(s)
    ensures Inv(RunFrom(s, es))
    decreases |es|
  {
    if es != [] {
      var before, e := RunFrom(s, es[..|es| - 1]), es[|es| - 1];
      RunKeepsInv(s, es[..|es| - 1]);
      StepKeepsTables(before, e);
      forall v: Id ensures WorkerOk(Step(before, e), v) {
        if v == e.w { StepKeepsOwn(before, e); } else { StepKeepsOther(before, e, v); }
      }
    }
  }

  // ---------------------------------------------------------------------------
  // What every run guarantees
  // ---------------------------------------------------------------------------

  lemma {:induction false} EveryRunIsSound(es: seq<Event>)
    ensures Inv(RunFrom(Start, es))
  {
    RunKeepsInv(Start, es);
  }

  /** In every committed state a tenant has at most one open incident: those it has opened
      outnumber those it has closed by nought or one. */
  lemma {:induction false} OpenedMinusClosed(es: seq<Event>, tenant: Id)
    ensures var incidents := RunFrom(Start, es).incidents;
            var all := set i: Id | 0 <= i < |incidents| && incidents[i].tenant == tenant;
            var closed := set i: Id | 0 <= i < |incidents| && incidents[i].tenant == tenant && incidents[i].closure.Some?;
            0 <= |all| - |closed| <= 1
  {
    EveryRunIsSound(es);
    var incidents := RunFrom(Start, es).incidents;
    var all := set i: Id | 0 <= i < |incidents| && incidents[i].tenant == tenant;
    var closed := set i: Id | 0 <= i < |incidents| && incidents[i].tenant == tenant && incidents[i].closure.Some?;
    match OpenIncident(incidents, tenant)
    case Some(current) =>
      assert all == closed + {current} by {
        forall i | i in all && i !in closed ensures i == current {
          assert IsOpen(incidents, tenant, i);
        }
      }
    case None =>
      assert all == closed by {
        forall i | i in all ensures i in closed {
          assert !IsOpen(incidents, tenant, i);
        }
      }
  }

  /** Every signal whose job commits, lost races included, leaves exactly one entry, on an
      incident of its own tenant. */
  lemma {:induction false} CommittedSignalsAreRecorded(es: seq<Event>, k: nat)
    requires k < |RunFrom(Start, es).jobs|
    ensures var s := RunFrom(Start, es);
            && |s.entries| == |s.jobs|
            && s.entries[k] == EntryFor(s.jobs[k].signal, s.entries[k].incident)
            && s.entries[k].incident < |s.incidents|
            && s.incidents[s.entries[k].incident].tenant == s.jobs[k].signal.tenant
  {
    EveryRunIsSound(es);
    var s := RunFrom(Start, es);
    assert TenantIs(s.incidents, s.entries[k].incident, s.jobs[k].signal.tenant);
  }

  lemma {:induction false} LastAreaIsAt(s: State, i: Id, n: nat) returns (k: nat)
    requires n <= |s.entries| == |s.jobs| && LastArea(s, i, n).Some?
    ensures k < n && s.entries[k].incident == i && !s.jobs[k].target.Join? && LastArea(s, i, n) == Some(s.entries[k].area)
    ensures forall l :: k < l < n && s.entries[l].incident == i ==> s.jobs[l].target.Join?
    decreases n
  {
    if s.entries[n - 1].incident == i && !s.jobs[n - 1].target.Join? {
      k := n - 1;
    } else {
      k := LastAreaIsAt(s, i, n - 1);
    }
  }

  /** An incident's current area is the area of its last entry not written by a lost race. */
  lemma {:induction false} CurrentAreaIsLastSeen(es: seq<Event>, i: Id)
    requires i < |RunFrom(Start, es).incidents|
    ensures var s := RunFrom(Start, es);
            && |s.entries| == |s.jobs|
            && exists k :: 0 <= k < |s.entries| && s.entries[k].incident == i && !s.jobs[k].target.Join?
                           && s.incidents[i].currentArea == s.entries[k].area
                           && forall l :: k < l < |s.entries| && s.entries[l].incident == i ==> s.jobs[l].target.Join?
  {
    EveryRunIsSound(es);
    var s := RunFrom(Start, es);
    var k := LastAreaIsAt(s, i, |s.entries|);
  }

  /** Exactly one closure of an incident can succeed. */
  lemma {:induction false} OneClosurePerIncident(es: seq<Event>, k: nat, l: nat)
    requires k < |RunFrom(Start, es).closings| && l < |RunFrom(Start, es).closings|
    requires RunFrom(Start, es).closings[k] == RunFrom(Start, es).closings[l]
    ensures k == l
  {
    EveryRunIsSound(es);
  }

  /** What one closure wrote — outcome, note, closer and time — no later run changes. */
  lemma {:induction false} ClosuresAreForever(s: State, es: seq<Event>, i: Id)
    requires Inv(s) && i < |s.incidents| && s.incidents[i].closure.Some?
    ensures i < |RunFrom(s, es).incidents| && RunFrom(s, es).incidents[i].closure == s.incidents[i].closure
    decreases |es|
  {
    if es != [] {
      var before, e := RunFrom(s, es[..|es| - 1]), es[|es| - 1];
      ClosuresAreForever(s, es[..|es| - 1], i);
      RunKeepsInv(s, es[..|es| - 1]);
      assert WorkerOk(before, e.w);
    }
  }

  // ---------------------------------------------------------------------------
  // Losing the race to open
  // ---------------------------------------------------------------------------

  /** An insert is refused exactly when the tenant has an open incident, which is the winner. */
  lemma {:induction false} RefusedInsertHasAWinner(s: State, w: Id)
    requires WorkerOf(s, w).Looked? && WorkerOf(s, w).found.None? && !MustWaitToInsert(s, w, WorkerOf(s, w).signal.tenant)
    ensures var signal := WorkerOf(s, w).signal;
            WorkerOf(Step(s, Insert(w)), w) == Violated(signal) <==> exists i: Id :: IsOpen(s.incidents, signal.tenant, i)
  {
  }

  /** A loser that rolls back to the savepoint and looks again commits its entry iff the
      tenant still has an open incident, and then the entry goes to that incident and its
      area stays; otherwise the job leaves nothing behind. */
  lemma {:induction false} LoserJoinsTheWinner(s: State, w: Id)
    requires Inv(s) && WorkerOf(s, w).Violated?
    ensures var signal := WorkerOf(s, w).signal;
            var t := Step(Step(Step(s, RollbackToSavepoint(w)), Fallback(w)), Commit(w));
            && t.incidents == s.incidents
            && (forall i: Id :: IsOpen(s.incidents, signal.tenant, i) ==> t.entries == s.entries + [EntryFor(signal, i)])
            && ((forall i: Id :: !IsOpen(s.incidents, signal.tenant, i)) ==> t.entries == s.entries)
  {
  }

  /** Without the rollback the aborted transaction refuses the fallback: nothing is written. */
  lemma {:induction false} FallbackNeedsTheSavepoint(s: State, w: Id)
    requires WorkerOf(s, w).Violated?
    ensures var t := Step(Step(s, Fallback(w)), Commit(w));
            t.incidents == s.incidents && t.entries == s.entries && WorkerOf(t, w).Idle?
  {
  }

  /** Only other transactions act. */
  predicate Foreign(es: seq<Event>, w: Id) {
    forall i :: 0 <= i < |es| ==> es[i].w != w
  }

  /** Event `e` commits a closure of incident `i`. */
  predicate Closes(s: State, e: Event, i: Id) {
    e.CommitClose? && WorkerOf(s, e.w).Closing? && WorkerOf(s, e.w).incident == i
  }

  /** No transaction commits a closure of incident `i`; other incidents may be closed freely. */
  ghost predicate NeverCloses(s: State, es: seq<Event>, i: Id) {
    forall k :: 0 <= k < |es| ==> !Closes(RunFrom(s, es[..k]), es[k], i)
  }

  lemma {:induction false} StepLeavesOpen(s: State, e: Event, tenant: Id, i: Id)
    requires IsOpen(s.incidents, tenant, i) && !Closes(s, e, i)
    ensures IsOpen(Step(s, e).incidents, tenant, i)
  {
  }

  lemma {:induction false} ForeignLeavesWorker(s: State, es: seq<Event>, w: Id)
    requires Foreign(es, w)
    ensures WorkerOf(RunFrom(s, es), w) == WorkerOf(s, w)
    decreases |es|
  {
    if es != [] {
      ForeignLeavesWorker(s, es[..|es| - 1], w);
      assert es[|es| - 1].w != w;
    }
  }

  /** The winner stays the tenant's open incident until a closure of it commits. */
  lemma {:induction false} WinnerStaysOpen(s: State, es: seq<Event>, tenant: Id, winner: Id)
    requires IsOpen(s.incidents, tenant, winner) && NeverCloses(s, es, winner)
    ensures IsOpen(RunFrom(s, es).incidents, tenant, winner)
    decreases |es|
  {
    if es != [] {
      var n := |es| - 1;
      var init := es[..n];
      forall k | 0 <= k < n ensures !Closes(RunFrom(s, init[..k]), init[k], winner) {
        assert init[..k] == es[..k] && init[k] == es[k];
      }
      WinnerStaysOpen(s, init, tenant, winner);
      StepLeavesOpen(RunFrom(s, init), es[n], tenant, winner);
    }
  }

  /** What the fallback lookup finds decides the job, whatever others do before its commit,
      closing that very incident included: an open incident gains the entry and nothing else
      changes; with none open nothing is written. */
  lemma {:induction false} LookupDecides(s: State, w: Id, es: seq<Event>)
    requires Inv(s) && WorkerOf(s, w).Recovered? && Foreign(es, w)
    ensures var signal := WorkerOf(s, w).signal;
            var met := RunFrom(Step(s, Fallback(w)), es);
            var t := Step(met, Commit(w));
            && t.incidents == met.incidents
            && (forall i: Id :: IsOpen(s.incidents, signal.tenant, i) ==>
                  t.entries == met.entries + [EntryFor(signal, i)] && t.jobs == met.jobs + [Job(signal, Join(i))])
            && ((forall i: Id :: !IsOpen(s.incidents, signal.tenant, i)) ==> t.entries == met.entries && t.jobs == met.jobs)
  {
    ForeignLeavesWorker(Step(s, Fallback(w)), es, w);
  }

  lemma {:induction false} StepKeepsInv(s: State, e: Event)
    requires Inv(s)
    ensures Inv(Step(s, e))
  {
    RunKeepsInv(s, [e]);
    assert [e][..0] == [] && RunFrom(s, [e]) == Step(s, e);
  }

  /** A job that loses the insert race leaves its entry on the winner, whatever other jobs and
      closures do after the refused insert, after the rollback and after the lookup, provided
      no closure of the winner itself commits before the lookup. */
  lemma {:induction false} LostRaceRecovers(
      s: State, w: Id, winner: Id, afterInsert: seq<Event>, afterRollback: seq<Event>, afterLookup: seq<Event>)
    requires Inv(s) && WorkerOf(s, w).Looked? && WorkerOf(s, w).found.None?
    requires IsOpen(s.incidents, WorkerOf(s, w).signal.tenant, winner)
    requires !MustWaitToInsert(s, w, WorkerOf(s, w).signal.tenant)
    requires Foreign(afterInsert, w) && Foreign(afterRollback, w) && Foreign(afterLookup, w)
    requires NeverCloses(Step(s, Insert(w)), afterInsert, winner)
    requires NeverCloses(Step(RunFrom(Step(s, Insert(w)), afterInsert), RollbackToSavepoint(w)), afterRollback, winner)
    ensures var signal := WorkerOf(s, w).signal;
            var rolledBack := Step(RunFrom(Step(s, Insert(w)), afterInsert), RollbackToSavepoint(w));
            var lookedUp := Step(RunFrom(rolledBack, afterRollback), Fallback(w));
            var met := RunFrom(lookedUp, afterLookup);
            var t := Step(met, Commit(w));
            && t.entries == met.entries + [EntryFor(signal, winner)]
            && t.jobs == met.jobs + [Job(signal, Join(winner))]
            && t.incidents == met.incidents
  {
    var signal := WorkerOf(s, w).signal;
    var refused := Step(s, Insert(w));
    StepKeepsInv(s, Insert(w));
    assert WorkerOf(refused, w) == Violated(signal) && refused.incidents == s.incidents;
    WinnerStaysOpen(refused, afterInsert, signal.tenant, winner);
    ForeignLeavesWorker(refused, afterInsert, w);
    RunKeepsInv(refused, afterInsert);
    var rolledBack := Step(RunFrom(refused, afterInsert), RollbackToSavepoint(w));
    StepKeepsInv(RunFrom(refused, afterInsert), RollbackToSavepoint(w));
    WinnerStaysOpen(rolledBack, afterRollback, signal.tenant, winner);
    ForeignLeavesWorker(rolledBack, afterRollback, w);
    RunKeepsInv(rolledBack, afterRollback);
    LookupDecides(RunFrom(rolledBack, afterRollback), w, afterLookup);
  }

  // ---------------------------------------------------------------------------
  // The services are among the runs
  // ---------------------------------------------------------------------------

  ghost predicate AllIdle(s: State) {
    forall v: Id :: WorkerOf(s, v).Idle?
  }

  /** With no other transaction open, a job's statements write what `CorrelateIntoIncident` writes. */
  lemma {:induction false} SerialJobIsARun(s: State, w: Id, signal: Signal)
    requires AllIdle(s)
    ensures var looked := Step(s, Receive(w, signal));
            match OpenIncident(s.incidents, signal.tenant)
            case Some(i) =>
              var t := Step(Step(looked, Update(w)), Commit(w));
              t.incidents == Moved(s.incidents, i, signal.area) && t.entries == s.entries + [EntryFor(signal, i)]
            case None =>
              var t := Step(Step(looked, Insert(w)), Commit(w));
              && t.incidents == s.incidents + [NewIncident(signal)]
              && t.entries == s.entries + [EntryFor(signal, |s.incidents|)]
  {
    var looked := Step(s, Receive(w, signal));
    assert forall v: Id :: v != w ==> WorkerOf(looked, v) == WorkerOf(s, v);
  }

  /** And a closure's statements write what `Close` writes, succeeding under the same condition. */
  lemma {:induction false} SerialCloseIsARun(s: State, w: Id, i: Id, closure: Closure)
    requires AllIdle(s) && i < |s.incidents|
    ensures var t := Step(Step(Step(s, ReadToClose(w, i, closure)), UpdateToClose(w)), CommitClose(w));
            if s.incidents[i].closure.None?
            then t.incidents == Closed(s.incidents, i, closure) && t.closings == s.closings + [i]
            else t.incidents == s.incidents && t.closings == s.closings
  {
    var read := Step(s, ReadToClose(w, i, closure));
    assert forall v: Id :: v != w ==> WorkerOf(read, v) == WorkerOf(s, v);
  }

  /** A rolled-back transaction leaves the tables alone and frees its row and its pending insert. */
  lemma {:induction false} AbortRollsBack(s: State, w: Id)
    ensures var t := Step(s, Abort(w));
            && t.incidents == s.incidents && t.entries == s.entries && t.jobs == s.jobs && t.closings == s.closings
            && (forall i: Id :: !Holds(t, w, i)) && (forall tenant: Id :: !Inserting(t, w, tenant))
            && forall v: Id :: v != w ==> WorkerOf(t, v) == WorkerOf(s, v)
  {
  }
}
