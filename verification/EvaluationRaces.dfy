/**
  Evaluations of one session beside each other and beside resolutions, statement by statement
  (attendance-rules-engine.service.ts, pending-review.service.ts).

  For each person of its roster an evaluation reads the stored row, skipping a decided one, and
  later writes the person's rows; the writes of all persons become visible together at the
  commit. A written row stays locked until then, so another evaluation of that person and a
  resolution of one of their reviews wait. An update changes minutes, percentage and status of
  the row as it is by then, whatever the earlier read said.
*/
module EvaluationRaces {
  import opened Basics
  import opened Presence
  import opened AttendanceRules
  import opened AttendanceProperties

  datatype Setting = Setting(session: Session, sid: Id, courseOf: map<Id, Id>)

  /** A person's written but uncommitted rows, and whether a review was inserted with them. */
  datatype Write = Write(person: Id, verdict: Verdict, rows: seq<IntervalRow>, opens: bool)

  /** `looked` is the person last read as undecided and not yet written. */
  datatype Worker = Idle | Evaluating(looked: Option<Id>, writes: seq<Write>)

  datatype State = State(register: Register, workers: map<Id, Worker>)

  datatype Event =
    | Look(w: Id, person: Id)
    | WriteRows(w: Id, ev: Evidence)
    | Commit(w: Id)
    | Abort(w: Id)
    | Resolve(review: Id, resolver: Id, decision: Status, note: Option<string>, now: int, leaders: set<Leadership>)

  /** Nothing stored, nothing open. */
  const Quiet := State(EmptyRegister, map[])

  function WorkerOf(s: State, w: Id): Worker {
    if w in s.workers then s.workers[w] else Idle
  }

  function With(s: State, w: Id, worker: Worker): State {
    s.(workers := s.workers[w := worker])
  }

  predicate Wrote(writes: seq<Write>, person: Id) {
    exists i :: 0 <= i < |writes| && writes[i].person == person
  }

  function WritesOf(worker: Worker): seq<Write> {
    if worker.Evaluating? then worker.writes else []
  }

  /** Transaction `w` has the person's row locked. */
  predicate Holds(s: State, w: Id, person: Id) {
    Wrote(WritesOf(WorkerOf(s, w)), person)
  }

  ghost predicate FreeFor(s: State, w: Id, person: Id) {
    forall v: Id :: v != w ==> !Holds(s, v, person)
  }

  ghost predicate Unlocked(s: State, person: Id) {
    forall v: Id :: !Holds(s, v, person)
  }

  function WriteFor(setting: Setting, reg: Register, ev: Evidence, person: Id): Write {
    var verdict := VerdictFor(setting.session, setting.sid, ev, person);
    Write(person, verdict, IntervalRows(PairingFor(setting.session, setting.sid, ev, person)),
          verdict.Deferred? && !HasUnresolved(reg, person, verdict.reason))
  }

  function Published(reg: Register, write: Write): Register {
    var rebuilt := reg.(intervals := reg.intervals[write.person := write.rows]);
    match write.verdict
    case Graded(minutes, percentage, status) => Upserted(rebuilt, write.person, minutes, percentage, status)
    case Deferred(reason) =>
      var pending := Upserted(rebuilt, write.person, 0, 0.0, Pending);
      if write.opens then pending.(reviews := pending.reviews + [Review(write.person, reason, None, None, None)]) else pending
  }

  function PublishedAll(reg: Register, writes: seq<Write>): Register {
    if writes == [] then reg else Published(PublishedAll(reg, writes[..|writes| - 1]), writes[|writes| - 1])
  }

  ghost function Step(setting: Setting, s: State, e: Event): State {
    match e
    case Look(w, person) =>
      var me := WorkerOf(s, w);
      if (me.Evaluating? && me.looked.Some?) || Holds(s, w, person) then s
      else if DecidedByHuman(s.register, person) then With(s, w, Evaluating(None, WritesOf(me)))
      else With(s, w, Evaluating(Some(person), WritesOf(me)))
    case WriteRows(w, ev) =>
      var me := WorkerOf(s, w);
      if me.Evaluating? && me.looked.Some? && FreeFor(s, w, me.looked.value)
      then With(s, w, Evaluating(None, me.writes + [WriteFor(setting, s.register, ev, me.looked.value)]))
      else s
    case Commit(w) =>
      var me := WorkerOf(s, w);
      if me.Evaluating? && me.looked.None?
      then With(s, w, Idle).(register := PublishedAll(s.register, me.writes))
      else s
    case Abort(w) => With(s, w, Idle)
    case Resolve(review, resolver, decision, note, now, leaders) =>
      if Resolves(setting, s, e) then s.(register := Resolved(s.register, review, resolver, decision, note, now)) else s
  }

  /** The resolution passes every check, and nobody has the person's row locked. */
  ghost predicate Resolves(setting: Setting, s: State, e: Event) {
    && e.Resolve?
    && ResolveCheck(s.register, e.review, e.resolver, e.decision,
                    Chain(Some(setting.session), setting.courseOf, e.leaders)).None?
    && Unlocked(s, s.register.reviews[e.review].person)
  }

  ghost function RunFrom(setting: Setting, s: State, es: seq<Event>): State
    decreases |es|
  {
    if es == [] then s else Step(setting, RunFrom(setting, s, es[..|es| - 1]), es[|es| - 1])
  }

  // ---------------------------------------------------------------------------
  // What can reach a decided person
  // ---------------------------------------------------------------------------

  /** Event `e` resolves a review of `person`. */
  ghost predicate Decides(setting: Setting, s: State, e: Event, person: Id) {
    Resolves(setting, s, e) && s.register.reviews[e.review].person == person
  }

  /** Event `e` makes an evaluation of `person` visible. */
  predicate PublishesOver(s: State, e: Event, person: Id) {
    e.Commit? && WorkerOf(s, e.w).Evaluating? && WorkerOf(s, e.w).looked.None? && Holds(s, e.w, person)
  }

  /** Transaction `w` has read the person as undecided, or already written them. */
  predicate Stale(s: State, w: Id, person: Id) {
    (WorkerOf(s, w).Evaluating? && WorkerOf(s, w).looked == Some(person)) || Holds(s, w, person)
  }

  /** `b` leaves the person's row, intervals and reviews as `a` has them, and opens none. */
  ghost predicate KeptFor(a: Register, b: Register, person: Id) {
    && (person in a.consolidations <==> person in b.consolidations)
    && (person in a.consolidations ==> a.consolidations[person] == b.consolidations[person])
    && (person in a.intervals <==> person in b.intervals)
    && (person in a.intervals ==> a.intervals[person] == b.intervals[person])
    && |a.reviews| <= |b.reviews|
    && (forall i :: 0 <= i < |a.reviews| ==> a.reviews[i].person == b.reviews[i].person)
    && (forall i :: 0 <= i < |a.reviews| && a.reviews[i].person == person ==> a.reviews[i] == b.reviews[i])
    && (forall i :: |a.reviews| <= i < |b.reviews| ==> b.reviews[i].person != person)
  }

  lemma {:induction false} PublishingSparesOthers(reg: Register, writes: seq<Write>, person: Id)
    requires !Wrote(writes, person)
    ensures KeptFor(reg, PublishedAll(reg, writes), person)
    decreases |writes|
  {
    if writes != [] {
      var init, last := writes[..|writes| - 1], writes[|writes| - 1];
      assert forall i :: 0 <= i < |init| ==> init[i] == writes[i];
      assert last.person != person;
      PublishingSparesOthers(reg, init, person);
    }
  }

  /** Publishing keeps every resolver: a decided person stays decided. */
  lemma {:induction false} PublishingKeepsResolver(reg: Register, writes: seq<Write>, person: Id)
    requires DecidedByHuman(reg, person)
    ensures DecidedByHuman(PublishedAll(reg, writes), person)
    ensures PublishedAll(reg, writes).consolidations[person].resolvedBy == reg.consolidations[person].resolvedBy
    decreases |writes|
  {
    if writes != [] {
      PublishingKeepsResolver(reg, writes[..|writes| - 1], person);
    }
  }

  lemma {:induction false} StepSpares(setting: Setting, s: State, e: Event, person: Id)
    requires !PublishesOver(s, e, person) && !Decides(setting, s, e, person)
    ensures KeptFor(s.register, Step(setting, s, e).register, person)
  {
    if e.Commit? && WorkerOf(s, e.w).Evaluating? && WorkerOf(s, e.w).looked.None? {
      PublishingSparesOthers(s.register, WorkerOf(s, e.w).writes, person);
    }
  }

  /** No transaction becomes stale for a person already decided. */
  lemma {:induction false} StaleOnlyShrinks(setting: Setting, s: State, e: Event, w: Id, person: Id)
    requires DecidedByHuman(s.register, person) && !Stale(s, w, person)
    ensures !Stale(Step(setting, s, e), w, person)
    ensures DecidedByHuman(Step(setting, s, e).register, person)
  {
    var t := Step(setting, s, e);
    if e.Commit? && WorkerOf(s, e.w).Evaluating? {
      PublishingKeepsResolver(s.register, WorkerOf(s, e.w).writes, person);
    }
    if !e.Resolve? && e.w != w {
      assert WorkerOf(t, w) == WorkerOf(s, w);
    } else if e.WriteRows? {
      var before, after := WritesOf(WorkerOf(s, w)), WritesOf(WorkerOf(t, w));
      assert forall i :: 0 <= i < |before| ==> before[i].person != person;
      assert forall i :: 0 <= i < |after| ==> after[i].person != person;
    }
  }

  /** No event of the run resolves a review of `person`. */
  ghost predicate Undisputed(setting: Setting, s: State, es: seq<Event>, person: Id)
    decreases |es|
  {
    es == [] || (Undisputed(setting, s, es[..|es| - 1], person)
                 && !Decides(setting, RunFrom(setting, s, es[..|es| - 1]), es[|es| - 1], person))
  }

  /** No event of the run makes an evaluation of `person` visible. */
  ghost predicate NeverPublishedOver(setting: Setting, s: State, es: seq<Event>, person: Id)
    decreases |es|
  {
    es == [] || (NeverPublishedOver(setting, s, es[..|es| - 1], person)
                 && !PublishesOver(RunFrom(setting, s, es[..|es| - 1]), es[|es| - 1], person))
  }

  lemma {:induction false} KeptComposes(a: Register, b: Register, c: Register, person: Id)
    requires KeptFor(a, b, person) && KeptFor(b, c, person)
    ensures KeptFor(a, c, person)
  {
  }

  /** A run in which nothing is published over a person leaves them exactly as they were. */
  lemma {:induction false} UnpublishedIsKept(setting: Setting, s: State, es: seq<Event>, person: Id)
    requires NeverPublishedOver(setting, s, es, person) && Undisputed(setting, s, es, person)
    ensures KeptFor(s.register, RunFrom(setting, s, es).register, person)
    decreases |es|
  {
    if es != [] {
      var before := RunFrom(setting, s, es[..|es| - 1]);
      UnpublishedIsKept(setting, s, es[..|es| - 1], person);
      StepSpares(setting, before, es[|es| - 1], person);
      KeptComposes(s.register, before.register, RunFrom(setting, s, es).register, person);
    }
  }

  ghost predicate NobodyStale(s: State, person: Id) {
    forall w: Id :: !Stale(s, w, person)
  }

  lemma {:induction false} NobodyStaleLasts(setting: Setting, s: State, es: seq<Event>, person: Id)
    requires DecidedByHuman(s.register, person) && NobodyStale(s, person)
    ensures NeverPublishedOver(setting, s, es, person)
    ensures DecidedByHuman(RunFrom(setting, s, es).register, person) && NobodyStale(RunFrom(setting, s, es), person)
    decreases |es|
  {
    if es != [] {
      var before, e := RunFrom(setting, s, es[..|es| - 1]), es[|es| - 1];
      NobodyStaleLasts(setting, s, es[..|es| - 1], person);
      forall w: Id ensures !Stale(Step(setting, before, e), w, person) {
        StaleOnlyShrinks(setting, before, e, w, person);
      }
      StaleOnlyShrinks(setting, before, e, 0, person);
      assert e.Commit? ==> !Stale(before, e.w, person);
    }
  }

  /** A decision taken before every evaluation's read of the person, or after its commit,
      survives every later run that resolves no other review of theirs: row, intervals and
      reviews stay, and no review is opened. */
  lemma {:induction false} DecisionSurvives(setting: Setting, s: State, es: seq<Event>, person: Id)
    requires DecidedByHuman(s.register, person) && NobodyStale(s, person)
    requires Undisputed(setting, s, es, person)
    ensures KeptFor(s.register, RunFrom(setting, s, es).register, person)
  {
    NobodyStaleLasts(setting, s, es, person);
    UnpublishedIsKept(setting, s, es, person);
  }

  // ---------------------------------------------------------------------------
  // A decision between an evaluation's read and its write is overwritten
  // ---------------------------------------------------------------------------

  predicate Shows(row: Consolidation, verdict: Verdict) {
    match verdict
    case Graded(minutes, percentage, status) => row.minutes == minutes && row.percentage == percentage && row.status == status
    case Deferred(_) => row.minutes == 0 && row.percentage == 0.0 && row.status == Pending
  }

  /** Nobody is written twice by one evaluation: an enrolment is unique. */
  ghost predicate OncePerPerson(writes: seq<Write>) {
    forall i, j :: 0 <= i < j < |writes| ==> writes[i].person != writes[j].person
  }

  lemma {:induction false} PublishingShows(reg: Register, writes: seq<Write>, i: nat)
    requires i < |writes| && OncePerPerson(writes)
    ensures writes[i].person in PublishedAll(reg, writes).consolidations
    ensures Shows(PublishedAll(reg, writes).consolidations[writes[i].person], writes[i].verdict)
    decreases |writes|
  {
    if i < |writes| - 1 {
      var init := writes[..|writes| - 1];
      assert init[i] == writes[i] && writes[i].person != writes[|writes| - 1].person;
      PublishingShows(reg, init, i);
    }
  }

  ghost predicate AllOnce(s: State) {
    forall w: Id :: OncePerPerson(WritesOf(WorkerOf(s, w)))
      && (WorkerOf(s, w).Evaluating? && WorkerOf(s, w).looked.Some? ==> !Holds(s, w, WorkerOf(s, w).looked.value))
  }

  lemma {:induction false} StepKeepsOnce(setting: Setting, s: State, e: Event)
    requires AllOnce(s)
    ensures AllOnce(Step(setting, s, e))
  {
    var t := Step(setting, s, e);
    forall w: Id
      ensures OncePerPerson(WritesOf(WorkerOf(t, w)))
      ensures WorkerOf(t, w).Evaluating? && WorkerOf(t, w).looked.Some? ==> !Holds(t, w, WorkerOf(t, w).looked.value)
    {
      if !e.Resolve? && e.w != w { assert WorkerOf(t, w) == WorkerOf(s, w); }
      assert OncePerPerson(WritesOf(WorkerOf(s, w)));
    }
  }
}
