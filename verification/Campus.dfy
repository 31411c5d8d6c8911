/**
  Runs of the attendance back office: configuration changes, session creation, evaluation
  and review resolution in any order, each one transaction that commits or changes nothing.
*/
module Campus {
  import opened Basics
  import opened AttendanceRules
  import opened AttendanceProperties
  import opened Config

  /** A session with its register; both live under the session's position. */
  datatype Class = Class(session: Session, register: Register)

  datatype State = State(config: ConfigTables, classes: seq<Class>)

  datatype Event =
    | UpsertConfig(input: ConfigInput)
    | SetRequiredFactors(config: Id, factors: seq<Id>)
    | CreateSession(details: SessionInput)
    | Evaluate(sid: Id, now: int, ev: Evidence, roster: seq<Id>)
    | ResolveReview(sid: Id, review: Id, resolver: Id, decision: Status, note: Option<string>, now: int, leaders: set<Leadership>)

  function ChainOf(s: State, sid: Id, leaders: set<Leadership>): Chain
    requires sid < |s.classes|
  {
    Chain(Some(s.classes[sid].session), s.config.courseOf, leaders)
  }

  /** What one evaluation or resolution does to the class it names. */
  function ClassStep(c: Class, courseOf: map<Id, Id>, e: Event): Class {
    match e
    case Evaluate(sid, now, ev, roster) =>
      if now < c.session.scheduledEnd then c
      else c.(register := EvaluatedAll(c.register, c.session, sid, ev, roster))
    case ResolveReview(_, review, resolver, decision, note, now, leaders) =>
      if ResolveCheck(c.register, review, resolver, decision, Chain(Some(c.session), courseOf, leaders)).Some? then c
      else c.(register := Resolved(c.register, review, resolver, decision, note, now))
    case _ => c
  }

  function Step(s: State, e: Event): State {
    match e
    case UpsertConfig(input) =>
      var r := UpsertedConfig(s.config, input);
      if r.Ok? then s.(config := r.value) else s
    case SetRequiredFactors(config, factors) =>
      var r := RequiredSet(s.config, config, factors);
      if r.Ok? then s.(config := r.value) else s
    case CreateSession(details) =>
      var r := EffectiveConfig(s.config, details.classGroup);
      if r.Ok? then s.(classes := s.classes + [Class(Snapshot(details, r.value), EmptyRegister)]) else s
    case _ =>
      if e.sid < |s.classes|
      then s.(classes := s.classes[e.sid := ClassStep(s.classes[e.sid], s.config.courseOf, e)])
      else s
  }

  function RunFrom(s: State, es: seq<Event>): State
    decreases |es|
  {
    if es == [] then s else Step(RunFrom(s, es[..|es| - 1]), es[|es| - 1])
  }

  function Start(courseOf: map<Id, Id>, factorTypes: set<Id>): State {
    State(ConfigTables(courseOf, factorTypes, map[], map[]), [])
  }

  // ---------------------------------------------------------------------------
  // Snapshots
  // ---------------------------------------------------------------------------

  /** A created session carries the most specific config of that moment. */
  lemma {:induction false} SnapshotIsMostSpecific(s: State, details: SessionInput)
    requires |Step(s, CreateSession(details)).classes| > |s.classes|
    ensures details.classGroup in s.config.courseOf
    ensures var session := Step(s, CreateSession(details)).classes[|s.classes|].session;
            exists row :: IsMostSpecific(s.config, Cascade(details.classGroup, s.config.courseOf[details.classGroup]), row)
                          && session.minPercentage == row.minPercentage
                          && session.toleranceMinutes == row.toleranceMinutes
                          && session.postTolerance == row.postTolerance
                          && session.requiredFactors == RequiredOf(s.config, row.id)
  {
    CascadeIsMostSpecific(s.config, details.classGroup);
  }

  predicate IsRelevant(e: Event, sid: Id) {
    (e.Evaluate? || e.ResolveReview?) && e.sid == sid
  }

  /** The events that concern one session. */
  function Relevant(es: seq<Event>, sid: Id): seq<Event>
    decreases |es|
  {
    if es == [] then []
    else
      var e := es[|es| - 1];
      var before := Relevant(es[..|es| - 1], sid);
      if IsRelevant(e, sid) then before + [e] else before
  }

  function ClassRun(c: Class, courseOf: map<Id, Id>, es: seq<Event>): Class
    decreases |es|
  {
    if es == [] then c else ClassStep(ClassRun(c, courseOf, es[..|es| - 1]), courseOf, es[|es| - 1])
  }

  lemma {:induction false} StepOnClass(s: State, e: Event, sid: Id)
    requires sid < |s.classes|
    ensures var t := Step(s, e);
            && sid < |t.classes| && t.config.courseOf == s.config.courseOf
            && t.classes[sid] == if IsRelevant(e, sid) then ClassStep(s.classes[sid], s.config.courseOf, e) else s.classes[sid]
  {
  }

  lemma {:induction false} ClassRunAppends(c: Class, courseOf: map<Id, Id>, es: seq<Event>, e: Event)
    ensures ClassRun(c, courseOf, es + [e]) == ClassStep(ClassRun(c, courseOf, es), courseOf, e)
  {
    assert (es + [e])[..|es|] == es;
  }

  /** What becomes of an existing session depends only on its own evaluations and resolutions. */
  lemma {:induction false} OnlyRelevantEventsMatter(s: State, es: seq<Event>, sid: Id)
    requires sid < |s.classes|
    ensures var t := RunFrom(s, es);
            && sid < |t.classes|
            && t.config.courseOf == s.config.courseOf
            && t.classes[sid] == ClassRun(s.classes[sid], s.config.courseOf, Relevant(es, sid))
    decreases |es|
  {
    if es != [] {
      var init, e := es[..|es| - 1], es[|es| - 1];
      OnlyRelevantEventsMatter(s, init, sid);
      StepOnClass(RunFrom(s, init), e, sid);
      ClassRunAppends(s.classes[sid], s.config.courseOf, Relevant(init, sid), e);
    }
  }

  predicate IsConfigEvent(e: Event) {
    e.UpsertConfig? || e.SetRequiredFactors?
  }

  function WithoutConfig(es: seq<Event>): (rest: seq<Event>)
    ensures forall k :: 0 <= k < |rest| ==> !rest[k].UpsertConfig? && !rest[k].SetRequiredFactors?
    decreases |es|
  {
    if es == [] then []
    else
      var before := WithoutConfig(es[..|es| - 1]);
      if IsConfigEvent(es[|es| - 1]) then before else before + [es[|es| - 1]]
  }

  lemma {:induction false} ConfigIsNeverRelevant(es: seq<Event>, sid: Id)
    ensures Relevant(WithoutConfig(es), sid) == Relevant(es, sid)
    decreases |es|
  {
    if es != [] {
      var init := es[..|es| - 1];
      ConfigIsNeverRelevant(init, sid);
      if !IsConfigEvent(es[|es| - 1]) {
        assert WithoutConfig(es)[..|WithoutConfig(es)| - 1] == WithoutConfig(init);
      }
    }
  }

  /** Snapshot non-interference: two runs that differ only in configuration calls made after
      a session exists store the same snapshot, grades, intervals and reviews for it. */
  lemma {:induction false} ConfigChangesDoNotReachSessions(s: State, es1: seq<Event>, es2: seq<Event>, sid: Id)
    requires sid < |s.classes|
    requires WithoutConfig(es1) == WithoutConfig(es2)
    ensures sid < |RunFrom(s, es1).classes| && sid < |RunFrom(s, es2).classes|
    ensures RunFrom(s, es1).classes[sid] == RunFrom(s, es2).classes[sid]
  {
    OnlyRelevantEventsMatter(s, es1, sid);
    OnlyRelevantEventsMatter(s, es2, sid);
    ConfigIsNeverRelevant(es1, sid);
    ConfigIsNeverRelevant(es2, sid);
  }

  lemma {:induction false} RunSplits(s: State, a: seq<Event>, b: seq<Event>)
    ensures RunFrom(s, a + b) == RunFrom(RunFrom(s, a), b)
    decreases |b|
  {
    if b == [] {
      assert a + b == a;
    } else {
      assert (a + b)[..|a + b| - 1] == a + b[..|b| - 1];
      RunSplits(s, a, b[..|b| - 1]);
    }
  }

  /** One configuration call more or less, anywhere in a run, changes nothing of a session that
      existed before it. */
  lemma {:induction false} OneChangeIsInvisible(s: State, a: seq<Event>, change: Event, b: seq<Event>, sid: Id)
    requires sid < |s.classes| && (change.UpsertConfig? || change.SetRequiredFactors?)
    ensures sid < |RunFrom(s, a + [change] + b).classes| && sid < |RunFrom(s, a + b).classes|
    ensures RunFrom(s, a + [change] + b).classes[sid] == RunFrom(s, a + b).classes[sid]
  {
    var t := RunFrom(s, a);
    OnlyRelevantEventsMatter(s, a, sid);
    RunSplits(s, a, b);
    RunSplits(s, a, [change]);
    RunSplits(s, a + [change], b);
    assert [change][..0] == [] && RunFrom(t, [change][..0]) == t;
    assert RunFrom(t, [change]) == Step(t, change);
    StepOnClass(t, change, sid);
    OnlyRelevantEventsMatter(t, b, sid);
    OnlyRelevantEventsMatter(Step(t, change), b, sid);
  }

  /** A session's row never changes once stored. */
  lemma {:induction false} SessionsAreFrozen(s: State, es: seq<Event>, sid: Id)
    requires sid < |s.classes|
    ensures sid < |RunFrom(s, es).classes| && RunFrom(s, es).classes[sid].session == s.classes[sid].session
    decreases |es|
  {
    if es != [] {
      SessionsAreFrozen(s, es[..|es| - 1], sid);
    }
  }

  lemma {:induction false} RunKeepsIds(s: State, es: seq<Event>)
    requires IdsUnique(s.config)
    ensures IdsUnique(RunFrom(s, es).config)
    decreases |es|
  {
    if es != [] {
      var before, e := RunFrom(s, es[..|es| - 1]), es[|es| - 1];
      RunKeepsIds(s, es[..|es| - 1]);
      if e.UpsertConfig? && UpsertedConfig(before.config, e.input).Ok? {
        UpsertKeepsIds(before.config, e.input);
      }
    }
  }

  /** In every run, different scopes have different configs, so `ConfiguredIsResolved` applies. */
  lemma {:induction false} ConfigIdsStayUnique(courseOf: map<Id, Id>, factorTypes: set<Id>, es: seq<Event>)
    ensures IdsUnique(RunFrom(Start(courseOf, factorTypes), es).config)
  {
    RunKeepsIds(Start(courseOf, factorTypes), es);
  }

  // ---------------------------------------------------------------------------
  // Where grades come from
  // ---------------------------------------------------------------------------

  /** Event `e` evaluates `person` in session `sid` at or after its scheduled end. */
  predicate Grades(session: Session, e: Event, sid: Id, person: Id) {
    e.Evaluate? && e.sid == sid && e.now >= session.scheduledEnd && person in e.roster
  }

  lemma {:induction false} EvaluationGradesRoster(reg: Register, session: Session, sid: Id, ev: Evidence, roster: seq<Id>, person: Id)
    ensures person in EvaluatedAll(reg, session, sid, ev, roster).consolidations <==> person in reg.consolidations || person in roster
    decreases |roster|
  {
    if roster != [] {
      EvaluationGradesRoster(reg, session, sid, ev, roster[..|roster| - 1], person);
    }
  }

  lemma {:induction false} StepGrades(s: State, e: Event, sid: Id, person: Id)
    requires sid < |s.classes|
    ensures sid < |Step(s, e).classes| && Step(s, e).classes[sid].session == s.classes[sid].session
    ensures person in Step(s, e).classes[sid].register.consolidations <==>
              person in s.classes[sid].register.consolidations || Grades(s.classes[sid].session, e, sid, person)
  {
    if e.Evaluate? && e.sid == sid {
      EvaluationGradesRoster(s.classes[sid].register, s.classes[sid].session, sid, e.ev, e.roster, person);
    }
  }

  /** From its creation on, a session has a grade for a person iff it had one or some evaluation
      with that person on its roster ran at or after the session's end. */
  lemma {:induction false} GradedIffEvaluatedAfterTheEnd(s: State, es: seq<Event>, sid: Id, person: Id)
    requires sid < |s.classes|
    ensures sid < |RunFrom(s, es).classes| && RunFrom(s, es).classes[sid].session == s.classes[sid].session
    ensures person in RunFrom(s, es).classes[sid].register.consolidations <==>
              person in s.classes[sid].register.consolidations
              || exists k :: 0 <= k < |es| && Grades(s.classes[sid].session, es[k], sid, person)
    decreases |es|
  {
    if es != [] {
      var n := |es| - 1;
      GradedIffEvaluatedAfterTheEnd(s, es[..n], sid, person);
      StepGrades(RunFrom(s, es[..n]), es[n], sid, person);
      assert forall k :: 0 <= k < n ==> es[..n][k] == es[k];
    }
  }

  // ---------------------------------------------------------------------------
  // Review lifecycle
  // ---------------------------------------------------------------------------

  ghost predicate AllLifecyclesOk(s: State) {
    forall sid :: 0 <= sid < |s.classes| ==> LifecycleOk(s.classes[sid].register)
  }

  lemma {:induction false} StepKeepsLifecycles(s: State, e: Event)
    requires AllLifecyclesOk(s)
    ensures AllLifecyclesOk(Step(s, e))
  {
    if (e.Evaluate? || e.ResolveReview?) && e.sid < |s.classes| {
      var c := s.classes[e.sid];
      if e.Evaluate? {
        EvaluatedAllKeepsLifecycle(c.register, c.session, e.sid, e.ev, e.roster);
      } else if ResolveCheck(c.register, e.review, e.resolver, e.decision, ChainOf(s, e.sid, e.leaders)).None? {
        ResolvedKeepsLifecycle(c.register, e.review, e.resolver, e.decision, e.note, e.now);
      }
    }
  }

  lemma {:induction false} RunKeepsLifecycles(s: State, es: seq<Event>)
    requires AllLifecyclesOk(s)
    ensures AllLifecyclesOk(RunFrom(s, es))
    decreases |es|
  {
    if es != [] {
      RunKeepsLifecycles(s, es[..|es| - 1]);
      StepKeepsLifecycles(RunFrom(s, es[..|es| - 1]), es[|es| - 1]);
    }
  }

  /** In every run: at most one review is ever opened per session, person and reason; every
      review has a consolidation row; a resolved one was decided by a human; and a pending
      consolidation always has an unresolved review. */
  lemma {:induction false} ReviewLifecycle(courseOf: map<Id, Id>, factorTypes: set<Id>, es: seq<Event>, sid: Id)
    requires sid < |RunFrom(Start(courseOf, factorTypes), es).classes|
    ensures var reg := RunFrom(Start(courseOf, factorTypes), es).classes[sid].register;
            && (forall i, j :: 0 <= i < j < |reg.reviews| ==>
                  (reg.reviews[i].person, reg.reviews[i].reason) != (reg.reviews[j].person, reg.reviews[j].reason))
            && (forall i :: 0 <= i < |reg.reviews| ==>
                  && reg.reviews[i].person in reg.consolidations
                  && (reg.reviews[i].resolvedAt.Some? ==> reg.consolidations[reg.reviews[i].person].resolvedBy.Some?))
            && (forall p :: p in reg.consolidations && reg.consolidations[p].status == Pending ==>
                  exists i :: 0 <= i < |reg.reviews| && reg.reviews[i].person == p && reg.reviews[i].resolvedAt.None?)
  {
    RunKeepsLifecycles(Start(courseOf, factorTypes), es);
    var reg := RunFrom(Start(courseOf, factorTypes), es).classes[sid].register;
    assert LifecycleOk(reg);
    assert forall i :: 0 <= i < |reg.reviews| ==> ReviewOk(reg, reg.reviews[i]);
    forall p | p in reg.consolidations && reg.consolidations[p].status == Pending
      ensures exists i :: 0 <= i < |reg.reviews| && reg.reviews[i].person == p && reg.reviews[i].resolvedAt.None?
    {
      assert RowOk(reg, p);
      var reason := if HasUnresolved(reg, p, MissingFactor) then MissingFactor else MissingExit;
      var i :| 0 <= i < |reg.reviews| && IsUnresolved(reg.reviews[i], p, reason);
      assert reg.reviews[i].person == p;
    }
  }

  // ---------------------------------------------------------------------------
  // Human decisions
  // ---------------------------------------------------------------------------

  /** What evaluation may never change for a person a human has decided. */
  ghost predicate GradeKept(a: Register, b: Register, person: Id) {
    && DecidedByHuman(a, person) && DecidedByHuman(b, person)
    && a.consolidations[person].minutes == b.consolidations[person].minutes
    && a.consolidations[person].percentage == b.consolidations[person].percentage
    && (person in a.intervals <==> person in b.intervals)
    && (person in a.intervals ==> a.intervals[person] == b.intervals[person])
    && |a.reviews| <= |b.reviews|
    && (forall i :: 0 <= i < |a.reviews| ==> a.reviews[i].person == b.reviews[i].person && a.reviews[i].reason == b.reviews[i].reason)
    && (forall i :: |a.reviews| <= i < |b.reviews| ==> b.reviews[i].person != person)
  }

  predicate TouchesDecision(s: State, e: Event, sid: Id, person: Id) {
    e.ResolveReview? && e.sid == sid && sid < |s.classes|
    && e.review < |s.classes[sid].register.reviews| && s.classes[sid].register.reviews[e.review].person == person
  }

  lemma {:induction false} StepKeepsDecision(s: State, e: Event, sid: Id, person: Id)
    requires sid < |s.classes| && DecidedByHuman(s.classes[sid].register, person)
    ensures sid < |Step(s, e).classes|
    ensures GradeKept(s.classes[sid].register, Step(s, e).classes[sid].register, person)
    ensures !e.ResolveReview? || e.sid != sid ==>
              Step(s, e).classes[sid].register.consolidations[person] == s.classes[sid].register.consolidations[person]
    ensures !TouchesDecision(s, e, sid, person) ==>
              Step(s, e).classes[sid].register.consolidations[person] == s.classes[sid].register.consolidations[person]
  {
    if e.Evaluate? && e.sid == sid {
      var c := s.classes[sid];
      EvaluationSparesDecided(c.register, c.session, sid, e.ev, e.roster, person);
    }
  }

  /** Human decisions survive the engine: over any later run, minutes, percentage and
      intervals stay and no review is opened; and if no further review of that person is
      resolved, the whole row stays. */
  lemma {:induction false} HumanDecisionSurvives(s: State, es: seq<Event>, sid: Id, person: Id)
    requires sid < |s.classes| && DecidedByHuman(s.classes[sid].register, person)
    ensures sid < |RunFrom(s, es).classes|
    ensures GradeKept(s.classes[sid].register, RunFrom(s, es).classes[sid].register, person)
    ensures (forall i :: 0 <= i < |es| ==> !TouchesDecision(RunFrom(s, es[..i]), es[i], sid, person)) ==>
              RunFrom(s, es).classes[sid].register.consolidations[person] == s.classes[sid].register.consolidations[person]
    decreases |es|
  {
    if es != [] {
      var n := |es| - 1;
      var init := es[..n];
      HumanDecisionSurvives(s, init, sid, person);
      StepKeepsDecision(RunFrom(s, init), es[n], sid, person);
      assert forall i :: 0 <= i < n ==> init[..i] == es[..i] && init[i] == es[i];
    }
  }
}
