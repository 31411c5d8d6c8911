/**
  Grading a class session and resolving its pending reviews
  (attendance-rules-engine.service.ts, presence-interval.service.ts, pending-review.service.ts).

  Percentages are exact rationals; the database's rounding to two decimals is left out.
  The three tables are kept per session, since every query filters on the session; a
  review's id is its position in its session's list.
*/
module AttendanceRules {
  import opened Basics
  import opened Checkins
  import opened Presence

  datatype Status = Present | Absent | Pending

  datatype Reason = MissingFactor | MissingExit

  datatype Consolidation = Consolidation(
    minutes: int, percentage: real, status: Status, resolvedBy: Option<Id>, resolvedAt: Option<int>)

  datatype Review = Review(
    person: Id, reason: Reason, resolvedBy: Option<Id>, resolvedAt: Option<int>, note: Option<string>)

  datatype Register = Register(
    consolidations: map<Id, Consolidation>, reviews: seq<Review>, intervals: map<Id, seq<IntervalRow>>)

  const EmptyRegister := Register(map[], [], map[])

  /** A class_session row together with its class_session_required_factor rows. */
  datatype Session = Session(
    tenant: Id, classGroup: Id, room: Id, scheduledStart: int, scheduledEnd: int,
    minPercentage: real, toleranceMinutes: int, postTolerance: string, requiredFactors: set<Id>)

  /** What one evaluation reads besides the register: the factor table and a scan of check-ins. */
  datatype Evidence = Evidence(codes: FactorCodes, scan: seq<Checkin>)

  datatype Verdict =
    | Deferred(reason: Reason)
    | Graded(minutes: int, percentage: real, status: Status)

  // ---------------------------------------------------------------------------
  // Grading one person
  // ---------------------------------------------------------------------------

  const MS_PER_MINUTE := 60000.0

  /** JavaScript's Math.round. */
  function Round(x: real): int {
    (x + 0.5).Floor
  }

  function RequiredCodes(codes: FactorCodes, session: Session): set<string> {
    set f | f in session.requiredFactors && f in codes :: codes[f]
  }

  function Percentage(totalMs: int, durationMs: int): real {
    var totalMinutes := totalMs as real / MS_PER_MINUTE;
    var sessionMinutes := durationMs as real / MS_PER_MINUTE;
    if sessionMinutes > 0.0 then totalMinutes / sessionMinutes * 100.0 else 0.0
  }

  function Judge(required: set<string>, satisfied: set<string>, pairing: Pairing, durationMs: int, minPercentage: real): Verdict {
    var missing := set code | code in required && code != ROOM_EXIT && code !in satisfied;
    if missing != {} then Deferred(MissingFactor)
    else if ROOM_EXIT in required && pairing.openEntryAt.Some? then Deferred(MissingExit)
    else if ROOM_ENTRY in required && ROOM_EXIT in required then
      var total := TotalMs(pairing.closed);
      var percentage := Percentage(total, durationMs);
      Graded(Round(total as real / MS_PER_MINUTE), percentage, if percentage >= minPercentage then Present else Absent)
    else Graded(0, 100.0, Present)
  }

  function SubjectOf(session: Session, sid: Id, person: Id): Subject {
    Subject(session.tenant, sid, person)
  }

  function PairingFor(session: Session, sid: Id, ev: Evidence, person: Id): Pairing {
    Pair(Timeline(ev.codes, ev.scan, SubjectOf(session, sid, person)))
  }

  function VerdictFor(session: Session, sid: Id, ev: Evidence, person: Id): Verdict {
    Judge(
      RequiredCodes(ev.codes, session),
      SatisfiedCodes(ev.codes, ev.scan, SubjectOf(session, sid, person), true),
      PairingFor(session, sid, ev, person),
      session.scheduledEnd - session.scheduledStart,
      session.minPercentage)
  }

  // ---------------------------------------------------------------------------
  // Writing a verdict
  // ---------------------------------------------------------------------------

  function IntervalRows(p: Pairing): seq<IntervalRow> {
    seq(|p.closed|, i requires 0 <= i < |p.closed| => IntervalRow(p.closed[i].entryAt, Some(p.closed[i].exitAt)))
    + (if p.openEntryAt.Some? then [IntervalRow(p.openEntryAt.value, None)] else [])
  }

  /** The stored rows mirror the events. */
  lemma {:induction false} RowsMirrorEvents(events: seq<RoomEvent>)
    ensures Mirrors(events, IntervalRows(Pair(events)))
  {
    var positions := StaysFound(events);
    assert RowsMirror(events, IntervalRows(Pair(events)), positions);
  }

  function Upserted(reg: Register, person: Id, minutes: int, percentage: real, status: Status): Register {
    var row :=
      if person in reg.consolidations
      then reg.consolidations[person].(minutes := minutes, percentage := percentage, status := status)
      else Consolidation(minutes, percentage, status, None, None);
    reg.(consolidations := reg.consolidations[person := row])
  }

  predicate HasUnresolved(reg: Register, person: Id, reason: Reason) {
    exists i :: 0 <= i < |reg.reviews| && IsUnresolved(reg.reviews[i], person, reason)
  }

  predicate IsUnresolved(r: Review, person: Id, reason: Reason) {
    r.person == person && r.reason == reason && r.resolvedAt.None?
  }

  function Recorded(reg: Register, person: Id, verdict: Verdict): Register {
    match verdict
    case Graded(minutes, percentage, status) => Upserted(reg, person, minutes, percentage, status)
    case Deferred(reason) =>
      var pending := Upserted(reg, person, 0, 0.0, Pending);
      if HasUnresolved(pending, person, reason) then pending
      else pending.(reviews := pending.reviews + [Review(person, reason, None, None, None)])
  }

  predicate DecidedByHuman(reg: Register, person: Id) {
    person in reg.consolidations && reg.consolidations[person].resolvedBy.Some?
  }

  /** Write a verdict and the rebuilt intervals, unless a human has decided. */
  function Written(reg: Register, person: Id, verdict: Verdict, rows: seq<IntervalRow>): Register {
    if DecidedByHuman(reg, person) then reg
    else Recorded(reg.(intervals := reg.intervals[person := rows]), person, verdict)
  }

  /** Everything `evaluatePerson` does to the tables. */
  function Evaluated(reg: Register, session: Session, sid: Id, ev: Evidence, person: Id): Register {
    Written(reg, person, VerdictFor(session, sid, ev, person), IntervalRows(PairingFor(session, sid, ev, person)))
  }

  function EvaluatedAll(reg: Register, session: Session, sid: Id, ev: Evidence, roster: seq<Id>): Register {
    if roster == [] then reg
    else Evaluated(EvaluatedAll(reg, session, sid, ev, roster[..|roster| - 1]), session, sid, ev, roster[|roster| - 1])
  }

  /** Unless a human has decided, an evaluation stores rows that mirror the person's timeline. */
  lemma {:induction false} EvaluatedMirrors(reg: Register, session: Session, sid: Id, ev: Evidence, person: Id)
    requires !(person in reg.consolidations && reg.consolidations[person].resolvedBy.Some?)
    ensures var out := Evaluated(reg, session, sid, ev, person);
            && person in out.intervals
            && Mirrors(Timeline(ev.codes, ev.scan, Subject(session.tenant, sid, person)), out.intervals[person])
  {
    RowsMirrorEvents(Timeline(ev.codes, ev.scan, Subject(session.tenant, sid, person)));
    var rows := IntervalRows(PairingFor(session, sid, ev, person));
    assert Evaluated(reg, session, sid, ev, person).intervals == reg.intervals[person := rows];
  }

  // ---------------------------------------------------------------------------
  // Resolving a review
  // ---------------------------------------------------------------------------

  /** leadership_assignment: no course means the whole institution, no group the whole course. */
  datatype Leadership = Leadership(person: Id, course: Option<Id>, classGroup: Option<Id>)

  /** What `resolve` reads besides the register: the session's row, class groups with their courses, leaders. */
  datatype Chain = Chain(session: Option<Session>, courseOf: map<Id, Id>, leaders: set<Leadership>)

  datatype ResolveError = BadDecision | ReviewNotFound | AlreadyResolved | SessionMissing | ClassGroupMissing | NotInChain

  predicate IsAuthorizedToResolve(leaders: set<Leadership>, person: Id, course: Id, classGroup: Id) {
    || Leadership(person, Some(course), Some(classGroup)) in leaders
    || Leadership(person, Some(course), None) in leaders
    || exists l :: l in leaders && l.person == person && l.course.None?
  }

  function ResolveCheck(reg: Register, id: Id, resolver: Id, decision: Status, chain: Chain): Option<ResolveError> {
    if decision != Present && decision != Absent then Some(BadDecision)
    else if |reg.reviews| <= id then Some(ReviewNotFound)
    else if reg.reviews[id].resolvedAt.Some? then Some(AlreadyResolved)
    else if chain.session.None? then Some(SessionMissing)
    else
      var group := chain.session.value.classGroup;
      if group !in chain.courseOf then Some(ClassGroupMissing)
      else if !IsAuthorizedToResolve(chain.leaders, resolver, chain.courseOf[group], group) then Some(NotInChain)
      else None
  }

  function Resolved(reg: Register, id: Id, resolver: Id, decision: Status, note: Option<string>, now: int): Register
    requires id < |reg.reviews|
  {
    var review := reg.reviews[id];
    var closed := reg.(reviews := reg.reviews[id := review.(resolvedBy := Some(resolver), resolvedAt := Some(now), note := note)]);
    if review.person in reg.consolidations then
      var row := reg.consolidations[review.person].(status := decision, resolvedBy := Some(resolver), resolvedAt := Some(now));
      closed.(consolidations := closed.consolidations[review.person := row])
    else closed
  }

  // ---------------------------------------------------------------------------
  // The services
  // ---------------------------------------------------------------------------

  datatype EvaluateError = SessionNotFound | NotEnded

  /** One session's rows of the three tables, and the service methods that write them. */
  class SessionRegister {
    var consolidations: map<Id, Consolidation>
    var reviews: seq<Review>
    var intervals: map<Id, seq<IntervalRow>>

    constructor ()
      ensures Tables() == EmptyRegister
    {
      consolidations, reviews, intervals := map[], [], map[];
    }

    function Tables(): Register
      reads this
    {
      Register(consolidations, reviews, intervals)
    }

    method EvaluateSession(session: Option<Session>, sid: Id, now: int, ev: Evidence, roster: seq<Id>)
      returns (r: Result<(), EvaluateError>)
      modifies this
      ensures session.None? ==> r == Err(SessionNotFound)
      ensures session.Some? && now < session.value.scheduledEnd ==> r == Err(NotEnded)
      ensures session.Some? && now >= session.value.scheduledEnd ==>
                r == Ok(()) && Tables() == EvaluatedAll(old(Tables()), session.value, sid, ev, roster)
      ensures r.Err? ==> Tables() == old(Tables())
    {
      if session.None? {
        return Err(SessionNotFound);
      }
      if now < session.value.scheduledEnd {
        return Err(NotEnded);
      }
      for i := 0 to |roster|
        invariant Tables() == EvaluatedAll(old(Tables()), session.value, sid, ev, roster[..i])
      {
        assert roster[..i + 1][..i] == roster[..i];
        EvaluatePerson(session.value, sid, ev, roster[i]);
      }
      assert roster[..|roster|] == roster;
      return Ok(());
    }

    method EvaluatePerson(session: Session, sid: Id, ev: Evidence, person: Id)
      modifies this
      ensures Tables() == Evaluated(old(Tables()), session, sid, ev, person)
      ensures person in old(consolidations) && old(consolidations)[person].resolvedBy.Some? ==> Tables() == old(Tables())
    {
      if person in consolidations && consolidations[person].resolvedBy.Some? {
        return;
      }
      var subject := SubjectOf(session, sid, person);
      var required := RequiredCodes(ev.codes, session);
      var satisfied := SatisfiedCodes(ev.codes, ev.scan, subject, true);
      var missing := set code | code in required && code != ROOM_EXIT && code !in satisfied;
      var pairing := RebuildForPerson(person, Timeline(ev.codes, ev.scan, subject));

      if missing != {} {
        RecordPending(person, MissingFactor);
      } else if ROOM_EXIT in required && pairing.openEntryAt.Some? {
        RecordPending(person, MissingExit);
      } else if ROOM_ENTRY in required && ROOM_EXIT in required {
        var total := TotalMs(pairing.closed);
        var percentage := Percentage(total, session.scheduledEnd - session.scheduledStart);
        UpsertConsolidation(person, Round(total as real / MS_PER_MINUTE), percentage,
                            if percentage >= session.minPercentage then Present else Absent);
      } else {
        UpsertConsolidation(person, 0, 100.0, Present);
      }
    }

    method RebuildForPerson(person: Id, events: seq<RoomEvent>) returns (pairing: Pairing)
      modifies this`intervals
      ensures pairing == Pair(events)
      ensures intervals == old(intervals)[person := IntervalRows(Pair(events))]
      ensures Mirrors(events, intervals[person])
      ensures forall other :: other != person ==>
                && (other in intervals <==> other in old(intervals))
                && (other in intervals ==> intervals[other] == old(intervals)[other])
    {
      RowsMirrorEvents(events);
      pairing := PairEvents(events);
      intervals := intervals[person := IntervalRows(pairing)];
    }

    method RecordPending(person: Id, reason: Reason)
      modifies this
      ensures Tables() == Recorded(old(Tables()), person, Deferred(reason))
      ensures intervals == old(intervals)
    {
      UpsertConsolidation(person, 0, 0.0, Pending);
      if exists i :: 0 <= i < |reviews| && IsUnresolved(reviews[i], person, reason) {
        return;
      }
      reviews := reviews + [Review(person, reason, None, None, None)];
    }

    method UpsertConsolidation(person: Id, minutes: int, percentage: real, status: Status)
      modifies this`consolidations
      ensures Tables() == Upserted(old(Tables()), person, minutes, percentage, status)
      ensures consolidations.Keys == old(consolidations).Keys + {person}
      ensures forall other :: other in old(consolidations) && other != person ==> consolidations[other] == old(consolidations)[other]
      ensures consolidations[person].minutes == minutes && consolidations[person].percentage == percentage
      ensures consolidations[person].status == status
      ensures if person in old(consolidations)
              then consolidations[person].resolvedBy == old(consolidations)[person].resolvedBy
                   && consolidations[person].resolvedAt == old(consolidations)[person].resolvedAt
              else consolidations[person].resolvedBy.None? && consolidations[person].resolvedAt.None?
    {
      if person in consolidations {
        var existing := consolidations[person];
        consolidations := consolidations[person := existing.(minutes := minutes, percentage := percentage, status := status)];
      } else {
        consolidations := consolidations[person := Consolidation(minutes, percentage, status, None, None)];
      }
    }

    method Resolve(id: Id, resolver: Id, decision: Status, note: Option<string>, now: int, chain: Chain)
      returns (r: Result<(), ResolveError>)
      modifies this
      ensures ResolveCheck(old(Tables()), id, resolver, decision, chain) ==
                (match r case Ok(_) => None case Err(e) => Some(e))
      ensures r.Err? ==> Tables() == old(Tables())
      ensures r.Ok? ==> id < |old(reviews)| && Tables() == Resolved(old(Tables()), id, resolver, decision, note, now)
      ensures r == Err(BadDecision) <==> decision == Pending
      ensures r == Err(ReviewNotFound) <==> decision != Pending && id >= |old(reviews)|
      ensures r == Err(AlreadyResolved) <==> decision != Pending && id < |old(reviews)| && old(reviews)[id].resolvedAt.Some?
      ensures r in {Err(SessionMissing), Err(ClassGroupMissing), Err(NotInChain), Ok(())} <==>
                decision != Pending && id < |old(reviews)| && old(reviews)[id].resolvedAt.None?
      ensures r == Err(SessionMissing) ==> chain.session.None?
      ensures r == Err(ClassGroupMissing) ==> chain.session.Some? && chain.session.value.classGroup !in chain.courseOf
      ensures r in {Err(NotInChain), Ok(())} ==> chain.session.Some? && chain.session.value.classGroup in chain.courseOf
      ensures r.Ok? || r == Err(NotInChain) ==>
                var group := chain.session.value.classGroup;
                (r.Ok? <==> exists l :: l in chain.leaders && l.person == resolver
                                        && (l.course.None?
                                            || (l.course == Some(chain.courseOf[group])
                                                && (l.classGroup == Some(group) || l.classGroup.None?))))
      ensures r.Ok? ==>
                && |reviews| == |old(reviews)| && (forall i :: 0 <= i < |reviews| && i != id ==> reviews[i] == old(reviews)[i])
                && reviews[id] == Review(old(reviews)[id].person, old(reviews)[id].reason, Some(resolver), Some(now), note)
                && intervals == old(intervals) && consolidations.Keys == old(consolidations).Keys
                && (forall p :: p in consolidations ==>
                      consolidations[p] ==
                        if p == reviews[id].person
                        then Consolidation(old(consolidations)[p].minutes, old(consolidations)[p].percentage, decision, Some(resolver), Some(now))
                        else old(consolidations)[p])
    {
      if decision != Present && decision != Absent { return Err(BadDecision); }
      if |reviews| <= id { return Err(ReviewNotFound); }
      var pending := reviews[id];
      if pending.resolvedAt.Some? { return Err(AlreadyResolved); }
      if chain.session.None? { return Err(SessionMissing); }
      var group := chain.session.value.classGroup;
      if group !in chain.courseOf { return Err(ClassGroupMissing); }
      if !IsAuthorizedToResolve(chain.leaders, resolver, chain.courseOf[group], group) { return Err(NotInChain); }

      reviews := reviews[id := pending.(resolvedBy := Some(resolver), resolvedAt := Some(now), note := note)];
      if pending.person in consolidations {
        var row := consolidations[pending.person];
        consolidations := consolidations[pending.person :=
          row.(status := decision, resolvedBy := Some(resolver), resolvedAt := Some(now))];
      }
      return Ok(());
    }
  }
}
