/** What grading and review resolution guarantee, for every register, roster and evidence. */
module AttendanceProperties {
  import opened Basics
  import opened Checkins
  import opened Presence
  import opened AttendanceRules

  // ---------------------------------------------------------------------------
  // Grades
  // ---------------------------------------------------------------------------

  lemma {:induction false} RatioIsAPercentage(total: real, whole: real)
    requires 0.0 <= total <= whole && 0.0 < whole
    ensures 0.0 <= total / whole * 100.0 <= 100.0
  {
    assert total / whole <= 1.0;
  }

  lemma {:induction false} PercentageIsBounded(totalMs: int, durationMs: int)
    requires 0 <= totalMs <= durationMs
    ensures 0.0 <= Percentage(totalMs, durationMs) <= 100.0
  {
    var total, whole := totalMs as real / MS_PER_MINUTE, durationMs as real / MS_PER_MINUTE;
    if whole > 0.0 {
      RatioIsAPercentage(total, whole);
    }
  }

  /** The room check-ins of `subject` were all taken inside the session's scheduled window. */
  ghost predicate TakenInside(session: Session, ev: Evidence, subject: Subject) {
    forall i :: 0 <= i < |ev.scan| && IsRoomCheckin(ev.codes, ev.scan[i], subject) ==>
      session.scheduledStart <= ev.scan[i].at <= session.scheduledEnd
  }

  function Duration(session: Session): nat {
    if session.scheduledStart <= session.scheduledEnd then session.scheduledEnd - session.scheduledStart else 0
  }

  /** Permanence never exceeds the session: the closed intervals sum to at most its duration. */
  lemma {:induction false} PermanenceFitsSession(session: Session, sid: Id, ev: Evidence, person: Id)
    requires TakenInside(session, ev, SubjectOf(session, sid, person))
    ensures 0 <= TotalMs(PairingFor(session, sid, ev, person).closed) <= Duration(session)
  {
    var subject := SubjectOf(session, sid, person);
    var events := Timeline(ev.codes, ev.scan, subject);
    SortByTimeSorts(Selected(ev.codes, ev.scan, subject));
    forall e | e in events ensures session.scheduledStart <= e.at <= session.scheduledEnd {
      TimelineIsExact(ev.codes, ev.scan, subject, e);
    }
    assert |events| > 0 ==> events[0] in events;
    if events != [] {
      PresenceFitsWindow(events, session.scheduledStart, session.scheduledEnd);
    }
  }

  /** A grade is a percentage, and its minutes fit the session. */
  lemma {:induction false} GradesAreBounded(session: Session, sid: Id, ev: Evidence, person: Id)
    requires TakenInside(session, ev, SubjectOf(session, sid, person))
    ensures VerdictFor(session, sid, ev, person).Graded? ==>
              && 0.0 <= VerdictFor(session, sid, ev, person).percentage <= 100.0
              && 0 <= VerdictFor(session, sid, ev, person).minutes <= Round(Duration(session) as real / MS_PER_MINUTE)
  {
    PermanenceFitsSession(session, sid, ev, person);
    JudgeIsBounded(
      RequiredCodes(ev.codes, session), SatisfiedCodes(ev.codes, ev.scan, SubjectOf(session, sid, person), true),
      PairingFor(session, sid, ev, person), session);
  }

  lemma {:induction false} JudgeIsBounded(required: set<string>, satisfied: set<string>, pairing: Pairing, session: Session)
    requires 0 <= TotalMs(pairing.closed) <= Duration(session)
    ensures var v := Judge(required, satisfied, pairing, session.scheduledEnd - session.scheduledStart, session.minPercentage);
            v.Graded? ==> 0.0 <= v.percentage <= 100.0 && 0 <= v.minutes <= Round(Duration(session) as real / MS_PER_MINUTE)
  {
    if session.scheduledStart <= session.scheduledEnd {
      PercentageIsBounded(TotalMs(pairing.closed), Duration(session));
    }
  }

  const LateEntry := Checkin(Key(0, 7, 1, Some(0)), 0, 0, false, None)
  const LateExit := Checkin(Key(0, 7, 2, Some(0)), 7200000, 1, false, None)
  const LateEvidence := Evidence(map[1 := ROOM_ENTRY, 2 := ROOM_EXIT], [LateEntry, LateExit])
  const OneHour := Session(0, 0, 0, 0, 3600000, 75.0, 0, "register_only", {1, 2})

  lemma {:induction false} LateExitTimeline()
    ensures PairingFor(OneHour, 0, LateEvidence, 7) == Pairing([Interval(0, 7200000)], None)
  {
    var subject := SubjectOf(OneHour, 0, 7);
    var events := [RoomEvent(0, true), RoomEvent(7200000, false)];
    assert ROOM_ENTRY[6] != ROOM_EXIT[6];
    assert LateEvidence.scan[..1] == [LateEntry];
    assert Selected(LateEvidence.codes, [LateEntry], subject) == [events[0]];
    assert Selected(LateEvidence.codes, LateEvidence.scan, subject) == events;
    assert events[..1] == [events[0]];
    assert SortByTime([events[0]]) == [events[0]];
    assert SortByTime(events) == events;
    assert AdjacentPairs(events[..1]) == [];
  }

  lemma {:induction false} LateExitFactors()
    ensures RequiredCodes(LateEvidence.codes, OneHour) == {ROOM_ENTRY, ROOM_EXIT}
    ensures SatisfiedCodes(LateEvidence.codes, LateEvidence.scan, SubjectOf(OneHour, 0, 7), true) == {ROOM_ENTRY, ROOM_EXIT}
  {
    var required := RequiredCodes(LateEvidence.codes, OneHour);
    assert 1 in OneHour.requiredFactors && LateEvidence.codes[1] in required;
    assert 2 in OneHour.requiredFactors && LateEvidence.codes[2] in required;
    var satisfied := SatisfiedCodes(LateEvidence.codes, LateEvidence.scan, SubjectOf(OneHour, 0, 7), true);
    assert LateEvidence.codes[LateEvidence.scan[0].key.factor] in satisfied;
    assert LateEvidence.codes[LateEvidence.scan[1].key.factor] in satisfied;
  }

  lemma {:induction false} TwiceTheHour()
    ensures Percentage(7200000, 3600000) == 200.0
    ensures Round(7200000 as real / MS_PER_MINUTE) == 120
  {
    assert 7200000 as real / MS_PER_MINUTE == 120.0;
    assert 3600000 as real / MS_PER_MINUTE == 60.0;
  }

  lemma {:induction false} TwiceTheHourIsGraded(codes: set<string>, pairing: Pairing)
    requires ROOM_ENTRY in codes && ROOM_EXIT in codes && pairing == Pairing([Interval(0, 7200000)], None)
    ensures Judge(codes, codes, pairing, 3600000, 75.0) == Graded(120, 200.0, Present)
  {
    assert pairing.closed[..0] == [];
    assert TotalMs(pairing.closed) == 7200000;
    TwiceTheHour();
  }

  /** Without the window the bound fails: an exit two hours after its entry, in a
      one-hour session, is graded at 200%. */
  lemma {:induction false} OutsideTheWindowGradesOverflow()
    ensures VerdictFor(OneHour, 0, LateEvidence, 7) == Graded(120, 200.0, Present)
  {
    LateExitTimeline();
    LateExitFactors();
    TwiceTheHourIsGraded({ROOM_ENTRY, ROOM_EXIT}, PairingFor(OneHour, 0, LateEvidence, 7));
  }

  /** Nobody is graded on empty evidence: where entry and exit are both required, a grade
      rests on at least one closed interval and leaves nothing open. */
  lemma {:induction false} NoGradeOnEmptyEvidence(session: Session, sid: Id, ev: Evidence, person: Id)
    requires Requires(session, ev, "ROOM_ENTRY") && Requires(session, ev, "ROOM_EXIT")
    requires VerdictFor(session, sid, ev, person).Graded?
    ensures PairingFor(session, sid, ev, person).closed != []
    ensures PairingFor(session, sid, ev, person).openEntryAt.None?
  {
    CodesAreExact(session, sid, ev, person, "ROOM_ENTRY");
    CodesAreExact(session, sid, ev, person, "ROOM_EXIT");
    var subject := SubjectOf(session, sid, person);
    var satisfied := SatisfiedCodes(ev.codes, ev.scan, subject, true);
    assert ROOM_ENTRY[6] != ROOM_EXIT[6];
    var missing := set code | code in RequiredCodes(ev.codes, session) && code != ROOM_EXIT && code !in satisfied;
    assert missing == {} && ROOM_ENTRY !in missing;
    var i :| 0 <= i < |ev.scan| && Concerns(ev.scan[i], subject) && ev.scan[i].key.factor in ev.codes
             && !ev.scan[i].isDuplicate && ev.codes[ev.scan[i].key.factor] == ROOM_ENTRY;
    var e := RoomEventOf(ev.codes, ev.scan[i]);
    assert IsRoomCheckin(ev.codes, ev.scan[i], subject);
    TimelineIsExact(ev.codes, ev.scan, subject, e);
    EntryLeavesATrace(Timeline(ev.codes, ev.scan, subject));
  }

  /** Some surviving check-in of the person in the session shows the factor code. */
  ghost predicate Shown(session: Session, sid: Id, ev: Evidence, person: Id, code: string) {
    exists i :: 0 <= i < |ev.scan| && ShowsCode(ev.codes, ev.scan[i], session.tenant, sid, person, code)
  }

  predicate ShowsCode(codes: FactorCodes, c: Checkin, tenant: Id, sid: Id, person: Id, code: string) {
    && c.key.tenant == tenant && c.key.session == Some(sid) && c.key.person == person && !c.isDuplicate
    && c.key.factor in codes && codes[c.key.factor] == code
  }

  /** The session requires the factor code. */
  ghost predicate Requires(session: Session, ev: Evidence, code: string) {
    exists f :: f in session.requiredFactors && f in ev.codes && ev.codes[f] == code
  }

  lemma {:induction false} CodesAreExact(session: Session, sid: Id, ev: Evidence, person: Id, code: string)
    ensures code in RequiredCodes(ev.codes, session) <==> Requires(session, ev, code)
    ensures code in SatisfiedCodes(ev.codes, ev.scan, SubjectOf(session, sid, person), true)
            <==> Shown(session, sid, ev, person, code)
  {
    if code in SatisfiedCodes(ev.codes, ev.scan, SubjectOf(session, sid, person), true) {
      var i :| 0 <= i < |ev.scan| && Concerns(ev.scan[i], SubjectOf(session, sid, person)) && ev.scan[i].key.factor in ev.codes
               && !ev.scan[i].isDuplicate && ev.codes[ev.scan[i].key.factor] == code;
      assert ShowsCode(ev.codes, ev.scan[i], session.tenant, sid, person, code);
    }
    if i :| 0 <= i < |ev.scan| && ShowsCode(ev.codes, ev.scan[i], session.tenant, sid, person, code) {
      assert Concerns(ev.scan[i], SubjectOf(session, sid, person));
    }
  }

  /** Some required factor other than the exit was never shown. */
  ghost predicate LacksFactor(session: Session, sid: Id, ev: Evidence, person: Id) {
    exists code :: code != "ROOM_EXIT" && Requires(session, ev, code) && !Shown(session, sid, ev, person, code)
  }

  lemma {:induction false} LacksIffMissing(session: Session, sid: Id, ev: Evidence, person: Id)
    ensures var missing := set code | code in RequiredCodes(ev.codes, session) && code != ROOM_EXIT
                                      && code !in SatisfiedCodes(ev.codes, ev.scan, SubjectOf(session, sid, person), true);
            LacksFactor(session, sid, ev, person) <==> missing != {}
  {
    var missing := set code | code in RequiredCodes(ev.codes, session) && code != ROOM_EXIT
                              && code !in SatisfiedCodes(ev.codes, ev.scan, SubjectOf(session, sid, person), true);
    forall code: string
      ensures code in missing <==> code != "ROOM_EXIT" && Requires(session, ev, code) && !Shown(session, sid, ev, person, code)
    {
      CodesAreExact(session, sid, ev, person, code);
    }
    if code :| code in missing {
      assert Requires(session, ev, code) && !Shown(session, sid, ev, person, code);
    }
    if code :| code != "ROOM_EXIT" && Requires(session, ev, code) && !Shown(session, sid, ev, person, code) {
      assert code in missing;
    }
  }

  /** `missing_factor` is reported exactly when some required factor other than the exit was
      never shown; an unshown exit alone never is a missing factor. */
  lemma {:induction false} MissingFactorIff(session: Session, sid: Id, ev: Evidence, person: Id)
    ensures VerdictFor(session, sid, ev, person) == Deferred(MissingFactor) <==> LacksFactor(session, sid, ev, person)
  {
    LacksIffMissing(session, sid, ev, person);
  }

  /** The person's room events of the session in time order. */
  function RoomEvents(session: Session, sid: Id, ev: Evidence, person: Id): seq<RoomEvent> {
    Timeline(ev.codes, ev.scan, Subject(session.tenant, sid, person))
  }

  /** `missing_exit` is reported exactly for someone who lacks no other factor and whose last
      room check-in is an entry, in a session that requires exits. */
  lemma {:induction false} MissingExitIff(session: Session, sid: Id, ev: Evidence, person: Id)
    ensures var events := RoomEvents(session, sid, ev, person);
            VerdictFor(session, sid, ev, person) == Deferred(MissingExit) <==>
              && !LacksFactor(session, sid, ev, person)
              && Requires(session, ev, "ROOM_EXIT")
              && events != [] && events[|events| - 1].isEntry
  {
    LacksIffMissing(session, sid, ev, person);
    CodesAreExact(session, sid, ev, person, "ROOM_EXIT");
  }

  lemma {:induction false} RatioAgainst(total: real, whole: real, bound: real)
    requires whole > 0.0
    ensures total / whole * 100.0 >= bound <==> 100.0 * total >= bound * whole
  {
    var ratio := total / whole;
    assert ratio * whole == total;
    if ratio * 100.0 >= bound {
      assert ratio * 100.0 * whole >= bound * whole;
    } else {
      assert ratio * 100.0 * whole < bound * whole;
    }
  }

  lemma {:induction false} PercentageAgainst(totalMs: int, durationMs: int, bound: real)
    requires durationMs > 0
    ensures Percentage(totalMs, durationMs) >= bound <==> 100.0 * totalMs as real >= bound * durationMs as real
  {
    var total, whole := totalMs as real / MS_PER_MINUTE, durationMs as real / MS_PER_MINUTE;
    RatioAgainst(total, whole, bound);
    assert bound * whole * MS_PER_MINUTE == bound * durationMs as real;
  }

  /** The stored percentage, without division: that share of the duration is a hundred times the total. */
  lemma {:induction false} PercentageIsExact(totalMs: int, durationMs: int)
    ensures if durationMs > 0 then Percentage(totalMs, durationMs) * durationMs as real == 100.0 * totalMs as real
            else Percentage(totalMs, durationMs) == 0.0
  {
    if durationMs > 0 {
      var total, whole := totalMs as real / MS_PER_MINUTE, durationMs as real / MS_PER_MINUTE;
      var ratio := total / whole;
      assert ratio * whole == total;
      assert ratio * whole * 60000.0 == totalMs as real;
      assert whole * 60000.0 == durationMs as real;
      assert ratio * durationMs as real == totalMs as real;
    }
  }

  /** The minutes are the nearest whole number, halves rounded up. */
  lemma {:induction false} RoundedMinutes(totalMs: int)
    ensures -30000 <= totalMs - Round(totalMs as real / MS_PER_MINUTE) * 60000 < 30000
  {
    var x := totalMs as real / MS_PER_MINUTE;
    var m := Round(x);
    assert m as real <= x + 0.5 < m as real + 1.0;
    assert x * 60000.0 == totalMs as real;
    assert m as real * 60000.0 == (m * 60000) as real;
  }

  /** What a grade for `total` milliseconds of a session of `duration` says. */
  ghost predicate IsGradeFor(v: Verdict, total: int, duration: int, minimum: real) {
    && v.Graded?
    && (v.status == Present <==>
          if duration > 0 then 100.0 * total as real >= minimum * duration as real else minimum <= 0.0)
    && v.status != Pending
    && (if duration > 0 then v.percentage * duration as real == 100.0 * total as real else v.percentage == 0.0)
    && -30000 <= total - v.minutes * 60000 < 30000
  }

  lemma {:induction false} GradeIsExact(total: int, duration: int, minimum: real)
    ensures IsGradeFor(Graded(Round(total as real / MS_PER_MINUTE), Percentage(total, duration),
                              if Percentage(total, duration) >= minimum then Present else Absent), total, duration, minimum)
  {
    if duration > 0 {
      PercentageAgainst(total, duration, minimum);
    }
    PercentageIsExact(total, duration);
    RoundedMinutes(total);
  }

  lemma {:induction false} JudgedGrade(required: set<string>, satisfied: set<string>, pairing: Pairing, duration: int, minimum: real)
    requires Judge(required, satisfied, pairing, duration, minimum).Graded?
    ensures var v := Judge(required, satisfied, pairing, duration, minimum);
            if ROOM_ENTRY in required && ROOM_EXIT in required
            then IsGradeFor(v, TotalMs(pairing.closed), duration, minimum)
            else v == Graded(0, 100.0, Present)
  {
    GradeIsExact(TotalMs(pairing.closed), duration, minimum);
  }

  /** Where entry and exit are both required, a graded person is present iff a hundred times
      the permanence reaches the minimum share of the session; the percentage is that share and
      the minutes the nearest whole number. Anywhere else everyone graded is present in full. */
  lemma {:induction false} PresentIff(session: Session, sid: Id, ev: Evidence, person: Id)
    requires VerdictFor(session, sid, ev, person).Graded?
    ensures var v := VerdictFor(session, sid, ev, person);
            if Requires(session, ev, "ROOM_ENTRY") && Requires(session, ev, "ROOM_EXIT")
            then IsGradeFor(v, TotalMs(Pair(RoomEvents(session, sid, ev, person)).closed),
                            session.scheduledEnd - session.scheduledStart, session.minPercentage)
            else v == Graded(0, 100.0, Present)
  {
    CodesAreExact(session, sid, ev, person, "ROOM_ENTRY");
    CodesAreExact(session, sid, ev, person, "ROOM_EXIT");
    JudgedGrade(
      RequiredCodes(ev.codes, session), SatisfiedCodes(ev.codes, ev.scan, SubjectOf(session, sid, person), true),
      PairingFor(session, sid, ev, person), session.scheduledEnd - session.scheduledStart, session.minPercentage);
  }

  // ---------------------------------------------------------------------------
  // Review lifecycle
  // ---------------------------------------------------------------------------

  ghost predicate OneReviewPerReason(reg: Register) {
    forall i, j :: 0 <= i < j < |reg.reviews| ==>
      reg.reviews[i].person != reg.reviews[j].person || reg.reviews[i].reason != reg.reviews[j].reason
  }

  /** A review belongs to a graded person, and a resolved one was decided by a human. */
  ghost predicate ReviewOk(reg: Register, r: Review) {
    && r.person in reg.consolidations
    && (r.resolvedAt.Some? ==> DecidedByHuman(reg, r.person))
  }

  ghost predicate Awaits(reg: Register, person: Id) {
    HasUnresolved(reg, person, MissingFactor) || HasUnresolved(reg, person, MissingExit)
  }

  ghost predicate RowOk(reg: Register, person: Id)
    requires person in reg.consolidations
  {
    && (reg.consolidations[person].status == Pending ==> Awaits(reg, person))
    && (DecidedByHuman(reg, person) ==> reg.consolidations[person].status != Pending)
  }

  ghost predicate LifecycleOk(reg: Register) {
    && OneReviewPerReason(reg)
    && (forall i :: 0 <= i < |reg.reviews| ==> ReviewOk(reg, reg.reviews[i]))
    && (forall p :: p in reg.consolidations ==> RowOk(reg, p))
  }

  /** Reviews are only ever added to, except for the fields a resolution writes. */
  lemma {:induction false} UnresolvedCarriesOver(a: Register, b: Register, person: Id, reason: Reason)
    requires |a.reviews| <= |b.reviews|
    requires forall i :: 0 <= i < |a.reviews| && a.reviews[i].person == person ==> b.reviews[i] == a.reviews[i]
    requires HasUnresolved(a, person, reason)
    ensures HasUnresolved(b, person, reason)
  {
    var i :| 0 <= i < |a.reviews| && IsUnresolved(a.reviews[i], person, reason);
    assert IsUnresolved(b.reviews[i], person, reason);
  }

  /** Deferring someone leaves a pending row of nought minutes and opens a review of exactly
      that person and reason iff none of theirs for it is unresolved. */
  lemma {:induction false} DeferringOpensIff(reg: Register, person: Id, reason: Reason)
    ensures var out := Recorded(reg, person, Deferred(reason));
            && person in out.consolidations && out.consolidations[person].status == Pending
            && out.consolidations[person].minutes == 0 && out.consolidations[person].percentage == 0.0
            && out.intervals == reg.intervals
            && out.reviews == reg.reviews +
                 if exists i :: 0 <= i < |reg.reviews| && reg.reviews[i].person == person && reg.reviews[i].reason == reason
                                && reg.reviews[i].resolvedAt.None?
                 then [] else [Review(person, reason, None, None, None)]
  {
    var pending := Upserted(reg, person, 0, 0.0, Pending);
    assert pending.reviews == reg.reviews && reg.reviews + [] == reg.reviews;
    forall i | 0 <= i < |reg.reviews|
      ensures IsUnresolved(pending.reviews[i], person, reason) <==>
                reg.reviews[i].person == person && reg.reviews[i].reason == reason && reg.reviews[i].resolvedAt.None?
    {
    }
    if i :| 0 <= i < |reg.reviews| && reg.reviews[i].person == person && reg.reviews[i].reason == reason
            && reg.reviews[i].resolvedAt.None? {
      assert IsUnresolved(pending.reviews[i], person, reason);
      assert HasUnresolved(pending, person, reason);
    }
  }

  lemma {:induction false} RecordedKeepsLifecycle(reg: Register, person: Id, verdict: Verdict)
    requires LifecycleOk(reg) && !DecidedByHuman(reg, person)
    requires verdict.Graded? ==> verdict.status != Pending
    ensures LifecycleOk(Recorded(reg, person, verdict))
  {
    var out := Recorded(reg, person, verdict);
    forall i | 0 <= i < |out.reviews| ensures ReviewOk(out, out.reviews[i]) {
      if i < |reg.reviews| {
        assert ReviewOk(reg, reg.reviews[i]);
      }
    }
    if verdict.Deferred? {
      var pending := Upserted(reg, person, 0, 0.0, Pending);
      if !HasUnresolved(pending, person, verdict.reason) {
        forall i | 0 <= i < |reg.reviews| && reg.reviews[i].person == person
          ensures reg.reviews[i].reason != verdict.reason
        {
          assert ReviewOk(reg, reg.reviews[i]);
          assert !IsUnresolved(pending.reviews[i], person, verdict.reason);
        }
        assert IsUnresolved(out.reviews[|reg.reviews|], person, verdict.reason);
      }
      assert HasUnresolved(out, person, verdict.reason);
      assert Awaits(out, person);
    }
    forall p | p in out.consolidations ensures RowOk(out, p) {
      if p != person {
        assert RowOk(reg, p);
        if reg.consolidations[p].status == Pending {
          var reason := if HasUnresolved(reg, p, MissingFactor) then MissingFactor else MissingExit;
          UnresolvedCarriesOver(reg, out, p, reason);
        }
      }
    }
  }

  lemma {:induction false} WrittenKeepsLifecycle(reg: Register, person: Id, verdict: Verdict, rows: seq<IntervalRow>)
    requires LifecycleOk(reg)
    requires verdict.Graded? ==> verdict.status != Pending
    ensures LifecycleOk(Written(reg, person, verdict, rows))
  {
    if !DecidedByHuman(reg, person) {
      var rebuilt := reg.(intervals := reg.intervals[person := rows]);
      forall p | p in rebuilt.consolidations ensures RowOk(rebuilt, p) {
        assert RowOk(reg, p);
        assert HasUnresolved(reg, p, MissingFactor) == HasUnresolved(rebuilt, p, MissingFactor);
        assert HasUnresolved(reg, p, MissingExit) == HasUnresolved(rebuilt, p, MissingExit);
      }
      forall i | 0 <= i < |rebuilt.reviews| ensures ReviewOk(rebuilt, rebuilt.reviews[i]) {
        assert ReviewOk(reg, reg.reviews[i]);
      }
      RecordedKeepsLifecycle(rebuilt, person, verdict);
    }
  }

  lemma {:induction false} EvaluatedAllKeepsLifecycle(reg: Register, session: Session, sid: Id, ev: Evidence, roster: seq<Id>)
    requires LifecycleOk(reg)
    ensures LifecycleOk(EvaluatedAll(reg, session, sid, ev, roster))
    decreases |roster|
  {
    if roster != [] {
      var init := roster[..|roster| - 1];
      EvaluatedAllKeepsLifecycle(reg, session, sid, ev, init);
      var last := roster[|roster| - 1];
      WrittenKeepsLifecycle(
        EvaluatedAll(reg, session, sid, ev, init), last,
        VerdictFor(session, sid, ev, last), IntervalRows(PairingFor(session, sid, ev, last)));
    }
  }

  lemma {:induction false} ResolvedKeepsLifecycle(reg: Register, id: Id, resolver: Id, decision: Status, note: Option<string>, now: int)
    requires LifecycleOk(reg) && id < |reg.reviews| && decision != Pending
    ensures LifecycleOk(Resolved(reg, id, resolver, decision, note, now))
  {
    var out := Resolved(reg, id, resolver, decision, note, now);
    var person := reg.reviews[id].person;
    assert ReviewOk(reg, reg.reviews[id]);
    forall i | 0 <= i < |out.reviews| ensures ReviewOk(out, out.reviews[i]) {
      assert ReviewOk(reg, reg.reviews[i]);
    }
    forall p | p in out.consolidations ensures RowOk(out, p) {
      assert RowOk(reg, p);
      if p != person && reg.consolidations[p].status == Pending {
        var reason := if HasUnresolved(reg, p, MissingFactor) then MissingFactor else MissingExit;
        UnresolvedCarriesOver(reg, out, p, reason);
      }
    }
  }

  /** The leader's list and the resolve check agree: a review is listed for a person iff
      that person could resolve it now. The list's condition is the SQL text's own. */
  predicate IsListedFor(reg: Register, chain: Chain, person: Id, id: Id) {
    && id < |reg.reviews|
    && reg.reviews[id].resolvedAt.None?
    && chain.session.Some?
    && chain.session.value.classGroup in chain.courseOf
    && var group := chain.session.value.classGroup;
       var course := chain.courseOf[group];
       exists la :: la in chain.leaders && la.person == person
                    && ((la.course == Some(course) && la.classGroup == Some(group))
                        || (la.course == Some(course) && la.classGroup.None?)
                        || la.course.None?)
  }

  lemma {:induction false} ListedIffResolvable(reg: Register, chain: Chain, person: Id, id: Id, decision: Status)
    requires decision != Pending
    ensures IsListedFor(reg, chain, person, id) <==> ResolveCheck(reg, id, person, decision, chain).None?
  {
  }

  /** A person already decided can be decided again exactly while another review of theirs is
      unresolved; the leader and the decision play no part in it. */
  lemma {:induction false} SecondDecisionIff(reg: Register, person: Id, resolver: Id, decision: Status, chain: Chain)
    requires LifecycleOk(reg) && DecidedByHuman(reg, person) && decision != Pending
    requires chain.session.Some? && chain.session.value.classGroup in chain.courseOf
    requires IsAuthorizedToResolve(
               chain.leaders, resolver, chain.courseOf[chain.session.value.classGroup], chain.session.value.classGroup)
    ensures Awaits(reg, person) <==>
              exists id: Id :: id < |reg.reviews| && reg.reviews[id].person == person
                               && ResolveCheck(reg, id, resolver, decision, chain).None?
  {
    if Awaits(reg, person) {
      var reason := if HasUnresolved(reg, person, MissingFactor) then MissingFactor else MissingExit;
      var id :| 0 <= id < |reg.reviews| && IsUnresolved(reg.reviews[id], person, reason);
      assert ResolveCheck(reg, id, resolver, decision, chain).None?;
    }
    if id: Id :| id < |reg.reviews| && reg.reviews[id].person == person
                 && ResolveCheck(reg, id, resolver, decision, chain).None? {
      assert IsUnresolved(reg.reviews[id], person, reg.reviews[id].reason);
    }
  }

  // ---------------------------------------------------------------------------
  // Human decisions survive the engine
  // ---------------------------------------------------------------------------

  /** `b` leaves `person` as `a` had them and opens no review for them. */
  ghost predicate SameFor(a: Register, b: Register, person: Id) {
    && (person in a.consolidations <==> person in b.consolidations)
    && (person in a.consolidations ==> a.consolidations[person] == b.consolidations[person])
    && (person in a.intervals <==> person in b.intervals)
    && (person in a.intervals ==> a.intervals[person] == b.intervals[person])
    && |a.reviews| <= |b.reviews|
    && (forall i :: 0 <= i < |a.reviews| ==> a.reviews[i] == b.reviews[i])
    && (forall i :: |a.reviews| <= i < |b.reviews| ==> b.reviews[i].person != person)
  }

  lemma {:induction false} WrittenSparesOthers(
      reg: Register, writtenFor: Id, verdict: Verdict, rows: seq<IntervalRow>, person: Id)
    requires writtenFor != person || DecidedByHuman(reg, person)
    ensures SameFor(reg, Written(reg, writtenFor, verdict, rows), person)
  {
    NewReviews(reg, writtenFor, verdict, rows);
  }

  lemma {:induction false} SparingComposes(a: Register, b: Register, c: Register, person: Id)
    requires SameFor(a, b, person) && SameFor(b, c, person)
    ensures SameFor(a, c, person)
  {
  }

  /** Evaluating a roster leaves alone everyone it must not touch: people a human has
      decided, and people who are not on it. */
  lemma {:induction false} EvaluationSparesDecided(
      reg: Register, session: Session, sid: Id, ev: Evidence, roster: seq<Id>, person: Id)
    requires DecidedByHuman(reg, person) || person !in roster
    ensures SameFor(reg, EvaluatedAll(reg, session, sid, ev, roster), person)
    decreases |roster|
  {
    if roster != [] {
      var before, last := EvaluatedAll(reg, session, sid, ev, roster[..|roster| - 1]), roster[|roster| - 1];
      EvaluationSparesDecided(reg, session, sid, ev, roster[..|roster| - 1], person);
      WrittenSparesOthers(
        before, last, VerdictFor(session, sid, ev, last), IntervalRows(PairingFor(session, sid, ev, last)), person);
      SparingComposes(reg, before, EvaluatedAll(reg, session, sid, ev, roster), person);
    }
  }

  // ---------------------------------------------------------------------------
  // Evaluation is idempotent and does not depend on roster order
  // ---------------------------------------------------------------------------

  ghost predicate SettledAs(reg: Register, person: Id, verdict: Verdict, rows: seq<IntervalRow>) {
    Written(reg, person, verdict, rows) == reg
  }

  ghost predicate Settled(reg: Register, session: Session, sid: Id, ev: Evidence, person: Id) {
    SettledAs(reg, person, VerdictFor(session, sid, ev, person), IntervalRows(PairingFor(session, sid, ev, person)))
  }

  lemma {:induction false} WrittenSettles(reg: Register, person: Id, verdict: Verdict, rows: seq<IntervalRow>)
    ensures SettledAs(Written(reg, person, verdict, rows), person, verdict, rows)
  {
    var once := Written(reg, person, verdict, rows);
    if !DecidedByHuman(reg, person) {
      assert once.intervals[person := once.intervals[person]] == once.intervals;
      assert once.consolidations[person := once.consolidations[person]] == once.consolidations;
      if verdict.Deferred? {
        NewReviews(reg, person, verdict, rows);
        if HasUnresolved(reg, person, verdict.reason) {
          UnresolvedCarriesOver(reg, once, person, verdict.reason);
        } else {
          assert IsUnresolved(once.reviews[|reg.reviews|], person, verdict.reason);
        }
        assert HasUnresolved(once, person, verdict.reason);
        assert Upserted(once, person, 0, 0.0, Pending) == once;
      }
    }
  }

  lemma {:induction false} SettledStays(
      reg: Register, person: Id, verdict: Verdict, rows: seq<IntervalRow>, other: Id, otherVerdict: Verdict, otherRows: seq<IntervalRow>)
    requires SettledAs(reg, person, verdict, rows) && person != other
    ensures SettledAs(Written(reg, other, otherVerdict, otherRows), person, verdict, rows)
  {
    var next := Written(reg, other, otherVerdict, otherRows);
    if !DecidedByHuman(reg, person) {
      assert person in reg.intervals && person in reg.consolidations;
      assert next.intervals[person := next.intervals[person]] == next.intervals;
      assert next.consolidations[person := next.consolidations[person]] == next.consolidations;
      if verdict.Deferred? {
        NewReviews(reg, person, verdict, rows);
        assert HasUnresolved(reg, person, verdict.reason);
        NewReviews(reg, other, otherVerdict, otherRows);
        UnresolvedCarriesOver(reg, next, person, verdict.reason);
        assert Upserted(next, person, 0, 0.0, Pending) == next;
      }
    }
  }

  lemma {:induction false} RosterSettles(reg: Register, session: Session, sid: Id, ev: Evidence, roster: seq<Id>, person: Id)
    requires person in roster
    ensures Settled(EvaluatedAll(reg, session, sid, ev, roster), session, sid, ev, person)
    decreases |roster|
  {
    var init, last := roster[..|roster| - 1], roster[|roster| - 1];
    var before := EvaluatedAll(reg, session, sid, ev, init);
    if person == last {
      WrittenSettles(before, last, VerdictFor(session, sid, ev, last), IntervalRows(PairingFor(session, sid, ev, last)));
    } else {
      assert person in init;
      RosterSettles(reg, session, sid, ev, init, person);
      SettledStays(
        before,
        person, VerdictFor(session, sid, ev, person), IntervalRows(PairingFor(session, sid, ev, person)),
        last, VerdictFor(session, sid, ev, last), IntervalRows(PairingFor(session, sid, ev, last)));
    }
  }

  lemma {:induction false} NothingToDo(reg: Register, session: Session, sid: Id, ev: Evidence, roster: seq<Id>)
    requires forall p :: p in roster ==> Settled(reg, session, sid, ev, p)
    ensures EvaluatedAll(reg, session, sid, ev, roster) == reg
    decreases |roster|
  {
    if roster != [] {
      NothingToDo(reg, session, sid, ev, roster[..|roster| - 1]);
      assert roster[|roster| - 1] in roster;
    }
  }

  /** A second evaluation on the same evidence changes nothing at all. */
  lemma {:induction false} EvaluationIsIdempotent(reg: Register, session: Session, sid: Id, ev: Evidence, roster: seq<Id>)
    ensures var once := EvaluatedAll(reg, session, sid, ev, roster);
            EvaluatedAll(once, session, sid, ev, roster) == once
  {
    var once := EvaluatedAll(reg, session, sid, ev, roster);
    forall p | p in roster ensures Settled(once, session, sid, ev, p) {
      RosterSettles(reg, session, sid, ev, roster, p);
    }
    NothingToDo(once, session, sid, ev, roster);
  }

  /** Equal up to the ids generated for reviews. */
  ghost predicate SameUpToIds(a: Register, b: Register) {
    a.consolidations == b.consolidations && a.intervals == b.intervals && multiset(a.reviews) == multiset(b.reviews)
  }

  lemma {:induction false} UnresolvedIgnoresIds(a: Register, b: Register, person: Id, reason: Reason)
    requires multiset(a.reviews) == multiset(b.reviews) && HasUnresolved(a, person, reason)
    ensures HasUnresolved(b, person, reason)
  {
    var i :| 0 <= i < |a.reviews| && IsUnresolved(a.reviews[i], person, reason);
    assert a.reviews[i] in multiset(b.reviews);
    var j :| 0 <= j < |b.reviews| && b.reviews[j] == a.reviews[i];
  }

  lemma {:induction false} OpenedIgnoresIds(a: Register, b: Register, person: Id, verdict: Verdict)
    requires SameUpToIds(a, b)
    ensures Opened(a, person, verdict) == Opened(b, person, verdict)
  {
    if verdict.Deferred? {
      if HasUnresolved(a, person, verdict.reason) {
        UnresolvedIgnoresIds(a, b, person, verdict.reason);
      } else if HasUnresolved(b, person, verdict.reason) {
        UnresolvedIgnoresIds(b, a, person, verdict.reason);
      }
    }
  }

  lemma {:induction false} RowsIgnoreIds(a: Register, b: Register, person: Id, verdict: Verdict, rows: seq<IntervalRow>)
    requires a.consolidations == b.consolidations && a.intervals == b.intervals
    ensures Written(a, person, verdict, rows).consolidations == Written(b, person, verdict, rows).consolidations
    ensures Written(a, person, verdict, rows).intervals == Written(b, person, verdict, rows).intervals
  {
  }

  lemma {:induction false} SumOfReviews(a: seq<Review>, b: seq<Review>)
    ensures multiset(a + b) == multiset(a) + multiset(b)
  {
  }

  lemma {:induction false} WrittenIgnoresIds(a: Register, b: Register, person: Id, verdict: Verdict, rows: seq<IntervalRow>)
    requires SameUpToIds(a, b)
    ensures SameUpToIds(Written(a, person, verdict, rows), Written(b, person, verdict, rows))
  {
    NewReviews(a, person, verdict, rows);
    NewReviews(b, person, verdict, rows);
    OpenedIgnoresIds(a, b, person, verdict);
    RowsIgnoreIds(a, b, person, verdict, rows);
    SumOfReviews(a.reviews, Opened(a, person, verdict));
    SumOfReviews(b.reviews, Opened(b, person, verdict));
  }

  /** The reviews one verdict opens. */
  function Opened(reg: Register, person: Id, verdict: Verdict): seq<Review> {
    if DecidedByHuman(reg, person) || verdict.Graded? || HasUnresolved(reg, person, verdict.reason) then []
    else [Review(person, verdict.reason, None, None, None)]
  }

  lemma {:induction false} NewReviews(reg: Register, person: Id, verdict: Verdict, rows: seq<IntervalRow>)
    ensures Written(reg, person, verdict, rows).reviews == reg.reviews + Opened(reg, person, verdict)
  {
    if verdict.Deferred? {
      var pending := Upserted(reg.(intervals := reg.intervals[person := rows]), person, 0, 0.0, Pending);
      assert HasUnresolved(pending, person, verdict.reason) == HasUnresolved(reg, person, verdict.reason);
    }
  }

  lemma {:induction false} OthersReviews(reg: Register, p: Id, verdictP: Verdict, rowsP: seq<IntervalRow>, q: Id, verdictQ: Verdict)
    requires p != q
    ensures Opened(Written(reg, p, verdictP, rowsP), q, verdictQ) == Opened(reg, q, verdictQ)
  {
    NewReviews(reg, p, verdictP, rowsP);
    if verdictQ.Deferred? {
      if HasUnresolved(reg, q, verdictQ.reason) {
        UnresolvedCarriesOver(reg, Written(reg, p, verdictP, rowsP), q, verdictQ.reason);
      }
    }
  }

  /** One verdict writes one consolidation row and one person's intervals. */
  lemma {:induction false} NewRows(reg: Register, person: Id, verdict: Verdict, rows: seq<IntervalRow>) returns (row: Consolidation)
    ensures !DecidedByHuman(reg, person) ==>
              && Written(reg, person, verdict, rows).consolidations == reg.consolidations[person := row]
              && Written(reg, person, verdict, rows).intervals == reg.intervals[person := rows]
  {
    row := if !DecidedByHuman(reg, person) then Written(reg, person, verdict, rows).consolidations[person]
           else Consolidation(0, 0.0, Pending, None, None);
  }

  lemma {:induction false} SameRowAfterOther(
      reg: Register, p: Id, verdictP: Verdict, rowsP: seq<IntervalRow>, q: Id, verdictQ: Verdict, rowsQ: seq<IntervalRow>)
    requires p != q && !DecidedByHuman(reg, q)
    ensures !DecidedByHuman(Written(reg, p, verdictP, rowsP), q)
    ensures Written(Written(reg, p, verdictP, rowsP), q, verdictQ, rowsQ).consolidations[q]
         == Written(reg, q, verdictQ, rowsQ).consolidations[q]
  {
  }

  lemma {:induction false} UpdatesCommute<V>(m: map<Id, V>, p: Id, q: Id, v: V, w: V)
    requires p != q
    ensures m[p := v][q := w] == m[q := w][p := v]
  {
  }

  lemma {:induction false} RowsCommute(
      reg: Register, p: Id, verdictP: Verdict, rowsP: seq<IntervalRow>, q: Id, verdictQ: Verdict, rowsQ: seq<IntervalRow>)
    requires p != q && !DecidedByHuman(reg, p) && !DecidedByHuman(reg, q)
    ensures var pq := Written(Written(reg, p, verdictP, rowsP), q, verdictQ, rowsQ);
            var qp := Written(Written(reg, q, verdictQ, rowsQ), p, verdictP, rowsP);
            pq.consolidations == qp.consolidations && pq.intervals == qp.intervals
  {
    SameRowAfterOther(reg, p, verdictP, rowsP, q, verdictQ, rowsQ);
    SameRowAfterOther(reg, q, verdictQ, rowsQ, p, verdictP, rowsP);
    var afterP, afterQ := Written(reg, p, verdictP, rowsP), Written(reg, q, verdictQ, rowsQ);
    var rowP := NewRows(reg, p, verdictP, rowsP);
    var rowQ := NewRows(reg, q, verdictQ, rowsQ);
    var thenQ := NewRows(afterP, q, verdictQ, rowsQ);
    var thenP := NewRows(afterQ, p, verdictP, rowsP);
    UpdatesCommute(reg.consolidations, p, q, rowP, rowQ);
    UpdatesCommute(reg.intervals, p, q, rowsP, rowsQ);
  }

  lemma {:induction false} WritesCommute(
      reg: Register, p: Id, verdictP: Verdict, rowsP: seq<IntervalRow>, q: Id, verdictQ: Verdict, rowsQ: seq<IntervalRow>)
    requires p != q
    ensures SameUpToIds(Written(Written(reg, p, verdictP, rowsP), q, verdictQ, rowsQ),
                        Written(Written(reg, q, verdictQ, rowsQ), p, verdictP, rowsP))
  {
    if !DecidedByHuman(reg, p) && !DecidedByHuman(reg, q) {
      RowsCommute(reg, p, verdictP, rowsP, q, verdictQ, rowsQ);
    }
    NewReviews(reg, p, verdictP, rowsP);
    NewReviews(reg, q, verdictQ, rowsQ);
    NewReviews(Written(reg, p, verdictP, rowsP), q, verdictQ, rowsQ);
    NewReviews(Written(reg, q, verdictQ, rowsQ), p, verdictP, rowsP);
    OthersReviews(reg, p, verdictP, rowsP, q, verdictQ);
    OthersReviews(reg, q, verdictQ, rowsQ, p, verdictP);
  }

  lemma {:induction false} EvaluatedIgnoresIds(a: Register, b: Register, session: Session, sid: Id, ev: Evidence, person: Id)
    requires SameUpToIds(a, b)
    ensures SameUpToIds(Evaluated(a, session, sid, ev, person), Evaluated(b, session, sid, ev, person))
  {
    WrittenIgnoresIds(a, b, person, VerdictFor(session, sid, ev, person), IntervalRows(PairingFor(session, sid, ev, person)));
  }

  /** Evaluating two people in either order gives the same tables. */
  lemma {:induction false} EvaluationsCommute(reg: Register, session: Session, sid: Id, ev: Evidence, p: Id, q: Id)
    ensures SameUpToIds(
              Evaluated(Evaluated(reg, session, sid, ev, p), session, sid, ev, q),
              Evaluated(Evaluated(reg, session, sid, ev, q), session, sid, ev, p))
  {
    if p != q {
      WritesCommute(
        reg,
        p, VerdictFor(session, sid, ev, p), IntervalRows(PairingFor(session, sid, ev, p)),
        q, VerdictFor(session, sid, ev, q), IntervalRows(PairingFor(session, sid, ev, q)));
    }
  }

  lemma {:induction false} EvaluatedAllSplits(
      reg: Register, session: Session, sid: Id, ev: Evidence, a: seq<Id>, b: seq<Id>)
    ensures EvaluatedAll(reg, session, sid, ev, a + b)
         == EvaluatedAll(EvaluatedAll(reg, session, sid, ev, a), session, sid, ev, b)
    decreases |b|
  {
    if b == [] {
      assert a + b == a;
    } else {
      assert (a + b)[..|a + b| - 1] == a + b[..|b| - 1];
      EvaluatedAllSplits(reg, session, sid, ev, a, b[..|b| - 1]);
    }
  }

  lemma {:induction false} SwapLastTwo(
      a: Register, front: Register, session: Session, sid: Id, ev: Evidence, p: Id, last: Id)
    requires SameUpToIds(a, Evaluated(front, session, sid, ev, p))
    ensures SameUpToIds(Evaluated(a, session, sid, ev, last), Evaluated(Evaluated(front, session, sid, ev, last), session, sid, ev, p))
  {
    EvaluatedIgnoresIds(a, Evaluated(front, session, sid, ev, p), session, sid, ev, last);
    EvaluationsCommute(front, session, sid, ev, p, last);
  }

  lemma {:induction false} EvaluatedAllSnoc(reg: Register, session: Session, sid: Id, ev: Evidence, roster: seq<Id>, last: Id)
    ensures EvaluatedAll(reg, session, sid, ev, roster + [last])
         == Evaluated(EvaluatedAll(reg, session, sid, ev, roster), session, sid, ev, last)
  {
    assert (roster + [last])[..|roster|] == roster;
  }

  /** Evaluating one person before a roster or after it gives the same tables. */
  lemma {:induction false} FirstCanGoLast(reg: Register, session: Session, sid: Id, ev: Evidence, p: Id, rest: seq<Id>)
    ensures SameUpToIds(EvaluatedAll(reg, session, sid, ev, [p] + rest),
                        Evaluated(EvaluatedAll(reg, session, sid, ev, rest), session, sid, ev, p))
    decreases |rest|
  {
    if rest == [] {
      EvaluatedAllSnoc(reg, session, sid, ev, [], p);
      assert [p] + rest == [] + [p];
    } else {
      var init, last := rest[..|rest| - 1], rest[|rest| - 1];
      assert [p] + rest == ([p] + init) + [last];
      FirstCanGoLast(reg, session, sid, ev, p, init);
      EvaluatedAllSnoc(reg, session, sid, ev, [p] + init, last);
      SwapLastTwo(
        EvaluatedAll(reg, session, sid, ev, [p] + init), EvaluatedAll(reg, session, sid, ev, init), session, sid, ev, p, last);
    }
  }

  lemma {:induction false} EvaluatedAllIgnoresIds(
      a: Register, b: Register, session: Session, sid: Id, ev: Evidence, roster: seq<Id>)
    requires SameUpToIds(a, b)
    ensures SameUpToIds(EvaluatedAll(a, session, sid, ev, roster), EvaluatedAll(b, session, sid, ev, roster))
    decreases |roster|
  {
    if roster != [] {
      var init := roster[..|roster| - 1];
      EvaluatedAllIgnoresIds(a, b, session, sid, ev, init);
      EvaluatedIgnoresIds(
        EvaluatedAll(a, session, sid, ev, init), EvaluatedAll(b, session, sid, ev, init), session, sid, ev, roster[|roster| - 1]);
    }
  }

  /** Any two orders of the same roster store the same tables, up to review ids. */
  lemma {:induction false} RosterOrderIsIrrelevant(
      reg: Register, session: Session, sid: Id, ev: Evidence, a: seq<Id>, b: seq<Id>)
    requires multiset(a) == multiset(b)
    ensures SameUpToIds(EvaluatedAll(reg, session, sid, ev, a), EvaluatedAll(reg, session, sid, ev, b))
    decreases |a|
  {
    if a == [] {
      assert |b| == |multiset(b)| == |multiset(a)| == 0;
    } else {
      var p, init := a[|a| - 1], a[..|a| - 1];
      assert a == init + [p];
      assert p in multiset(b);
      var k :| 0 <= k < |b| && b[k] == p;
      var others := b[..k] + b[k + 1..];
      RemoveOne(b, k);
      assert multiset(init) == multiset(a) - multiset{p};
      RosterOrderIsIrrelevant(reg, session, sid, ev, init, others);
      EvaluatedIgnoresIds(EvaluatedAll(reg, session, sid, ev, init), EvaluatedAll(reg, session, sid, ev, others), session, sid, ev, p);
      BringBack(reg, session, sid, ev, b, k);
    }
  }

  lemma {:induction false} RemoveOne(s: seq<Id>, k: nat)
    requires k < |s|
    ensures multiset(s[..k] + s[k + 1..]) == multiset(s) - multiset{s[k]}
  {
    assert s == s[..k] + ([s[k]] + s[k + 1..]);
  }

  lemma {:induction false} BringBack(reg: Register, session: Session, sid: Id, ev: Evidence, roster: seq<Id>, k: nat)
    requires k < |roster|
    ensures SameUpToIds(
              Evaluated(EvaluatedAll(reg, session, sid, ev, roster[..k] + roster[k + 1..]), session, sid, ev, roster[k]),
              EvaluatedAll(reg, session, sid, ev, roster))
  {
    var front, back, p := roster[..k], roster[k + 1..], roster[k];
    var start := EvaluatedAll(reg, session, sid, ev, front);
    assert roster == front + ([p] + back);
    EvaluatedAllSplits(reg, session, sid, ev, front, [p] + back);
    EvaluatedAllSplits(reg, session, sid, ev, front, back);
    FirstCanGoLast(start, session, sid, ev, p, back);
  }
}
