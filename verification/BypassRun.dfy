/**
  The one way past the session window, run from device to grade: a person enters the room in a
  one-hour session, and two hours after the entry a CUSTOM event without a room claims that
  session for the exit.
*/
module BypassRun {
  import opened Basics
  import opened Checkins
  import opened AttendanceRules
  import opened AttendanceProperties
  import opened Pipeline
  import Deduplication
  import Outbox

  const EntryEvent := RawEvent(0, RoomEntry, Some(0), 0, Some(0), EventData(Some("t"), None, None, None, None))
  const ClaimedExit := RawEvent(0, Custom, Some(0), 7200000, None, EventData(Some("t"), None, Some(ROOM_EXIT), None, Some(0)))
  const Registries := World(map[ROOM_ENTRY := 1, ROOM_EXIT := 2], map[ROOM_EXIT := 2], map["t" := 7], map[])

  ghost predicate Quiet(s: State) {
    Outbox.AllIdle(s.raw) && Outbox.AllIdle(s.checkin)
  }

  function CheckinEvents(w: Id, world: World, key: string, raw: RawEvent, rawId: Id, session: Option<Id>): seq<Event> {
    [SendFromDevice(w, key, raw), FinishSend(w, true), Deliver(w, rawId, world, session), FinishDelivery(w, true)]
  }

  lemma {:induction false} RunOfFour(s: State, a: Event, b: Event, c: Event, d: Event)
    ensures RunFrom(s, [a, b, c, d]) == Step(Step(Step(Step(s, a), b), c), d)
  {
    assert [a, b, c, d][..3] == [a, b, c] && [a, b, c][..2] == [a, b] && [a, b][..1] == [a] && [a][..0] == [];
    assert RunFrom(s, []) == s;
    assert RunFrom(s, [a]) == Step(s, a);
    assert RunFrom(s, [a, b]) == Step(Step(s, a), b);
    assert RunFrom(s, [a, b, c]) == Step(Step(Step(s, a), b), c);
  }

  lemma {:induction false} RunSplits(s: State, a: seq<Event>, b: seq<Event>)
    ensures RunFrom(s, a + b) == RunFrom(RunFrom(s, a), b)
    decreases |b|
  {
    if b == [] {
      assert a + b == a;
    } else {
      assert (a + b)[..|a + b| - 1] == a + b[..|b| - 1];
      RunSplits(s, a, b[..|b| - 1]);
    }
  }

  /** A committed send of a new valid event stores it with its job and leaves the rest alone. */
  lemma {:induction false} SerialSend(s: State, w: Id, key: string, raw: RawEvent)
    requires Quiet(s) && s.raw.jobs == seq(|s.raw.rows|, i => i)
    requires ValidEventData(raw.eventType, raw.data) && Outbox.IdOf(s.raw.rows, EventKey(raw.tenant, key)).None?
    ensures var t := Step(Step(s, SendFromDevice(w, key, raw)), FinishSend(w, true));
            && Quiet(t) && t.sessions == s.sessions && t.checkin == s.checkin
            && t.raw.rows == s.raw.rows + [Outbox.Row(EventKey(raw.tenant, key), raw)]
            && t.raw.jobs == seq(|t.raw.rows|, i => i)
  {
    Outbox.SerialInsertIsARun(s.raw, w, Outbox.Row(EventKey(raw.tenant, key), raw));
    var t := Step(Step(s, SendFromDevice(w, key, raw)), FinishSend(w, true));
    assert t.raw.jobs == seq(|t.raw.rows|, i => i);
  }

  /** A committed first delivery stores the check-in identification writes, with its
      deduplication job. */
  lemma {:induction false} SerialDelivery(s: State, w: Id, world: World, rawId: Id, session: Option<Id>)
    requires Quiet(s) && rawId < |s.raw.rows| && rawId in s.raw.jobs
    requires LegalSession(s.sessions, s.raw.rows[rawId].value, session) && SessionExists(s.sessions, session)
    requires Identified(world, s.raw.rows[rawId].value, session).Some? && Outbox.IdOf(s.checkin.rows, rawId).None?
    ensures var t := Step(Step(s, Deliver(w, rawId, world, session)), FinishDelivery(w, true));
            && Quiet(t) && t.sessions == s.sessions && t.raw == s.raw
            && t.checkin.rows ==
                 s.checkin.rows + [Outbox.Row(rawId, Identified(world, s.raw.rows[rawId].value, session).value)]
            && t.checkin.jobs == s.checkin.jobs + [|s.checkin.rows|]
  {
    Outbox.SerialInsertIsARun(s.checkin, w, Outbox.Row(rawId, Identified(world, s.raw.rows[rawId].value, session).value));
  }

  /** With no other transaction open, a new valid event becomes the check-in identification
      writes for it, with one identify job and one deduplication job. */
  lemma {:induction false} SerialCheckinIsARun(
      s: State, w: Id, world: World, key: string, raw: RawEvent, session: Option<Id>)
    requires Quiet(s) && s.raw.jobs == seq(|s.raw.rows|, i => i)
    requires ValidEventData(raw.eventType, raw.data) && Outbox.IdOf(s.raw.rows, EventKey(raw.tenant, key)).None?
    requires LegalSession(s.sessions, raw, session) && SessionExists(s.sessions, session)
    requires Identified(world, raw, session).Some? && Outbox.IdOf(s.checkin.rows, |s.raw.rows|).None?
    ensures var t := RunFrom(s, CheckinEvents(w, world, key, raw, |s.raw.rows|, session));
            && Quiet(t) && t.sessions == s.sessions
            && t.raw.rows == s.raw.rows + [Outbox.Row(EventKey(raw.tenant, key), raw)]
            && t.raw.jobs == seq(|t.raw.rows|, i => i)
            && t.checkin.rows == s.checkin.rows + [Outbox.Row(|s.raw.rows|, Identified(world, raw, session).value)]
            && t.checkin.jobs == s.checkin.jobs + [|s.checkin.rows|]
  {
    var n := |s.raw.rows|;
    RunOfFour(s, SendFromDevice(w, key, raw), FinishSend(w, true), Deliver(w, n, world, session), FinishDelivery(w, true));
    SerialSend(s, w, key, raw);
    var sent := Step(Step(s, SendFromDevice(w, key, raw)), FinishSend(w, true));
    assert sent.raw.jobs[n] == n;
    SerialDelivery(sent, w, world, n, session);
  }

  const EntryCheckin := NewCheckin(Key(0, 7, 1, Some(0)), 0)
  const ExitCheckin := NewCheckin(Key(0, 7, 2, Some(0)), 7200000)

  lemma {:induction false} RegistriesIdentify()
    ensures Identified(Registries, EntryEvent, Some(0)) == Some(EntryCheckin)
    ensures Identified(Registries, ClaimedExit, Some(0)) == Some(ExitCheckin)
  {
    assert ROOM_ENTRY[6] != ROOM_EXIT[6];
  }

  const Enter := CheckinEvents(0, Registries, "a", EntryEvent, 0, Some(0))
  const ClaimExit := CheckinEvents(0, Registries, "b", ClaimedExit, 1, Some(0))

  /** Each event is sent, committed, delivered and committed before the next. */
  const Events: seq<Event> := [AddSession(OneHour)] + Enter + ClaimExit

  lemma {:induction false} EntryIsStored()
    ensures var t := RunFrom(Start(), [AddSession(OneHour)] + Enter);
            && Quiet(t) && t.sessions == [OneHour]
            && t.raw.rows == [Outbox.Row(EventKey(0, "a"), EntryEvent)] && t.raw.jobs == seq(|t.raw.rows|, i => i)
            && t.checkin.rows == [Outbox.Row(0, EntryCheckin)]
  {
    var scheduled := Step(Start(), AddSession(OneHour));
    assert scheduled.sessions == [OneHour];
    assert RunFrom(Start(), [AddSession(OneHour)]) == scheduled by { assert [AddSession(OneHour)][..0] == []; }
    RegistriesIdentify();
    SerialCheckinIsARun(scheduled, 0, Registries, "a", EntryEvent, Some(0));
    RunSplits(Start(), [AddSession(OneHour)], Enter);
  }

  lemma {:induction false} OtherKeyIsNew(row: Outbox.Row<EventKey, RawEvent>)
    requires row.key == EventKey(0, "a")
    ensures Outbox.IdOf([row], EventKey(0, "b")).None?
  {
    assert "a"[0] != "b"[0];
  }

  /** The pipeline stores the late exit as a check-in of the session it claims. */
  lemma {:induction false} BypassIsStored()
    ensures var s := RunFrom(Start(), Events);
            && s.sessions == [OneHour]
            && s.checkin.rows == [Outbox.Row(0, EntryCheckin), Outbox.Row(1, ExitCheckin)]
            && s.raw.rows == [Outbox.Row(EventKey(0, "a"), EntryEvent), Outbox.Row(EventKey(0, "b"), ClaimedExit)]
            && Bypasses(ClaimedExit) && !SessionCovers(s.sessions, ClaimedExit.data.classSessionId, ClaimedExit.capturedAt)
  {
    EntryIsStored();
    var entered := RunFrom(Start(), [AddSession(OneHour)] + Enter);
    RegistriesIdentify();
    OtherKeyIsNew(entered.raw.rows[0]);
    assert Outbox.IdOf(entered.checkin.rows, 1).None?;
    SerialCheckinIsARun(entered, 0, Registries, "b", ClaimedExit, Some(0));
    RunSplits(Start(), [AddSession(OneHour)] + Enter, ClaimExit);
  }

  /** And the grade rests on it: both check-ins go through deduplication, both survive, and the
      one-hour session grades the person at 200%. */
  lemma {:induction false} BypassOverflowsAGrade(hash: Key -> int)
    ensures var s := RunFrom(Start(), Events);
            var env := Deduplication.Env(LateEvidence.codes, hash);
            var ds := Stored + Deduplication.JobEvents(0, None) + Deduplication.JobEvents(1, None);
            var settled := Deduplication.RunFrom(env, Deduplication.Start, ds);
            && FedBy(ds, s)
            && settled.done == {0, 1} && settled.rows == LateEvidence.scan
            && s.sessions == [OneHour]
            && VerdictFor(s.sessions[0], 0, Evidence(env.codes, settled.rows), 7) == Graded(120, 200.0, Present)
  {
    BypassIsStored();
    var s := RunFrom(Start(), Events);
    assert s.checkin.rows[0].value == EntryCheckin && s.checkin.rows[1].value == ExitCheckin;
    DifferentFactorsSurvive(Deduplication.Env(LateEvidence.codes, hash));
    OutsideTheWindowGradesOverflow();
  }

  const Stored: seq<Deduplication.Event> :=
    [Deduplication.Insert(EntryCheckin.key, 0, 0), Deduplication.Insert(ExitCheckin.key, 7200000, 1)]

  lemma {:induction false} BothAreStored(env: Deduplication.Env)
    ensures var t := Deduplication.RunFrom(env, Deduplication.Start, Stored);
            t.rows == [LateEntry, LateExit] && t.done == {} && forall v :: Deduplication.WorkerOf(t, v).Idle?
  {
    Deduplication.SingleEvent(env, Deduplication.Start, Stored[0]);
    Deduplication.SingleEvent(env, Deduplication.Step(env, Deduplication.Start, Stored[0]), Stored[1]);
    Deduplication.RunSplits(env, Deduplication.Start, [Stored[0]], [Stored[1]]);
    assert [Stored[0]] + [Stored[1]] == Stored;
  }

  /** Entry and exit have different factors, so neither job meets a candidate. */
  lemma {:induction false} JobFindsNobody(env: Deduplication.Env, s: Deduplication.State, id: Id)
    requires s.rows == [LateEntry, LateExit] && id < 2 && forall v :: Deduplication.WorkerOf(s, v).Idle?
    ensures var t := Deduplication.RunFrom(env, s, Deduplication.JobEvents(id, None));
            t.rows == s.rows && t.done == s.done + {id} && forall v :: Deduplication.WorkerOf(t, v).Idle?
  {
    assert Deduplication.LegalPick(env, s.rows, id, s.rows[id], None);
    Deduplication.SerialJobIsARun(env, s, 0, id, None);
  }

  lemma {:induction false} DifferentFactorsSurvive(env: Deduplication.Env)
    ensures var settled := Deduplication.RunFrom(env, Deduplication.Start,
              Stored + Deduplication.JobEvents(0, None) + Deduplication.JobEvents(1, None));
            settled.done == {0, 1} && settled.rows == LateEvidence.scan
  {
    BothAreStored(env);
    JobFindsNobody(env, Deduplication.RunFrom(env, Deduplication.Start, Stored), 0);
    Deduplication.RunSplits(env, Deduplication.Start, Stored, Deduplication.JobEvents(0, None));
    JobFindsNobody(
      env, Deduplication.RunFrom(env, Deduplication.Start, Stored + Deduplication.JobEvents(0, None)), 1);
    Deduplication.RunSplits(
      env, Deduplication.Start, Stored + Deduplication.JobEvents(0, None), Deduplication.JobEvents(1, None));
  }
}
