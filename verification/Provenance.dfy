/**
  Whose check-in it is: the person, factor and session of every stored check-in traced back
  to the events that caused it, in every run of the pipeline.
*/
module Provenance {
  import opened Basics
  import opened AttendanceRules
  import opened Pipeline
  import Outbox

  // ---------------------------------------------------------------------------
  // App events come only from their own person
  // ---------------------------------------------------------------------------

  /** `e` is a person's own app submission, made while `row`'s session was in progress for a
      class they are enrolled in. */
  predicate SentByApp(sessions: seq<Session>, e: Event, row: Outbox.Row<EventKey, RawEvent>) {
    && e.SendFromApp?
    && row.value.tenant == e.tenant && row.value.data.personId == Some(e.person) && row.value.capturedAt == e.now
    && row.value.data.classSessionId.Some?
    && row.value.data.classSessionId.value in ActiveSessions(sessions, e.enrollments, e.tenant, e.person, e.now)
  }

  ghost predicate HasSender(sessions: seq<Session>, es: seq<Event>, row: Outbox.Row<EventKey, RawEvent>) {
    row.value.eventType == AppCheckin ==>
      row.value.room.None? && exists k :: 0 <= k < |es| && SentByApp(sessions, es[k], row)
  }

  ghost predicate AllSent(s: State, es: seq<Event>) {
    && (forall i :: 0 <= i < |s.raw.rows| ==> HasSender(s.sessions, es, s.raw.rows[i]))
    && (forall w: Id :: Outbox.SenderOf(s.raw, w).Inserted? ==> HasSender(s.sessions, es, Outbox.SenderOf(s.raw, w).row))
  }

  /** And an app submission with exactly one session in progress stores the app's event for that
      session, when no other send is open and its key is new. */
  lemma {:induction false} SerialAppSendIsARun(
      s: State, w: Id, key: string, tenant: Id, person: Id, now: int, enrollments: set<Enrollment>, session: Id)
    requires Outbox.AllIdle(s.raw) && Outbox.IdOf(s.raw.rows, EventKey(tenant, key)).None?
    requires ActiveSessions(s.sessions, enrollments, tenant, person, now) == {session}
    ensures var t := Step(Step(s, SendFromApp(w, key, tenant, person, now, enrollments)), FinishSend(w, true));
            && t.raw.rows == s.raw.rows + [Outbox.Row(EventKey(tenant, key), AppEvent(tenant, person, session, now))]
            && t.raw.jobs == s.raw.jobs + [|s.raw.rows|] && t.sessions == s.sessions && t.checkin == s.checkin
  {
    var active := ActiveSessions(s.sessions, enrollments, tenant, person, now);
    forall other | active == {other} ensures other == session {
      assert session in {other};
    }
    Outbox.SerialInsertIsARun(s.raw, w, Outbox.Row(EventKey(tenant, key), AppEvent(tenant, person, session, now)));
  }

  lemma {:induction false} SenderStays(s: State, t: State, es: seq<Event>, e: Event, row: Outbox.Row<EventKey, RawEvent>)
    requires HasSender(s.sessions, es, row)
    requires |s.sessions| <= |t.sessions| && forall i :: 0 <= i < |s.sessions| ==> t.sessions[i] == s.sessions[i]
    ensures HasSender(t.sessions, es + [e], row)
  {
    if row.value.eventType == AppCheckin {
      var k :| 0 <= k < |es| && SentByApp(s.sessions, es[k], row);
      assert (es + [e])[k] == es[k] && SentByApp(t.sessions, es[k], row);
    }
  }

  /** What a send inserts is the sender's own. */
  lemma {:induction false} InsertHasSender(s: State, es: seq<Event>, e: Event, w: Id)
    requires var t := Step(s, e);
             Outbox.SenderOf(t.raw, w).Inserted? && Outbox.SenderOf(t.raw, w) != Outbox.SenderOf(s.raw, w)
    ensures HasSender(Step(s, e).sessions, es + [e], Outbox.SenderOf(Step(s, e).raw, w).row)
  {
    assert (es + [e])[|es|] == e;
    match e
    case SendFromApp(_, key, tenant, person, now, enrollments) =>
      var active := ActiveSessions(s.sessions, enrollments, tenant, person, now);
      var session :| active == {session};
      assert session in active;
      assert SentByApp(s.sessions, e, Outbox.SenderOf(Step(s, e).raw, w).row);
    case _ =>
  }

  lemma {:induction false} StepKeepsSent(s: State, es: seq<Event>, e: Event)
    requires AllSent(s, es)
    ensures AllSent(Step(s, e), es + [e])
  {
    var t := Step(s, e);
    forall w: Id | Outbox.SenderOf(t.raw, w).Inserted? ensures HasSender(t.sessions, es + [e], Outbox.SenderOf(t.raw, w).row) {
      if Outbox.SenderOf(t.raw, w) == Outbox.SenderOf(s.raw, w) {
        SenderStays(s, t, es, e, Outbox.SenderOf(s.raw, w).row);
      } else {
        InsertHasSender(s, es, e, w);
      }
    }
    forall i | 0 <= i < |t.raw.rows| ensures HasSender(t.sessions, es + [e], t.raw.rows[i]) {
      SenderStays(s, t, es, e, if i < |s.raw.rows| then s.raw.rows[i] else Outbox.SenderOf(s.raw, e.w).row);
    }
  }

  lemma {:induction false} EveryEventHasASender(es: seq<Event>)
    ensures AllSent(RunFrom(Start(), es), es)
    decreases |es|
  {
    if es != [] {
      EveryEventHasASender(es[..|es| - 1]);
      StepKeepsSent(RunFrom(Start(), es[..|es| - 1]), es[..|es| - 1], es[|es| - 1]);
      assert es == es[..|es| - 1] + [es[|es| - 1]];
    }
  }

  // ---------------------------------------------------------------------------
  // Check-ins come only from deliveries of their raw event
  // ---------------------------------------------------------------------------

  /** The registries name `person` as the one the event is about. */
  predicate HolderIs(world: World, raw: RawEvent, person: Id) {
    match raw.eventType
    case AppCheckin => raw.data.personId == Some(person)
    case FacialCheckin =>
      && raw.device.Some? && raw.data.matchReference.Some?
      && (raw.device.value, raw.data.matchReference.value) in world.face
      && world.face[(raw.device.value, raw.data.matchReference.value)] == person
    case _ =>
      && raw.data.tagCode.Some? && raw.data.tagCode.value != ""
      && raw.data.tagCode.value in world.wristband && world.wristband[raw.data.tagCode.value] == person
  }

  predicate IsPlatformFactor(world: World, code: string, factor: Id) {
    code in world.platformFactor && world.platformFactor[code] == factor
  }

  /** The registries name `factor` as what the event shows; camera counts show nothing. */
  predicate FactorIs(world: World, raw: RawEvent, factor: Id) {
    match raw.eventType
    case CameraCount => false
    case Custom =>
      && raw.data.factorCode.Some? && raw.data.factorCode.value in world.customFactor
      && world.customFactor[raw.data.factorCode.value] == factor
    case TagCheckin => IsPlatformFactor(world, "TAG_CHECKIN", factor)
    case FacialCheckin => IsPlatformFactor(world, "FACIAL_CHECKIN", factor)
    case RoomEntry => IsPlatformFactor(world, "ROOM_ENTRY", factor)
    case RoomExit => IsPlatformFactor(world, "ROOM_EXIT", factor)
    case AppCheckin => IsPlatformFactor(world, "APP_CHECKIN", factor)
  }

  /** An event becomes a check-in iff the registries name someone for it and something it shows;
      then the check-in is of that person and factor, in the event's tenant, at its capture time
      and of the session found. */
  lemma {:induction false} IdentifiedIff(world: World, raw: RawEvent, session: Option<Id>, c: NewCheckin)
    ensures Identified(world, raw, session) == Some(c) <==>
              && HolderIs(world, raw, c.key.person) && FactorIs(world, raw, c.key.factor)
              && c.key.tenant == raw.tenant && c.key.session == session && c.at == raw.capturedAt
  {
  }

  /** `e` delivered the raw event of `row`, and the registries of that moment say what it says. */
  predicate DeliveredAs(raws: seq<Outbox.Row<EventKey, RawEvent>>, e: Event, row: Outbox.Row<Id, NewCheckin>) {
    && e.Deliver? && e.rawId == row.key && row.key < |raws|
    && HolderIs(e.world, raws[row.key].value, row.value.key.person)
    && FactorIs(e.world, raws[row.key].value, row.value.key.factor)
    && (raws[row.key].value.room.None? ==> row.value.key.session == raws[row.key].value.data.classSessionId)
  }

  ghost predicate HasDelivery(raws: seq<Outbox.Row<EventKey, RawEvent>>, es: seq<Event>, row: Outbox.Row<Id, NewCheckin>) {
    exists k :: 0 <= k < |es| && DeliveredAs(raws, es[k], row)
  }

  ghost predicate AllDelivered(s: State, es: seq<Event>) {
    && (forall i :: 0 <= i < |s.checkin.rows| ==> HasDelivery(s.raw.rows, es, s.checkin.rows[i]))
    && (forall w: Id :: Outbox.SenderOf(s.checkin, w).Inserted? ==>
          HasDelivery(s.raw.rows, es, Outbox.SenderOf(s.checkin, w).row))
  }

  lemma {:induction false} DeliveryStays(s: State, t: State, es: seq<Event>, e: Event, row: Outbox.Row<Id, NewCheckin>)
    requires HasDelivery(s.raw.rows, es, row) && Grows(s, t)
    ensures HasDelivery(t.raw.rows, es + [e], row)
  {
    var k :| 0 <= k < |es| && DeliveredAs(s.raw.rows, es[k], row);
    assert (es + [e])[k] == es[k] && DeliveredAs(t.raw.rows, es[k], row);
  }

  lemma {:induction false} InsertHasDelivery(s: State, es: seq<Event>, e: Event, w: Id)
    requires var t := Step(s, e);
             Outbox.SenderOf(t.checkin, w).Inserted? && Outbox.SenderOf(t.checkin, w) != Outbox.SenderOf(s.checkin, w)
    ensures HasDelivery(Step(s, e).raw.rows, es + [e], Outbox.SenderOf(Step(s, e).checkin, w).row)
  {
    assert (es + [e])[|es|] == e;
    assert e.Deliver?;
    assert DeliveredAs(s.raw.rows, e, Outbox.SenderOf(Step(s, e).checkin, w).row);
  }

  lemma {:induction false} StepGrows(s: State, e: Event)
    ensures Grows(s, Step(s, e))
  {
  }

  lemma {:induction false} StepKeepsDelivered(s: State, es: seq<Event>, e: Event)
    requires AllDelivered(s, es)
    ensures AllDelivered(Step(s, e), es + [e])
  {
    var t := Step(s, e);
    StepGrows(s, e);
    forall w: Id | Outbox.SenderOf(t.checkin, w).Inserted?
      ensures HasDelivery(t.raw.rows, es + [e], Outbox.SenderOf(t.checkin, w).row)
    {
      if Outbox.SenderOf(t.checkin, w) == Outbox.SenderOf(s.checkin, w) {
        DeliveryStays(s, t, es, e, Outbox.SenderOf(s.checkin, w).row);
      } else {
        InsertHasDelivery(s, es, e, w);
      }
    }
    forall i | 0 <= i < |t.checkin.rows| ensures HasDelivery(t.raw.rows, es + [e], t.checkin.rows[i]) {
      DeliveryStays(s, t, es, e, if i < |s.checkin.rows| then s.checkin.rows[i] else Outbox.SenderOf(s.checkin, e.w).row);
    }
  }

  lemma {:induction false} EveryCheckinHasADelivery(es: seq<Event>)
    ensures AllDelivered(RunFrom(Start(), es), es)
    decreases |es|
  {
    if es != [] {
      EveryCheckinHasADelivery(es[..|es| - 1]);
      StepKeepsDelivered(RunFrom(Start(), es[..|es| - 1]), es[..|es| - 1], es[|es| - 1]);
      assert es == es[..|es| - 1] + [es[|es| - 1]];
    }
  }

  // ---------------------------------------------------------------------------
  // What every run guarantees
  // ---------------------------------------------------------------------------

  /** In every run a check-in's person and factor are what the registries answered for its raw
      event at one of that event's own deliveries. */
  lemma {:induction false} CheckinsNameTheirHolder(es: seq<Event>, i: Id)
    requires i < |RunFrom(Start(), es).checkin.rows|
    ensures var s := RunFrom(Start(), es);
            var c := s.checkin.rows[i];
            && c.key < |s.raw.rows|
            && exists k :: 0 <= k < |es| && es[k].Deliver? && es[k].rawId == c.key
                           && HolderIs(es[k].world, s.raw.rows[c.key].value, c.value.key.person)
                           && FactorIs(es[k].world, s.raw.rows[c.key].value, c.value.key.factor)
  {
    EveryCheckinHasADelivery(es);
    var s := RunFrom(Start(), es);
    var k :| 0 <= k < |es| && DeliveredAs(s.raw.rows, es[k], s.checkin.rows[i]);
    assert es[k].Deliver? && es[k].rawId == s.checkin.rows[i].key;
  }

  /** In every run an app check-in is one its own person submitted, at the server's time of
      that submission, for a session then in progress of a class they are enrolled in. */
  lemma {:induction false} AppCheckinsAreTheCallers(es: seq<Event>, i: Id)
    requires var s := RunFrom(Start(), es);
             && i < |s.checkin.rows| && s.checkin.rows[i].key < |s.raw.rows|
             && s.raw.rows[s.checkin.rows[i].key].value.eventType == AppCheckin
    ensures var s := RunFrom(Start(), es);
            var c := s.checkin.rows[i].value;
            && c.key.session.Some?
            && exists k :: 0 <= k < |es| && es[k].SendFromApp?
                           && es[k].tenant == c.key.tenant && es[k].person == c.key.person && es[k].now == c.at
                           && c.key.session.value in ActiveSessions(s.sessions, es[k].enrollments, es[k].tenant, es[k].person, es[k].now)
  {
    EveryRunIsSound(es);
    EveryEventHasASender(es);
    EveryCheckinHasADelivery(es);
    var s := RunFrom(Start(), es);
    var row := s.checkin.rows[i];
    assert HasSender(s.sessions, es, s.raw.rows[row.key]);
    var k :| 0 <= k < |es| && SentByApp(s.sessions, es[k], s.raw.rows[row.key]);
    var d :| 0 <= d < |es| && DeliveredAs(s.raw.rows, es[d], row);
    assert CheckinOk(s, row);
    assert es[k].SendFromApp?;
  }
}
