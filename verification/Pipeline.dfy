/**
  From a device or the app to a stored check-in (ingestion.service.ts, app-checkin.service.ts,
  identification.service.ts), and on to deduplication and grading.
*/
module Pipeline {
  import opened Basics
  import opened Checkins
  import opened AttendanceRules
  import opened AttendanceProperties
  import Deduplication
  import Presence
  import Outbox

  datatype EventType = TagCheckin | FacialCheckin | RoomEntry | RoomExit | CameraCount | Custom | AppCheckin

  /** The fields of raw_payload.data the pipeline reads. */
  datatype EventData = EventData(
    tagCode: Option<string>, matchReference: Option<string>, factorCode: Option<string>,
    personId: Option<Id>, classSessionId: Option<Id>)

  datatype RawEvent = RawEvent(
    tenant: Id, eventType: EventType, device: Option<Id>, capturedAt: int, room: Option<Id>, data: EventData)

  /** Unique within a tenant. */
  datatype EventKey = EventKey(tenant: Id, idempotencyKey: string)

  datatype IngestError = InvalidData | NoActiveSession | AmbiguousSession | FactorMissing

  predicate NonEmpty(s: Option<string>) {
    s.Some? && s.value != ""
  }

  /** A device event's data has its required field and, unless CUSTOM, no field but that one. */
  predicate ValidEventData(eventType: EventType, data: EventData) {
    match eventType
    case TagCheckin | RoomEntry | RoomExit =>
      NonEmpty(data.tagCode) && data == EventData(data.tagCode, None, None, None, None)
    case FacialCheckin =>
      NonEmpty(data.matchReference) && data == EventData(None, data.matchReference, None, None, None)
    case CameraCount => data == EventData(None, None, None, None, None)
    case Custom => NonEmpty(data.factorCode)
    case AppCheckin => false
  }

  /** class_group_enrollment rows. */
  datatype Enrollment = Enrollment(classGroup: Id, person: Id)

  predicate Covers(session: Session, at: int) {
    session.scheduledStart <= at <= session.scheduledEnd
  }

  /** Sessions in progress for any class the person is enrolled in. */
  function ActiveSessions(sessions: seq<Session>, enrollments: set<Enrollment>, tenant: Id, person: Id, now: int): set<Id> {
    set s: Id | 0 <= s < |sessions| && sessions[s].tenant == tenant && Covers(sessions[s], now)
                && Enrollment(sessions[s].classGroup, person) in enrollments
  }

  datatype Resolution = ResolvedTo(session: Id) | NoneActive | Ambiguous

  ghost predicate IsResolution(active: set<Id>, r: Resolution) {
    match r
    case ResolvedTo(s) => active == {s}
    case NoneActive => active == {}
    case Ambiguous => |active| > 1
  }

  function AppEvent(tenant: Id, person: Id, session: Id, now: int): RawEvent {
    RawEvent(tenant, AppCheckin, None, now, None, EventData(None, None, None, Some(person), Some(session)))
  }

  /** The registries a worker consults: what each lookup answers at that moment. */
  datatype World = World(
    platformFactor: map<string, Id>, customFactor: map<string, Id>,
    wristband: map<string, Id>, face: map<(Id, string), Id>)

  function CodeOf(eventType: EventType): string {
    match eventType
    case TagCheckin => "TAG_CHECKIN"
    case FacialCheckin => "FACIAL_CHECKIN"
    case RoomEntry => ROOM_ENTRY
    case RoomExit => ROOM_EXIT
    case CameraCount => "CAMERA_COUNT"
    case Custom => "CUSTOM"
    case AppCheckin => "APP_CHECKIN"
  }

  function Lookup<K>(m: map<K, Id>, k: K): Option<Id> {
    if k in m then Some(m[k]) else None
  }

  function ResolveFactorType(world: World, raw: RawEvent): Option<Id> {
    if raw.eventType == Custom
    then (if raw.data.factorCode.Some? then Lookup(world.customFactor, raw.data.factorCode.value) else None)
    else Lookup(world.platformFactor, CodeOf(raw.eventType))
  }

  function ResolvePerson(world: World, raw: RawEvent): Option<Id> {
    if raw.eventType == AppCheckin then raw.data.personId
    else if raw.eventType == FacialCheckin then
      if raw.device.Some? && raw.data.matchReference.Some?
      then Lookup(world.face, (raw.device.value, raw.data.matchReference.value))
      else None
    else if NonEmpty(raw.data.tagCode) then Lookup(world.wristband, raw.data.tagCode.value)
    else None
  }

  predicate InRoomThen(sessions: seq<Session>, raw: RawEvent, s: Id) {
    && s < |sessions| && sessions[s].tenant == raw.tenant
    && raw.room == Some(sessions[s].room) && Covers(sessions[s], raw.capturedAt)
  }

  /** What the unordered room-and-time query may answer. */
  ghost predicate LegalSession(sessions: seq<Session>, raw: RawEvent, session: Option<Id>) {
    if raw.room.None? then session == raw.data.classSessionId
    else match session
         case Some(s) => InRoomThen(sessions, raw, s)
         case None => forall s: Id :: !InRoomThen(sessions, raw, s)
  }

  /** The foreign key of a check-in's session; an ignored insert is not held to it. */
  predicate SessionExists(sessions: seq<Session>, session: Option<Id>) {
    session.Some? ==> session.value < |sessions|
  }

  /** A check-in as identification writes it, before deduplication. */
  datatype NewCheckin = NewCheckin(key: Key, at: int)

  /** The check-in a raw event becomes, if its factor and its person are known. */
  function Identified(world: World, raw: RawEvent, session: Option<Id>): Option<NewCheckin> {
    var factor, person := ResolveFactorType(world, raw), ResolvePerson(world, raw);
    if raw.eventType == CameraCount || factor.None? || person.None? then None
    else Some(NewCheckin(Key(raw.tenant, person.value, factor.value, session), raw.capturedAt))
  }

  // ---------------------------------------------------------------------------
  // The services, one transaction at a time
  // ---------------------------------------------------------------------------

  class CheckinPipeline {
    const raws: Outbox.Table<EventKey, RawEvent>
    const checkins: Outbox.Table<Id, NewCheckin>
    var sessions: seq<Session>

    constructor ()
      ensures fresh(raws) && fresh(checkins) && raws.rows == [] && checkins.rows == [] && sessions == []
      ensures raws.jobs == [] && checkins.jobs == []
    {
      raws := new Outbox.Table();
      checkins := new Outbox.Table();
      sessions := [];
    }

    /** `ingest`: refuse malformed data, otherwise store the event once and enqueue it once. */
    method Ingest(key: string, raw: RawEvent) returns (r: Result<Outbox.Receipt<EventKey>, IngestError>)
      modifies raws
      ensures r.Ok? <==> ValidEventData(raw.eventType, raw.data)
      ensures r.Ok? <==>
                && raw.eventType != AppCheckin
                && (raw.eventType in {TagCheckin, RoomEntry, RoomExit} ==> raw.data.tagCode.Some? && raw.data.tagCode.value != "")
                && (raw.eventType == FacialCheckin ==> raw.data.matchReference.Some? && raw.data.matchReference.value != "")
                && (raw.eventType == Custom ==> raw.data.factorCode.Some? && raw.data.factorCode.value != "")
                && (raw.eventType != Custom ==>
                      && raw.data.factorCode.None? && raw.data.personId.None? && raw.data.classSessionId.None?
                      && (raw.eventType !in {TagCheckin, RoomEntry, RoomExit} ==> raw.data.tagCode.None?)
                      && (raw.eventType != FacialCheckin ==> raw.data.matchReference.None?))
      ensures r.Err? ==> r.error == InvalidData && raws.rows == old(raws.rows) && raws.jobs == old(raws.jobs)
      ensures r.Ok? ==> Stored(old(raws.rows), old(raws.jobs), EventKey(raw.tenant, key), raw, r.value, raws.rows, raws.jobs)
    {
      if !ValidEventData(raw.eventType, raw.data) {
        return Err(InvalidData);
      }
      var receipt := raws.InsertOrIgnore(EventKey(raw.tenant, key), raw);
      return Ok(receipt);
    }

    /** `submit`: the session is the one in progress on the server's own clock. */
    method Submit(key: string, tenant: Id, person: Id, now: int, enrollments: set<Enrollment>, world: World)
      returns (r: Result<Outbox.Receipt<EventKey>, IngestError>)
      modifies raws
      ensures var active := ActiveSessions(sessions, enrollments, tenant, person, now);
              match r
              case Ok(receipt) =>
                exists s :: active == {s}
                  && Stored(old(raws.rows), old(raws.jobs), EventKey(tenant, key), AppEvent(tenant, person, s, now), receipt, raws.rows, raws.jobs)
              case Err(e) =>
                && raws.rows == old(raws.rows) && raws.jobs == old(raws.jobs)
                && (e == NoActiveSession <==> active == {})
                && (e == AmbiguousSession <==> |active| > 1)
                && (e == FactorMissing <==> |active| == 1)
      ensures r.Ok? <==>
                |ActiveSessions(sessions, enrollments, tenant, person, now)| == 1 && CodeOf(AppCheckin) in world.platformFactor
    {
      var resolution := ResolveActiveClassSession(tenant, person, now, enrollments);
      if resolution.NoneActive? { return Err(NoActiveSession); }
      if resolution.Ambiguous? { return Err(AmbiguousSession); }
      if CodeOf(AppCheckin) !in world.platformFactor { return Err(FactorMissing); }
      var receipt := raws.InsertOrIgnore(EventKey(tenant, key), AppEvent(tenant, person, resolution.session, now));
      return Ok(receipt);
    }

    method ResolveActiveClassSession(tenant: Id, person: Id, now: int, enrollments: set<Enrollment>) returns (r: Resolution)
      ensures IsResolution(ActiveSessions(sessions, enrollments, tenant, person, now), r)
      ensures r.NoneActive? <==> forall s: Id :: s < |sessions| ==> !InProgressFor(sessions[s], enrollments, tenant, person, now)
      ensures r.ResolvedTo? ==> forall s: Id :: s < |sessions| ==>
                (InProgressFor(sessions[s], enrollments, tenant, person, now) <==> s == r.session)
      ensures r.ResolvedTo? ==> r.session < |sessions|
      ensures r.Ambiguous? <==>
                exists s: Id, t: Id ::
                  && s < t < |sessions|
                  && InProgressFor(sessions[s], enrollments, tenant, person, now)
                  && InProgressFor(sessions[t], enrollments, tenant, person, now)
    {
      var rows := ActiveSessions(sessions, enrollments, tenant, person, now);
      assert forall s: Id :: s < |sessions| ==> (InProgressFor(sessions[s], enrollments, tenant, person, now) <==> s in rows);
      if |rows| == 0 { return NoneActive; }
      if |rows| > 1 {
        TwoElements(rows);
        return Ambiguous;
      }
      var s :| s in rows;
      SingleElement(rows, s);
      return ResolvedTo(s);
    }

    /** `processRawEvent`: at most one check-in per raw event, enqueued only when created. The
        job fails, leaving nothing, iff a check-in to be created names no existing session. */
    method ProcessRawEvent(rawId: Id, world: World) returns (ok: bool)
      modifies checkins
      ensures exists session :: Processed(raws.rows, sessions, rawId, world, session,
                                          old(checkins.rows), old(checkins.jobs), ok, checkins.rows, checkins.jobs)
    {
      if |raws.rows| <= rawId {
        assert Processed(raws.rows, sessions, rawId, world, None, old(checkins.rows), old(checkins.jobs), true, checkins.rows, checkins.jobs);
        return true;
      }
      var raw := raws.rows[rawId].value;
      var session := ResolveClassSession(raw);
      var identified := Identified(world, raw, session);
      ok := true;
      if identified.Some? {
        if Outbox.IdOf(checkins.rows, rawId).None? && !SessionExists(sessions, session) {
          ok := false;
        } else {
          var receipt := checkins.InsertOrIgnore(rawId, identified.value);
          assert Stored(old(checkins.rows), old(checkins.jobs), rawId, identified.value, receipt, checkins.rows, checkins.jobs);
        }
      }
      assert Processed(raws.rows, sessions, rawId, world, session, old(checkins.rows), old(checkins.jobs), ok, checkins.rows, checkins.jobs);
    }

    method ResolveClassSession(raw: RawEvent) returns (session: Option<Id>)
      ensures LegalSession(sessions, raw, session)
      ensures raw.room.None? ==> session == raw.data.classSessionId
      ensures raw.room.Some? && session.Some? ==>
                && session.value < |sessions| && sessions[session.value].tenant == raw.tenant
                && sessions[session.value].room == raw.room.value
                && sessions[session.value].scheduledStart <= raw.capturedAt <= sessions[session.value].scheduledEnd
      ensures raw.room.Some? && session.None? ==> forall s :: 0 <= s < |sessions| ==>
                !(sessions[s].tenant == raw.tenant && sessions[s].room == raw.room.value
                  && sessions[s].scheduledStart <= raw.capturedAt <= sessions[s].scheduledEnd)
    {
      if raw.room.None? {
        return raw.data.classSessionId;
      }
      var found := set s: Id | 0 <= s < |sessions| && InRoomThen(sessions, raw, s);
      if found == {} {
        assert forall s: Id :: InRoomThen(sessions, raw, s) ==> s in found;
        forall s: Id | s < |sessions|
          ensures !(sessions[s].tenant == raw.tenant && sessions[s].room == raw.room.value
                    && sessions[s].scheduledStart <= raw.capturedAt <= sessions[s].scheduledEnd)
        {
          assert !InRoomThen(sessions, raw, s);
        }
        return None;
      }
      var s :| s in found;
      return Some(s);
    }
  }

  /** The session belongs to the tenant and to a class the person is enrolled in, and its
      schedule contains the moment, both ends included. */
  predicate InProgressFor(session: Session, enrollments: set<Enrollment>, tenant: Id, person: Id, now: int) {
    && session.tenant == tenant && Enrollment(session.classGroup, person) in enrollments
    && session.scheduledStart <= now && now <= session.scheduledEnd
  }

  lemma {:induction false} TwoElements(rows: set<Id>)
    requires |rows| > 1
    ensures exists s: Id, t: Id :: s < t && s in rows && t in rows
  {
    var a :| a in rows;
    assert |rows - {a}| > 0;
    var b :| b in rows - {a};
    assert a < b || b < a;
  }

  lemma {:induction false} SingleElement(rows: set<Id>, s: Id)
    requires |rows| == 1 && s in rows
    ensures rows == {s}
  {
    assert |rows - {s}| == 0;
  }

  /** A send of `key` created its row and job, or found the row already there. */
  ghost predicate Stored<K, V>(
    before: seq<Outbox.Row<K, V>>, jobs: seq<Id>, key: K, value: V, receipt: Outbox.Receipt<K>,
    after: seq<Outbox.Row<K, V>>, jobsAfter: seq<Id>)
  {
    && receipt.key == key
    && match Outbox.IdOf(before, key)
       case Some(id) => receipt.id == id && !receipt.created && after == before && jobsAfter == jobs
       case None =>
         receipt.id == |before| && receipt.created && after == before + [Outbox.Row(key, value)] && jobsAfter == jobs + [|before|]
  }

  ghost predicate Processed(
    raws: seq<Outbox.Row<EventKey, RawEvent>>, sessions: seq<Session>, rawId: Id, world: World, session: Option<Id>,
    before: seq<Outbox.Row<Id, NewCheckin>>, jobs: seq<Id>, ok: bool, after: seq<Outbox.Row<Id, NewCheckin>>, jobsAfter: seq<Id>)
  {
    if |raws| <= rawId then ok && after == before && jobsAfter == jobs
    else
      && LegalSession(sessions, raws[rawId].value, session)
      && match Identified(world, raws[rawId].value, session)
         case None => ok && after == before && jobsAfter == jobs
         case Some(c) =>
           && (ok <==> Outbox.IdOf(before, rawId).Some? || SessionExists(sessions, session))
           && if ok then exists receipt :: Stored(before, jobs, rawId, c, receipt, after, jobsAfter)
              else after == before && jobsAfter == jobs
  }

  // ---------------------------------------------------------------------------
  // Interleaved runs, with resends, redelivery and aborts
  // ---------------------------------------------------------------------------

  datatype State = State(
    sessions: seq<Session>, raw: Outbox.State<EventKey, RawEvent>, checkin: Outbox.State<Id, NewCheckin>)

  datatype Event =
    | AddSession(session: Session)
    | SendFromDevice(w: Id, key: string, raw: RawEvent)
    | SendFromApp(w: Id, key: string, tenant: Id, person: Id, now: int, enrollments: set<Enrollment>)
    | FinishSend(w: Id, commits: bool)
    | Deliver(w: Id, rawId: Id, world: World, found: Option<Id>)
    | FinishDelivery(w: Id, commits: bool)

  function Finish<K, V>(w: Id, commits: bool): Outbox.Event<K, V> {
    if commits then Outbox.Commit(w) else Outbox.Abort(w)
  }

  ghost function Step(s: State, e: Event): State {
    match e
    case AddSession(session) => s.(sessions := s.sessions + [session])
    case SendFromDevice(w, key, raw) =>
      if ValidEventData(raw.eventType, raw.data)
      then s.(raw := Outbox.Step(s.raw, Outbox.Insert(w, Outbox.Row(EventKey(raw.tenant, key), raw))))
      else s
    case SendFromApp(w, key, tenant, person, now, enrollments) =>
      var active := ActiveSessions(s.sessions, enrollments, tenant, person, now);
      if exists session :: active == {session} then
        var session :| active == {session};
        s.(raw := Outbox.Step(s.raw, Outbox.Insert(w, Outbox.Row(EventKey(tenant, key), AppEvent(tenant, person, session, now)))))
      else s
    case FinishSend(w, commits) => s.(raw := Outbox.Step(s.raw, Finish(w, commits)))
    case Deliver(w, rawId, world, found) =>
      if rawId in s.raw.jobs && rawId < |s.raw.rows| && LegalSession(s.sessions, s.raw.rows[rawId].value, found) then
        match Identified(world, s.raw.rows[rawId].value, found) {
          case Some(c) =>
            if Outbox.IdOf(s.checkin.rows, rawId).Some? || SessionExists(s.sessions, found)
            then s.(checkin := Outbox.Step(s.checkin, Outbox.Insert(w, Outbox.Row(rawId, c))))
            else s
          case None => s
        }
      else s
    case FinishDelivery(w, commits) => s.(checkin := Outbox.Step(s.checkin, Finish(w, commits)))
  }

  ghost function RunFrom(s: State, es: seq<Event>): State
    decreases |es|
  {
    if es == [] then s else Step(RunFrom(s, es[..|es| - 1]), es[|es| - 1])
  }

  function Start(): State {
    State([], Outbox.Start(), Outbox.Start())
  }

  // ---------------------------------------------------------------------------
  // Where a check-in may come from
  // ---------------------------------------------------------------------------

  /** The one way past the time window: a CUSTOM event that names its session and no room. */
  predicate Bypasses(raw: RawEvent) {
    raw.eventType == Custom && raw.room.None? && raw.data.classSessionId.Some?
  }

  predicate SessionCovers(sessions: seq<Session>, session: Option<Id>, at: int) {
    session.Some? ==> session.value < |sessions| && Covers(sessions[session.value], at)
  }

  /** A stored raw event passed validation, or was built by the app path for a session then
      in progress. */
  ghost predicate RawOk(sessions: seq<Session>, row: Outbox.Row<EventKey, RawEvent>) {
    || ValidEventData(row.value.eventType, row.value.data)
    || (row.value.eventType == AppCheckin && row.value.room.None?
        && SessionCovers(sessions, row.value.data.classSessionId, row.value.capturedAt))
  }

  /** A check-in of `raw` attached to `session` falls inside it exactly when `raw` does not
      bypass the window or was captured inside the session it claims. */
  predicate InsideIffClaimIs(sessions: seq<Session>, raw: RawEvent, c: NewCheckin) {
    SessionCovers(sessions, c.key.session, c.at) <==>
      (Bypasses(raw) ==> SessionCovers(sessions, raw.data.classSessionId, raw.capturedAt))
  }

  /** A check-in belongs to its raw event and to an existing session, inside it when the claim is. */
  ghost predicate CheckinOk(s: State, row: Outbox.Row<Id, NewCheckin>) {
    && row.key < |s.raw.rows|
    && row.value.at == s.raw.rows[row.key].value.capturedAt
    && row.value.key.tenant == s.raw.rows[row.key].value.tenant
    && SessionExists(s.sessions, row.value.key.session)
    && InsideIffClaimIs(s.sessions, s.raw.rows[row.key].value, row.value)
    && (Bypasses(s.raw.rows[row.key].value) ==> row.value.key.session == s.raw.rows[row.key].value.data.classSessionId)
  }

  ghost predicate AllOk(s: State) {
    && (forall i :: 0 <= i < |s.raw.rows| ==> RawOk(s.sessions, s.raw.rows[i]))
    && (forall w: Id :: Outbox.SenderOf(s.raw, w).Inserted? ==> RawOk(s.sessions, Outbox.SenderOf(s.raw, w).row))
    && (forall i :: 0 <= i < |s.checkin.rows| ==> CheckinOk(s, s.checkin.rows[i]))
    && (forall w: Id :: Outbox.SenderOf(s.checkin, w).Inserted? ==> CheckinOk(s, Outbox.SenderOf(s.checkin, w).row))
  }

  ghost predicate Inv(s: State) {
    Outbox.Inv(s.raw) && Outbox.Inv(s.checkin) && AllOk(s)
  }

  /** Whatever the room query answers, the check-in identification writes is inside its session
      iff its event does not bypass the window or was captured inside the session it claims. */
  lemma {:induction false} InsideIff(
      sessions: seq<Session>, row: Outbox.Row<EventKey, RawEvent>, world: World, session: Option<Id>)
    requires RawOk(sessions, row) && LegalSession(sessions, row.value, session)
    requires Identified(world, row.value, session).Some?
    ensures InsideIffClaimIs(sessions, row.value, Identified(world, row.value, session).value)
  {
  }

  /** What identification may insert belongs to its raw event and, unless its event bypasses
      the window, falls inside its session. */
  lemma {:induction false} IdentifiedInsideWindow(s: State, world: World, rawId: Id, session: Option<Id>)
    requires rawId < |s.raw.rows| && RawOk(s.sessions, s.raw.rows[rawId])
    requires LegalSession(s.sessions, s.raw.rows[rawId].value, session)
    ensures match Identified(world, s.raw.rows[rawId].value, session)
            case Some(c) =>
              && InsideIffClaimIs(s.sessions, s.raw.rows[rawId].value, c)
              && (!Bypasses(s.raw.rows[rawId].value) ==> SessionCovers(s.sessions, c.key.session, c.at))
              && (SessionExists(s.sessions, session) ==> CheckinOk(s, Outbox.Row(rawId, c)))
            case None => true
  {
    if Identified(world, s.raw.rows[rawId].value, session).Some? {
      InsideIff(s.sessions, s.raw.rows[rawId], world, session);
    }
  }

  /** Outside the bypass the window holds; inside it the event's own claim is taken as is. */
  lemma {:induction false} BypassTakesAnySession(sessions: seq<Session>, raw: RawEvent, session: Option<Id>)
    requires Bypasses(raw)
    ensures LegalSession(sessions, raw, session) <==> session == raw.data.classSessionId
  {
  }

  /** Sessions and raw events are only ever added. */
  ghost predicate Grows(s: State, t: State) {
    && |s.sessions| <= |t.sessions| && (forall i :: 0 <= i < |s.sessions| ==> t.sessions[i] == s.sessions[i])
    && |s.raw.rows| <= |t.raw.rows| && (forall i :: 0 <= i < |s.raw.rows| ==> t.raw.rows[i] == s.raw.rows[i])
  }

  lemma {:induction false} OkStaysOk(s: State, t: State)
    requires Grows(s, t)
    ensures forall row :: RawOk(s.sessions, row) ==> RawOk(t.sessions, row)
    ensures forall row :: CheckinOk(s, row) ==> CheckinOk(t, row)
  {
  }

  lemma {:induction false} RawStepKeepsInv(s: State, o: Outbox.Event<EventKey, RawEvent>)
    requires Inv(s) && (o.Insert? ==> RawOk(s.sessions, o.row))
    ensures Inv(s.(raw := Outbox.Step(s.raw, o)))
  {
    Outbox.StepKeepsInv(s.raw, o);
    Outbox.StepFrame(s.raw, o);
    OkStaysOk(s, s.(raw := Outbox.Step(s.raw, o)));
  }

  lemma {:induction false} CheckinStepKeepsInv(s: State, o: Outbox.Event<Id, NewCheckin>)
    requires Inv(s) && (o.Insert? && Outbox.IdOf(s.checkin.rows, o.row.key).None? ==> CheckinOk(s, o.row))
    ensures Inv(s.(checkin := Outbox.Step(s.checkin, o)))
  {
    var t := s.(checkin := Outbox.Step(s.checkin, o));
    Outbox.StepKeepsInv(s.checkin, o);
    Outbox.StepFrame(s.checkin, o);
    OkStaysOk(s, t);
  }

  lemma {:induction false} AppEventIsOk(s: State, e: Event, session: Id)
    requires e.SendFromApp? && session in ActiveSessions(s.sessions, e.enrollments, e.tenant, e.person, e.now)
    ensures RawOk(s.sessions, Outbox.Row(EventKey(e.tenant, e.key), AppEvent(e.tenant, e.person, session, e.now)))
  {
  }

  lemma {:induction false} StepKeepsInv(s: State, e: Event)
    requires Inv(s)
    ensures Inv(Step(s, e))
  {
    match e
    case AddSession(session) => OkStaysOk(s, Step(s, e));
    case SendFromDevice(w, key, raw) =>
      if ValidEventData(raw.eventType, raw.data) {
        RawStepKeepsInv(s, Outbox.Insert(w, Outbox.Row(EventKey(raw.tenant, key), raw)));
      }
    case SendFromApp(w, key, tenant, person, now, enrollments) =>
      var active := ActiveSessions(s.sessions, enrollments, tenant, person, now);
      if exists session :: active == {session} {
        var session :| active == {session};
        assert session in active;
        AppEventIsOk(s, e, session);
        RawStepKeepsInv(s, Outbox.Insert(w, Outbox.Row(EventKey(tenant, key), AppEvent(tenant, person, session, now))));
      }
    case FinishSend(w, commits) => RawStepKeepsInv(s, Finish(w, commits));
    case Deliver(w, rawId, world, found) =>
      if rawId < |s.raw.rows| && LegalSession(s.sessions, s.raw.rows[rawId].value, found) {
        IdentifiedInsideWindow(s, world, rawId, found);
        match Identified(world, s.raw.rows[rawId].value, found)
        case Some(c) =>
          if Outbox.IdOf(s.checkin.rows, rawId).Some? || SessionExists(s.sessions, found) {
            CheckinStepKeepsInv(s, Outbox.Insert(w, Outbox.Row(rawId, c)));
          }
        case None =>
      }
    case FinishDelivery(w, commits) => CheckinStepKeepsInv(s, Finish(w, commits));
  }

  lemma {:induction false} EveryRunIsSound(es: seq<Event>)
    ensures Inv(RunFrom(Start(), es))
    decreases |es|
  {
    if es != [] {
      EveryRunIsSound(es[..|es| - 1]);
      StepKeepsInv(RunFrom(Start(), es[..|es| - 1]), es[|es| - 1]);
    }
  }

  // ---------------------------------------------------------------------------
  // What every run guarantees
  // ---------------------------------------------------------------------------

  /** However often an event is sent, each tenant and idempotency key has one raw event, whose
      id every accepted send returns, with exactly one identify job. */
  lemma {:induction false} OneRawEventPerKey(es: seq<Event>, k: nat, l: nat, id: Id)
    requires var raw := RunFrom(Start(), es).raw;
             k < |raw.receipts| && l < |raw.receipts| && raw.receipts[k].key == raw.receipts[l].key
    ensures var raw := RunFrom(Start(), es).raw;
            && raw.receipts[k].id == raw.receipts[l].id < |raw.rows|
            && raw.rows[raw.receipts[k].id].key == raw.receipts[k].key
            && (raw.receipts[k].created && raw.receipts[l].created ==> k == l)
            && multiset(raw.jobs)[id] == if id < |raw.rows| then 1 else 0
  {
    EveryRunIsSound(es);
    var raw := RunFrom(Start(), es).raw;
    Outbox.ReceiptsAgree(raw, k, l);
    Outbox.OneJobPerRow(raw, id);
  }

  /** However often its job is delivered, a raw event has at most one check-in, of its own
      tenant and time, and each check-in has exactly one deduplication job. */
  lemma {:induction false} OneCheckinPerRawEvent(es: seq<Event>, i: Id, j: Id)
    requires var s := RunFrom(Start(), es); i < |s.checkin.rows| && j < |s.checkin.rows|
    ensures var s := RunFrom(Start(), es);
            && (s.checkin.rows[i].key == s.checkin.rows[j].key ==> i == j)
            && s.checkin.rows[i].key < |s.raw.rows|
            && s.checkin.rows[i].value.at == s.raw.rows[s.checkin.rows[i].key].value.capturedAt
            && s.checkin.rows[i].value.key.tenant == s.raw.rows[s.checkin.rows[i].key].value.tenant
            && multiset(s.checkin.jobs)[i] == 1
  {
    EveryRunIsSound(es);
    var s := RunFrom(Start(), es);
    Outbox.OneJobPerRow(s.checkin, i);
    assert CheckinOk(s, s.checkin.rows[i]);
  }

  /** In every run a check-in's session exists, and the check-in was taken while it was scheduled
      iff its raw event is not a roomless CUSTOM event with a claim or was captured inside the
      session it claims. */
  lemma {:induction false} CheckinsAreInsideTheirSession(es: seq<Event>, i: Id)
    requires i < |RunFrom(Start(), es).checkin.rows|
    ensures var s := RunFrom(Start(), es);
            var c := s.checkin.rows[i];
            && c.key < |s.raw.rows|
            && SessionExists(s.sessions, c.value.key.session)
            && (SessionCovers(s.sessions, c.value.key.session, c.value.at) <==>
                  (Bypasses(s.raw.rows[c.key].value) ==>
                     SessionCovers(s.sessions, s.raw.rows[c.key].value.data.classSessionId, s.raw.rows[c.key].value.capturedAt)))
  {
    EveryRunIsSound(es);
    var s := RunFrom(Start(), es);
    assert CheckinOk(s, s.checkin.rows[i]);
  }

  // ---------------------------------------------------------------------------
  // End to end: identification feeds deduplication, deduplication feeds grading
  // ---------------------------------------------------------------------------

  /** Every row deduplication works on was written by identification. */
  ghost predicate FedBy(ds: seq<Deduplication.Event>, s: State) {
    forall k :: 0 <= k < |ds| && ds[k].Insert? ==>
      exists i :: 0 <= i < |s.checkin.rows| && s.checkin.rows[i].value == NewCheckin(ds[k].key, ds[k].at)
  }

  lemma {:induction false} RowsWereInserted(env: Deduplication.Env, ds: seq<Deduplication.Event>, i: Id)
    requires i < |Deduplication.RunFrom(env, Deduplication.Start, ds).rows|
    ensures var row := Deduplication.RunFrom(env, Deduplication.Start, ds).rows[i];
            exists k :: 0 <= k < |ds| && ds[k].Insert? && ds[k].key == row.key && ds[k].at == row.at
    decreases |ds|
  {
    if ds != [] {
      var n := |ds| - 1;
      var before := Deduplication.RunFrom(env, Deduplication.Start, ds[..n]);
      if i < |before.rows| {
        RowsWereInserted(env, ds[..n], i);
        var k :| 0 <= k < n && ds[..n][k].Insert? && ds[..n][k].key == before.rows[i].key && ds[..n][k].at == before.rows[i].at;
        assert ds[k] == ds[..n][k];
      } else {
        assert ds[n].Insert?;
      }
    }
  }

  /** Every room check-in of `subject` that came through the bypass was captured inside the
      session it claims. */
  ghost predicate ClaimsAreInside(s: State, codes: FactorCodes, subject: Subject) {
    forall i :: 0 <= i < |s.checkin.rows| && s.checkin.rows[i].key < |s.raw.rows|
                && IsRoomCheckinOf(codes, s.checkin.rows[i].value.key, subject)
                && Bypasses(s.raw.rows[s.checkin.rows[i].key].value) ==>
      SessionCovers(s.sessions, s.raw.rows[s.checkin.rows[i].key].value.data.classSessionId,
                    s.raw.rows[s.checkin.rows[i].key].value.capturedAt)
  }

  predicate IsRoomCheckinOf(codes: FactorCodes, key: Key, subject: Subject) {
    && key.tenant == subject.tenant && key.session == Some(subject.session) && key.person == subject.person
    && key.factor in codes && (codes[key.factor] == ROOM_ENTRY || codes[key.factor] == ROOM_EXIT)
  }

  /** From device to grade, in every run of identification and of deduplication: dropping
      duplicates costs nobody a factor, and a person whose bypassing room check-ins were all
      captured inside the session they claim is graded between 0 and 100 with a permanence no
      longer than the session. */
  lemma {:induction false} GradesAreSoundEndToEnd(
      es: seq<Event>, env: Deduplication.Env, ds: seq<Deduplication.Event>, sid: Id, person: Id)
    requires sid < |RunFrom(Start(), es).sessions|
    requires FedBy(ds, RunFrom(Start(), es))
    ensures var s := RunFrom(Start(), es);
            var session := s.sessions[sid];
            var rows := Deduplication.RunFrom(env, Deduplication.Start, ds).rows;
            var ev := Evidence(env.codes, rows);
            var subject := SubjectOf(session, sid, person);
            && SatisfiedCodes(env.codes, rows, subject, true) == SatisfiedCodes(env.codes, rows, subject, false)
            && (ClaimsAreInside(s, env.codes, subject) ==>
                  && 0 <= Presence.TotalMs(PairingFor(session, sid, ev, person).closed) <= Duration(session)
                  && (VerdictFor(session, sid, ev, person).Graded? ==>
                        0.0 <= VerdictFor(session, sid, ev, person).percentage <= 100.0))
  {
    var s := RunFrom(Start(), es);
    var session := s.sessions[sid];
    var rows := Deduplication.RunFrom(env, Deduplication.Start, ds).rows;
    var ev := Evidence(env.codes, rows);
    var subject := SubjectOf(session, sid, person);
    Deduplication.EvidenceSurvives(env, ds, env.codes, subject);
    if ClaimsAreInside(s, env.codes, subject) {
      forall i | 0 <= i < |rows| && Presence.IsRoomCheckin(env.codes, rows[i], subject)
        ensures session.scheduledStart <= rows[i].at <= session.scheduledEnd
      {
        RowsWereInserted(env, ds, i);
        var k :| 0 <= k < |ds| && ds[k].Insert? && ds[k].key == rows[i].key && ds[k].at == rows[i].at;
        var j :| 0 <= j < |s.checkin.rows| && s.checkin.rows[j].value == NewCheckin(ds[k].key, ds[k].at);
        CheckinsAreInsideTheirSession(es, j);
        assert IsRoomCheckinOf(env.codes, s.checkin.rows[j].value.key, subject);
      }
      PermanenceFitsSession(session, sid, ev, person);
      GradesAreBounded(session, sid, ev, person);
    }
  }
}
