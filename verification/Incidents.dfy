/**
  Intrusion incidents (intrusion-detection.service.ts, security-incident.service.ts):
  the tables and the services, one transaction at a time.

  An incident is open while it has no closure; the schema ties status, outcome, note, closer
  and closing time together. Ids are positions: rows are never deleted.
*/
module Incidents {
  import opened Basics
  import opened Areas

  datatype ClosingOutcome = ResolvedOutcome | FalsePositive

  datatype Closure = Closure(outcome: ClosingOutcome, note: string, closer: Id, at: int)

  datatype Incident = Incident(
    tenant: Id, person: Option<Id>, category: Option<Id>, currentArea: Id, closure: Option<Closure>)

  datatype Entry = Entry(tenant: Id, incident: Id, event: Id, area: Id, detectedAt: int)

  datatype RawSecurityEvent = RawSecurityEvent(
    tenant: Id, id: Id, isBarrierCrossing: bool, tagCode: string, area: Id, capturedAt: int)

  /** The holder of an active wristband. */
  datatype Identity = Identity(person: Id, category: Id)

  datatype Candidate = Candidate(isIntrusion: bool, person: Option<Id>, category: Option<Id>)

  /** An intrusion signal: the raw event and who it was, when known. */
  datatype Signal = Signal(tenant: Id, event: Id, area: Id, capturedAt: int, person: Option<Id>, category: Option<Id>)

  datatype IncidentError = IncidentNotFound | AlreadyClosed

  predicate IsOpen(incidents: seq<Incident>, tenant: Id, i: Id) {
    i < |incidents| && incidents[i].tenant == tenant && incidents[i].closure.None?
  }

  /** The tenant's open incident, as `findOneBy({ status: 'open' })` sees it. */
  function OpenIncident(incidents: seq<Incident>, tenant: Id): (r: Option<Id>)
    ensures r.Some? ==> IsOpen(incidents, tenant, r.value)
    ensures r.None? ==> forall i: Id :: !IsOpen(incidents, tenant, i)
  {
    if incidents == [] then None
    else
      var n := |incidents| - 1;
      if incidents[n].tenant == tenant && incidents[n].closure.None? then Some(n)
      else
        var r := OpenIncident(incidents[..n], tenant);
        assert forall i: Id :: IsOpen(incidents, tenant, i) ==> i == n || IsOpen(incidents[..n], tenant, i);
        assert r.Some? ==> IsOpen(incidents[..n], tenant, r.value);
        r
  }

  function NewIncident(signal: Signal): Incident {
    Incident(signal.tenant, signal.person, signal.category, signal.area, None)
  }

  function EntryFor(signal: Signal, incident: Id): Entry {
    Entry(signal.tenant, incident, signal.event, signal.area, signal.capturedAt)
  }

  function Moved(incidents: seq<Incident>, i: Id, area: Id): seq<Incident>
    requires i < |incidents|
  {
    incidents[i := incidents[i].(currentArea := area)]
  }

  function Closed(incidents: seq<Incident>, i: Id, closure: Closure): seq<Incident>
    requires i < |incidents|
  {
    incidents[i := incidents[i].(closure := Some(closure))]
  }

  /** Barrier crossings and unknown tags are always candidates; a known holder is one unless
      some ancestor-or-self area grants their category at that moment. */
  ghost function CandidateOf(
      raw: RawSecurityEvent, identities: map<string, Identity>, parents: Parents, grants: set<Grant>): Candidate
  {
    if raw.isBarrierCrossing || raw.tagCode == "" || raw.tagCode !in identities then Candidate(true, None, None)
    else
      var who := identities[raw.tagCode];
      Candidate(!Authorized(parents, grants, Some(who.category), raw.area, raw.capturedAt), Some(who.person), Some(who.category))
  }

  /** Some grant of `category` reaches the area and is in force at that time. */
  ghost predicate Admitted(parents: Parents, grants: set<Grant>, category: Id, area: Id, at: int) {
    exists g :: g in grants && g.category == category && IsAncestorOrSelf(parents, area, g.area)
                && (g.validFrom.None? || g.validFrom.value <= at) && (g.validUntil.None? || at <= g.validUntil.value)
  }

  /** The tag is on record and nothing but a reader scan could have shown it. */
  predicate IsIdentified(raw: RawSecurityEvent, identities: map<string, Identity>) {
    !raw.isBarrierCrossing && raw.tagCode != "" && raw.tagCode in identities
  }

  /** An unexplained presence: nobody identified, or someone without a grant in force there. */
  ghost predicate IsIntrusion(
      raw: RawSecurityEvent, identities: map<string, Identity>, parents: Parents, grants: set<Grant>) {
    IsIdentified(raw, identities) ==>
      !Admitted(parents, grants, identities[raw.tagCode].category, raw.area, raw.capturedAt)
  }

  function SignalOf(raw: RawSecurityEvent, candidate: Candidate): Signal {
    Signal(raw.tenant, raw.id, raw.area, raw.capturedAt, candidate.person, candidate.category)
  }

  class SecurityService {
    const areas: AreaAuthorizationService
    const identities: map<string, Identity>
    var incidents: seq<Incident>
    var entries: seq<Entry>

    constructor (areas: AreaAuthorizationService, identities: map<string, Identity>)
      ensures this.areas == areas && this.identities == identities && incidents == [] && entries == []
    {
      this.areas, this.identities := areas, identities;
      incidents, entries := [], [];
    }

    /** One job: an authorised presence leaves no trace; any other signal leaves exactly one
        entry, on the tenant's open incident if it has one and on a new one otherwise. */
    method ProcessRawEvent(raw: Option<RawSecurityEvent>)
      modifies this
      ensures (raw.None? || !CandidateOf(raw.value, identities, areas.parents, areas.grants).isIntrusion) ==>
                incidents == old(incidents) && entries == old(entries)
      ensures raw.Some? && CandidateOf(raw.value, identities, areas.parents, areas.grants).isIntrusion ==>
                var signal := SignalOf(raw.value, CandidateOf(raw.value, identities, areas.parents, areas.grants));
                match OpenIncident(old(incidents), signal.tenant)
                case Some(i) =>
                  incidents == Moved(old(incidents), i, signal.area) && entries == old(entries) + [EntryFor(signal, i)]
                case None =>
                  && incidents == old(incidents) + [NewIncident(signal)]
                  && entries == old(entries) + [EntryFor(signal, |old(incidents)|)]
      ensures |entries| ==
                |old(entries)| + if raw.Some? && IsIntrusion(raw.value, identities, areas.parents, areas.grants) then 1 else 0
      ensures raw.Some? && IsIntrusion(raw.value, identities, areas.parents, areas.grants) ==>
                var entry := entries[|old(entries)|];
                && entry.tenant == raw.value.tenant && entry.event == raw.value.id && entry.area == raw.value.area
                && entry.detectedAt == raw.value.capturedAt
                && entry.incident < |incidents| && incidents[entry.incident].tenant == raw.value.tenant
                && incidents[entry.incident].closure.None? && incidents[entry.incident].currentArea == raw.value.area
                && (entry.incident == |old(incidents)| ==>
                      incidents[entry.incident] ==
                        if IsIdentified(raw.value, identities)
                        then Incident(raw.value.tenant, Some(identities[raw.value.tagCode].person),
                                      Some(identities[raw.value.tagCode].category), raw.value.area, None)
                        else Incident(raw.value.tenant, None, None, raw.value.area, None))
                && (entry.incident < |old(incidents)| ==>
                      incidents == old(incidents)[entry.incident := old(incidents)[entry.incident].(currentArea := raw.value.area)])
    {
      if raw.None? {
        return;
      }
      var candidate := EvaluateCandidate(raw.value);
      if !candidate.isIntrusion {
        return;
      }
      CorrelateIntoIncident(SignalOf(raw.value, candidate));
    }

    method EvaluateCandidate(raw: RawSecurityEvent) returns (candidate: Candidate)
      ensures candidate == CandidateOf(raw, identities, areas.parents, areas.grants)
      ensures candidate.isIntrusion <==> IsIntrusion(raw, identities, areas.parents, areas.grants)
      ensures if IsIdentified(raw, identities)
              then candidate.person == Some(identities[raw.tagCode].person) && candidate.category == Some(identities[raw.tagCode].category)
              else candidate.person.None? && candidate.category.None?
    {
      if raw.isBarrierCrossing || raw.tagCode == "" || raw.tagCode !in identities {
        return Candidate(true, None, None);
      }
      var who := identities[raw.tagCode];
      var authorized := areas.IsAuthorized(Some(who.category), raw.area, raw.capturedAt);
      return Candidate(!authorized, Some(who.person), Some(who.category));
    }

    method CorrelateIntoIncident(signal: Signal)
      modifies this
      ensures match OpenIncident(old(incidents), signal.tenant)
              case Some(i) =>
                incidents == Moved(old(incidents), i, signal.area) && entries == old(entries) + [EntryFor(signal, i)]
              case None =>
                && incidents == old(incidents) + [NewIncident(signal)]
                && entries == old(entries) + [EntryFor(signal, |old(incidents)|)]
    {
      var found := OpenIncident(incidents, signal.tenant);
      var incident: Id;
      if found.Some? {
        AppendToOpenIncident(found.value, signal.area);
        incident := found.value;
      } else {
        incident := OpenNewIncident(signal);
      }
      entries := entries + [EntryFor(signal, incident)];
    }

    method AppendToOpenIncident(i: Id, area: Id)
      requires i < |incidents|
      modifies this`incidents
      ensures incidents == Moved(old(incidents), i, area)
    {
      incidents := incidents[i := incidents[i].(currentArea := area)];
    }

    /** The speculative insert: when the tenant turns out to have an open incident, the unique
        index refuses the row and the signal joins that incident, whose area stays. */
    method OpenNewIncident(signal: Signal) returns (id: Id)
      modifies this`incidents
      ensures match OpenIncident(old(incidents), signal.tenant)
              case Some(winner) => id == winner && incidents == old(incidents)
              case None => id == |old(incidents)| && incidents == old(incidents) + [NewIncident(signal)]
    {
      var raceWinner := OpenIncident(incidents, signal.tenant);
      if raceWinner.Some? {
        return raceWinner.value;
      }
      id := |incidents|;
      incidents := incidents + [NewIncident(signal)];
    }

    method Close(tenant: Id, i: Id, closure: Closure) returns (r: Result<(), IncidentError>)
      modifies this`incidents
      ensures r.Ok? <==> IsOpen(old(incidents), tenant, i)
      ensures r == Err(IncidentNotFound) <==> !(i < |old(incidents)| && old(incidents)[i].tenant == tenant)
      ensures incidents == if r.Ok? then Closed(old(incidents), i, closure) else old(incidents)
      ensures r.Ok? <==> i < |old(incidents)| && old(incidents)[i].tenant == tenant && old(incidents)[i].closure.None?
      ensures r.Ok? ==>
                && |incidents| == |old(incidents)| && (forall j :: 0 <= j < |incidents| && j != i ==> incidents[j] == old(incidents)[j])
                && incidents[i].closure == Some(closure) && incidents[i].tenant == tenant
                && incidents[i].person == old(incidents)[i].person && incidents[i].category == old(incidents)[i].category
                && incidents[i].currentArea == old(incidents)[i].currentArea
    {
      if |incidents| <= i || incidents[i].tenant != tenant {
        return Err(IncidentNotFound);
      }
      if incidents[i].closure.Some? {
        return Err(AlreadyClosed);
      }
      incidents := incidents[i := incidents[i].(closure := Some(closure))];
      return Ok(());
    }
  }
}
