/** The identification_checkin table, written by identification and read by grading. */
module Checkins {
  import opened Basics

  /** What makes two check-ins candidates for being the same tap: the correlation key. */
  datatype Key = Key(tenant: Id, person: Id, factor: Id, session: Option<Id>)

  /** Times are whole milliseconds; `createdAt` is the row's own creation time. */
  datatype Checkin = Checkin(key: Key, at: int, createdAt: int, isDuplicate: bool, duplicateOf: Option<Id>)

  /** attendance_factor_type, as id to code. */
  type FactorCodes = map<Id, string>

  const ROOM_ENTRY := "ROOM_ENTRY"
  const ROOM_EXIT := "ROOM_EXIT"

  /** One person in one class session of one tenant. */
  datatype Subject = Subject(tenant: Id, session: Id, person: Id)

  predicate Concerns(c: Checkin, subject: Subject) {
    && c.key.tenant == subject.tenant
    && c.key.session == Some(subject.session)
    && c.key.person == subject.person
  }

  /** The codes a person has shown in a session, over all rows or over surviving rows only. */
  function SatisfiedCodes(codes: FactorCodes, rows: seq<Checkin>, subject: Subject, survivorsOnly: bool): set<string> {
    set i | 0 <= i < |rows| && Concerns(rows[i], subject) && rows[i].key.factor in codes
            && !(survivorsOnly && rows[i].isDuplicate)
      :: codes[rows[i].key.factor]
  }
}
