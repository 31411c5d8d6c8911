/**
  Attendance configuration and the snapshot a session takes of it
  (tenant-config.service.ts, class-session.service.ts).
*/
module Config {
  import opened Basics
  import opened AttendanceRules

  datatype ScopeType = Institution | Course | ClassGroup

  datatype Scope = Scope(scopeType: ScopeType, scopeId: Option<Id>)

  datatype ConfigRow = ConfigRow(id: Id, minPercentage: real, toleranceMinutes: int, postTolerance: string)

  /** Class groups with their courses, the known factor types, attendance_config keyed by its
      unique scope, and each config's required factors. */
  datatype ConfigTables = ConfigTables(
    courseOf: map<Id, Id>, factorTypes: set<Id>, configs: map<Scope, ConfigRow>, required: map<Id, set<Id>>)

  datatype Effective = Effective(config: ConfigRow, requiredFactors: set<Id>)

  datatype ConfigInput = ConfigInput(scope: Scope, minPercentage: real, toleranceMinutes: int, postTolerance: string)

  datatype ConfigError = ClassGroupNotFound | NoConfig | BadInput | RepeatedFactor | UnknownConfig | UnknownFactor

  const POST_TOLERANCE_BEHAVIORS: set<string> := {"block_checkin", "deny_presence", "register_only"}

  function RequiredOf(t: ConfigTables, id: Id): set<Id> {
    if id in t.required then t.required[id] else {}
  }

  /** The scopes consulted for a class group, most specific first. */
  function Cascade(group: Id, course: Id): seq<Scope> {
    [Scope(ClassGroup, Some(group)), Scope(Course, Some(course)), Scope(Institution, None)]
  }

  /** `row` is the config of the first of `scopes` that has one, if any has. */
  ghost predicate IsMostSpecific(t: ConfigTables, scopes: seq<Scope>, row: ConfigRow) {
    exists i :: 0 <= i < |scopes| && scopes[i] in t.configs && t.configs[scopes[i]] == row
                && forall j :: 0 <= j < i ==> scopes[j] !in t.configs
  }

  function FindConfig(t: ConfigTables, scope: Scope): Option<ConfigRow> {
    if scope in t.configs then Some(t.configs[scope]) else None
  }

  function OrElse(a: Option<ConfigRow>, b: Option<ConfigRow>): Option<ConfigRow> {
    if a.Some? then a else b
  }

  function EffectiveConfig(t: ConfigTables, group: Id): Result<Effective, ConfigError> {
    if group !in t.courseOf then Err(ClassGroupNotFound)
    else
      var found := OrElse(FindConfig(t, Scope(ClassGroup, Some(group))),
                   OrElse(FindConfig(t, Scope(Course, Some(t.courseOf[group]))),
                          FindConfig(t, Scope(Institution, None))));
      if found.None? then Err(NoConfig) else Ok(Effective(found.value, RequiredOf(t, found.value.id)))
  }

  /** Resolution succeeds iff some scope of the cascade is configured, and then gives the
      most specific config with its own required factors. */
  lemma {:induction false} CascadeIsMostSpecific(t: ConfigTables, group: Id)
    requires group in t.courseOf
    ensures var scopes := Cascade(group, t.courseOf[group]);
            match EffectiveConfig(t, group)
            case Ok(e) => IsMostSpecific(t, scopes, e.config) && e.requiredFactors == RequiredOf(t, e.config.id)
            case Err(_) => forall i :: 0 <= i < |scopes| ==> scopes[i] !in t.configs
  {
    var scopes := Cascade(group, t.courseOf[group]);
    if scopes[0] in t.configs {
    } else if scopes[1] in t.configs {
    } else if scopes[2] in t.configs {
    }
  }

  /** The cascade scope by scope: a class group's own config, else its course's, else the
      institution's, else none. */
  lemma {:induction false} GroupBeatsCourseBeatsInstitution(t: ConfigTables, group: Id)
    ensures group !in t.courseOf ==> EffectiveConfig(t, group) == Err(ClassGroupNotFound)
    ensures group in t.courseOf ==>
              var own, course, all := Scope(ClassGroup, Some(group)), Scope(Course, Some(t.courseOf[group])), Scope(Institution, None);
              && (EffectiveConfig(t, group).Ok? <==> own in t.configs || course in t.configs || all in t.configs)
              && (EffectiveConfig(t, group).Err? ==> EffectiveConfig(t, group) == Err(NoConfig))
              && (EffectiveConfig(t, group).Ok? ==>
                    EffectiveConfig(t, group).value.config ==
                      if own in t.configs then t.configs[own] else if course in t.configs then t.configs[course] else t.configs[all])
  {
  }

  predicate ValidInput(input: ConfigInput) {
    && 0.0 <= input.minPercentage <= 100.0
    && input.toleranceMinutes >= 0
    && input.postTolerance in POST_TOLERANCE_BEHAVIORS
    && (input.scope.scopeType != Institution ==> input.scope.scopeId.Some?)
  }

  /** Insert or update; a new row takes the next free id, since rows are never deleted. */
  function UpsertedConfig(t: ConfigTables, input: ConfigInput): Result<ConfigTables, ConfigError> {
    if !ValidInput(input) then Err(BadInput)
    else
      var id := if input.scope in t.configs then t.configs[input.scope].id else |t.configs|;
      Ok(t.(configs := t.configs[input.scope :=
              ConfigRow(id, input.minPercentage, input.toleranceMinutes, input.postTolerance)]))
  }

  predicate NoRepeats(factors: seq<Id>) {
    forall i, j :: 0 <= i < j < |factors| ==> factors[i] != factors[j]
  }

  /** Every factor is a known type, as the foreign key demands. */
  predicate KnownFactors(factorTypes: set<Id>, factors: seq<Id>) {
    forall f :: f in factors ==> f in factorTypes
  }

  predicate IsConfig(configs: map<Scope, ConfigRow>, id: Id) {
    exists scope :: scope in configs && configs[scope].id == id
  }

  /** Delete and reinsert; the unique pair and the two foreign keys make bad input roll back. */
  function RequiredSet(t: ConfigTables, id: Id, factors: seq<Id>): Result<ConfigTables, ConfigError> {
    if !NoRepeats(factors) then Err(RepeatedFactor)
    else if factors != [] && !IsConfig(t.configs, id) then Err(UnknownConfig)
    else if !KnownFactors(t.factorTypes, factors) then Err(UnknownFactor)
    else Ok(t.(required := t.required[id := set f | f in factors]))
  }

  // ---------------------------------------------------------------------------
  // What was configured is what gets resolved
  // ---------------------------------------------------------------------------

  /** Different scopes have different configs. */
  ghost predicate IdsUnique(t: ConfigTables) {
    && (forall a :: a in t.configs ==> t.configs[a].id < |t.configs|)
    && (forall a, b :: a in t.configs && b in t.configs && t.configs[a].id == t.configs[b].id ==> a == b)
  }

  /** A known scope keeps its id; a new one gets the next free id. */
  lemma {:induction false} UpsertedId(t: ConfigTables, input: ConfigInput, scope: Scope)
    requires UpsertedConfig(t, input).Ok?
    ensures var u := UpsertedConfig(t, input).value;
            && (scope in u.configs <==> scope in t.configs || scope == input.scope)
            && (scope in u.configs ==> u.configs[scope].id == if scope in t.configs then t.configs[scope].id else |t.configs|)
            && |u.configs| == |t.configs| + if input.scope in t.configs then 0 else 1
  {
  }

  lemma {:induction false} UpsertKeepsIds(t: ConfigTables, input: ConfigInput)
    requires IdsUnique(t) && UpsertedConfig(t, input).Ok?
    ensures IdsUnique(UpsertedConfig(t, input).value)
  {
    var u := UpsertedConfig(t, input).value;
    forall a | a in u.configs ensures u.configs[a].id < |u.configs| {
      UpsertedId(t, input, a);
    }
    forall a, b | a in u.configs && b in u.configs && u.configs[a].id == u.configs[b].id ensures a == b {
      UpsertedId(t, input, a);
      UpsertedId(t, input, b);
    }
  }

  /** `scope` is the one whose config a class group takes. */
  predicate Governs(t: ConfigTables, scope: Scope, group: Id)
    requires group in t.courseOf
  {
    var scopes := Cascade(group, t.courseOf[group]);
    exists i :: 0 <= i < |scopes| && scopes[i] == scope && scope in t.configs
                && forall j :: 0 <= j < i ==> scopes[j] !in t.configs
  }

  /** Only the configured scope's row and only that config's factors change. */
  lemma {:induction false} OnlyThisScopeChanges(t: ConfigTables, input: ConfigInput, factors: seq<Id>, scope: Scope)
    requires IdsUnique(t) && ValidInput(input) && NoRepeats(factors) && KnownFactors(t.factorTypes, factors)
    ensures var written := UpsertedConfig(t, input).value;
            var row := written.configs[input.scope];
            var u := RequiredSet(written, row.id, factors);
            && u.Ok? && u.value.courseOf == t.courseOf && u.value.configs == written.configs
            && RequiredOf(u.value, row.id) == (set f | f in factors)
            && (scope != input.scope ==> FindConfig(u.value, scope) == FindConfig(t, scope))
            && (scope != input.scope && scope in t.configs ==>
                  RequiredOf(u.value, t.configs[scope].id) == RequiredOf(t, t.configs[scope].id))
  {
    var written := UpsertedConfig(t, input).value;
    assert input.scope in written.configs;
  }

  /** Configuring a scope and its factors changes exactly the class groups it governs, and
      those resolve to the values and factors just given. */
  lemma {:induction false} ConfiguredIsResolved(t: ConfigTables, input: ConfigInput, factors: seq<Id>, group: Id)
    requires IdsUnique(t) && group in t.courseOf
    requires ValidInput(input) && NoRepeats(factors) && KnownFactors(t.factorTypes, factors)
    ensures var written := UpsertedConfig(t, input).value;
            var row := written.configs[input.scope];
            var u := RequiredSet(written, row.id, factors);
            && u.Ok?
            && row.minPercentage == input.minPercentage
            && row.toleranceMinutes == input.toleranceMinutes
            && row.postTolerance == input.postTolerance
            && EffectiveConfig(u.value, group) ==
                 if Governs(written, input.scope, group) then Ok(Effective(row, set f | f in factors))
                 else EffectiveConfig(t, group)
  {
    var written := UpsertedConfig(t, input).value;
    var scopes := Cascade(group, t.courseOf[group]);
    OnlyThisScopeChanges(t, input, factors, scopes[0]);
    OnlyThisScopeChanges(t, input, factors, scopes[1]);
    OnlyThisScopeChanges(t, input, factors, scopes[2]);
    GoverningScope(written, input.scope, group);
  }

  lemma {:induction false} GoverningScope(t: ConfigTables, scope: Scope, group: Id)
    requires group in t.courseOf
    ensures var scopes := Cascade(group, t.courseOf[group]);
            Governs(t, scope, group) <==>
              && scope in t.configs
              && (scope == scopes[0]
                  || (scope == scopes[1] && scopes[0] !in t.configs)
                  || (scope == scopes[2] && scopes[0] !in t.configs && scopes[1] !in t.configs))
  {
    var scopes := Cascade(group, t.courseOf[group]);
    assert |scopes| == 3 && scopes[0] != scopes[1] && scopes[1] != scopes[2] && scopes[0] != scopes[2];
  }

  class TenantConfigService {
    const courseOf: map<Id, Id>
    const factorTypes: set<Id>
    var configs: map<Scope, ConfigRow>
    var required: map<Id, set<Id>>

    constructor (courseOf: map<Id, Id>, factorTypes: set<Id>)
      ensures Tables() == ConfigTables(courseOf, factorTypes, map[], map[])
    {
      this.courseOf, this.factorTypes := courseOf, factorTypes;
      configs, required := map[], map[];
    }

    function Tables(): ConfigTables
      reads this
    {
      ConfigTables(courseOf, factorTypes, configs, required)
    }

    method ResolveEffectiveConfig(group: Id) returns (r: Result<Effective, ConfigError>)
      ensures r == EffectiveConfig(Tables(), group)
    {
      if group !in courseOf {
        return Err(ClassGroupNotFound);
      }
      var config := FindConfig(Tables(), Scope(ClassGroup, Some(group)));
      if config.None? {
        config := FindConfig(Tables(), Scope(Course, Some(courseOf[group])));
      }
      if config.None? {
        config := FindConfig(Tables(), Scope(Institution, None));
      }
      if config.None? {
        return Err(NoConfig);
      }
      return Ok(Effective(config.value, RequiredOf(Tables(), config.value.id)));
    }

    method UpsertConfig(input: ConfigInput) returns (r: Result<ConfigRow, ConfigError>)
      modifies this`configs
      ensures match r
              case Ok(row) => UpsertedConfig(old(Tables()), input) == Ok(Tables()) && configs[input.scope] == row
              case Err(e) => UpsertedConfig(old(Tables()), input) == Err(e) && Tables() == old(Tables())
      ensures r.Ok? ==> input.scope in configs
      ensures r.Ok? <==>
                && 0.0 <= input.minPercentage <= 100.0 && 0 <= input.toleranceMinutes
                && input.postTolerance in {"block_checkin", "deny_presence", "register_only"}
                && (input.scope.scopeType == Institution || input.scope.scopeId.Some?)
      ensures r.Err? ==> r.error == BadInput && configs == old(configs)
      ensures r.Ok? ==>
                && configs.Keys == old(configs).Keys + {input.scope}
                && (forall other :: other in old(configs) && other != input.scope ==> configs[other] == old(configs)[other])
                && configs[input.scope].minPercentage == input.minPercentage
                && configs[input.scope].toleranceMinutes == input.toleranceMinutes
                && configs[input.scope].postTolerance == input.postTolerance
                && (input.scope in old(configs) ==> configs[input.scope].id == old(configs)[input.scope].id)
    {
      if !ValidInput(input) {
        return Err(BadInput);
      }
      var existing := FindConfig(Tables(), input.scope);
      var id := if existing.Some? then existing.value.id else |configs|;
      var row := ConfigRow(id, input.minPercentage, input.toleranceMinutes, input.postTolerance);
      configs := configs[input.scope := row];
      return Ok(row);
    }

    method SetRequiredFactors(id: Id, factors: seq<Id>) returns (r: Result<(), ConfigError>)
      modifies this`required
      ensures match r
              case Ok(_) => RequiredSet(old(Tables()), id, factors) == Ok(Tables())
              case Err(e) => RequiredSet(old(Tables()), id, factors) == Err(e) && Tables() == old(Tables())
      ensures r.Ok? <==>
                && (forall i, j :: 0 <= i < j < |factors| ==> factors[i] != factors[j])
                && (forall f :: f in factors ==> f in factorTypes)
                && (factors == [] || exists scope :: scope in configs && configs[scope].id == id)
      ensures r.Ok? ==> forall f :: f in RequiredOf(Tables(), id) <==> f in factors
      ensures forall other :: other != id ==> RequiredOf(Tables(), other) == old(RequiredOf(Tables(), other))
    {
      if !NoRepeats(factors) {
        return Err(RepeatedFactor);
      }
      if factors != [] && !IsConfig(configs, id) {
        return Err(UnknownConfig);
      }
      if !KnownFactors(factorTypes, factors) {
        return Err(UnknownFactor);
      }
      required := required[id := set f | f in factors];
      return Ok(());
    }
  }

  datatype SessionInput = SessionInput(tenant: Id, classGroup: Id, room: Id, scheduledStart: int, scheduledEnd: int)

  function Snapshot(input: SessionInput, e: Effective): Session {
    Session(input.tenant, input.classGroup, input.room, input.scheduledStart, input.scheduledEnd,
            e.config.minPercentage, e.config.toleranceMinutes, e.config.postTolerance, e.requiredFactors)
  }

  class ClassSessionService {
    const configService: TenantConfigService
    var sessions: seq<Session>

    constructor (configService: TenantConfigService)
      ensures this.configService == configService && sessions == []
    {
      this.configService := configService;
      sessions := [];
    }

    method CreateSession(input: SessionInput) returns (r: Result<Id, ConfigError>)
      modifies this
      ensures match r
              case Ok(id) =>
                && EffectiveConfig(configService.Tables(), input.classGroup).Ok?
                && id == |old(sessions)|
                && sessions == old(sessions) + [Snapshot(input, EffectiveConfig(configService.Tables(), input.classGroup).value)]
              case Err(e) => EffectiveConfig(configService.Tables(), input.classGroup) == Err(e) && sessions == old(sessions)
      ensures r.Ok? ==>
                var session := sessions[r.value];
                && session.tenant == input.tenant && session.classGroup == input.classGroup && session.room == input.room
                && session.scheduledStart == input.scheduledStart && session.scheduledEnd == input.scheduledEnd
    {
      var effective := configService.ResolveEffectiveConfig(input.classGroup);
      if effective.Err? {
        return Err(effective.error);
      }
      sessions := sessions + [Snapshot(input, effective.value)];
      return Ok(|sessions| - 1);
    }
  }
}
