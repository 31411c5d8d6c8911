/**
  The snapshot of a session taken by separate statements (tenant-config.service.ts,
  class-session.service.ts): each lookup of the cascade and the read of the required factors
  sees the configuration as last committed, so changes may commit in between.
*/
module SnapshotReads {
  import opened Basics
  import opened Config
  import Campus

  /** The statement at which the cascade stops, if it finds a config. `views` are the tables as
      the three lookups and the read that follows see them. */
  function Stop(views: seq<ConfigTables>, scopes: seq<Scope>): (k: Option<nat>)
    requires |views| == 4 && |scopes| == 3
    ensures k.Some? ==> k.value < 3 && scopes[k.value] in views[k.value].configs
                        && forall j :: 0 <= j < k.value ==> scopes[j] !in views[j].configs
    ensures k.None? ==> forall j :: 0 <= j < 3 ==> scopes[j] !in views[j].configs
  {
    if scopes[0] in views[0].configs then Some(0)
    else if scopes[1] in views[1].configs then Some(1)
    else if scopes[2] in views[2].configs then Some(2)
    else None
  }

  /** The row comes from the lookup that found it, its factors from the next statement. */
  function SplitEffective(views: seq<ConfigTables>, group: Id, course: Id): Result<Effective, ConfigError>
    requires |views| == 4
  {
    var scopes := Cascade(group, course);
    match Stop(views, scopes)
    case None => Err(NoConfig)
    case Some(k) =>
      var row := views[k].configs[scopes[k]];
      Ok(Effective(row, RequiredOf(views[k + 1], row.id)))
  }

  /** With nothing committed in between, the statements read what one moment would give. */
  lemma {:induction false} QuietReadsAreAtomic(t: ConfigTables, group: Id)
    requires group in t.courseOf
    ensures SplitEffective([t, t, t, t], group, t.courseOf[group]) == EffectiveConfig(t, group)
  {
    var scopes := Cascade(group, t.courseOf[group]);
    assert |scopes| == 3;
  }

  /** Configs are never deleted and keep their ids. */
  ghost predicate Extends(a: ConfigTables, b: ConfigTables) {
    && a.courseOf == b.courseOf
    && forall scope :: scope in a.configs ==> scope in b.configs && b.configs[scope].id == a.configs[scope].id
  }

  /** The tables at four successive moments. */
  ghost predicate Successive(views: seq<ConfigTables>) {
    && |views| == 4
    && (forall i :: 0 <= i < 4 ==> IdsUnique(views[i]))
    && (forall i :: 0 <= i < 3 ==> Extends(views[i], views[i + 1]))
  }

  lemma {:induction false} RowKeepsItsScope(a: ConfigTables, b: ConfigTables, found: Scope, other: Scope)
    requires Extends(a, b) && IdsUnique(b)
    requires found in a.configs && other in b.configs && b.configs[other].id == a.configs[found].id
    ensures other == found
  {
  }

  lemma {:induction false} CascadeIsThree(group: Id, course: Id)
    ensures var scopes := Cascade(group, course);
            |scopes| == 3 && forall i, j :: 0 <= i < j < 3 ==> scopes[i] != scopes[j]
  {
  }

  /** The config found was the most specific one when it was found iff no more specific scope had
      been configured since its own lookup. */
  lemma {:induction false} FoundIsMostSpecificIff(views: seq<ConfigTables>, group: Id, course: Id)
    requires Successive(views) && Stop(views, Cascade(group, course)).Some?
    ensures var scopes := Cascade(group, course);
            var k := Stop(views, scopes).value;
            IsMostSpecific(views[k], scopes, views[k].configs[scopes[k]]) <==>
              forall j :: 0 <= j < k ==> scopes[j] !in views[k].configs
  {
    var scopes := Cascade(group, course);
    var k := Stop(views, scopes).value;
    CascadeIsThree(group, course);
    if IsMostSpecific(views[k], scopes, views[k].configs[scopes[k]]) {
      var i :| 0 <= i < |scopes| && scopes[i] in views[k].configs && views[k].configs[scopes[i]] == views[k].configs[scopes[k]]
               && forall j :: 0 <= j < i ==> scopes[j] !in views[k].configs;
      assert IdsUnique(views[k]);
      assert scopes[i] == scopes[k];
      assert i == k;
    }
  }

  /** The effective config of a group is one of the cascade's three, none of the earlier ones
      being configured. */
  lemma {:induction false} EffectiveScope(t: ConfigTables, group: Id) returns (i: nat)
    requires group in t.courseOf && EffectiveConfig(t, group).Ok?
    ensures var scopes := Cascade(group, t.courseOf[group]);
            && i < |scopes| == 3 && FindConfig(t, scopes[i]) == Some(EffectiveConfig(t, group).value.config)
            && forall j :: 0 <= j < i ==> scopes[j] !in t.configs
  {
    var scopes := Cascade(group, t.courseOf[group]);
    i := if scopes[0] in t.configs then 0 else if scopes[1] in t.configs then 1 else 2;
  }

  /** The whole snapshot is the effective config at its last read iff by then the found row is
      unchanged and no more specific scope has been configured. */
  lemma {:induction false} SnapshotIsCurrentIff(views: seq<ConfigTables>, group: Id)
    requires Successive(views) && group in views[0].courseOf
    requires Stop(views, Cascade(group, views[0].courseOf[group])).Some?
    ensures var scopes := Cascade(group, views[0].courseOf[group]);
            var k := Stop(views, scopes).value;
            var last := views[k + 1];
            SplitEffective(views, group, views[0].courseOf[group]) == EffectiveConfig(last, group) <==>
              && FindConfig(last, scopes[k]) == Some(views[k].configs[scopes[k]])
              && forall j :: 0 <= j < k ==> scopes[j] !in last.configs
  {
    var scopes := Cascade(group, views[0].courseOf[group]);
    var k := Stop(views, scopes).value;
    var last, row := views[k + 1], views[k].configs[scopes[k]];
    CascadeIsThree(group, views[0].courseOf[group]);
    assert Extends(views[0], views[1]) && Extends(views[1], views[2]) && Extends(views[2], views[3]);
    assert last.courseOf == views[0].courseOf && Extends(views[k], last) && IdsUnique(last);
    assert scopes[k] in last.configs;
    var i := EffectiveScope(last, group);
    if SplitEffective(views, group, views[0].courseOf[group]) == EffectiveConfig(last, group) {
      RowKeepsItsScope(views[k], last, scopes[k], scopes[i]);
      assert i == k;
    } else if forall j :: 0 <= j < k ==> scopes[j] !in last.configs {
      assert i == k;
    }
  }

  // ---------------------------------------------------------------------------
  // In runs of the back office
  // ---------------------------------------------------------------------------

  lemma {:induction false} StepExtends(s: Campus.State, e: Campus.Event)
    ensures Extends(s.config, Campus.Step(s, e).config)
  {
  }

  lemma {:induction false} RunExtends(s: Campus.State, es: seq<Campus.Event>)
    ensures Extends(s.config, Campus.RunFrom(s, es).config)
    decreases |es|
  {
    if es != [] {
      RunExtends(s, es[..|es| - 1]);
      StepExtends(Campus.RunFrom(s, es[..|es| - 1]), es[|es| - 1]);
    }
  }

  /** What the four statements see when other transactions commit `a`, `b` and `c` between them. */
  function ViewsOf(s: Campus.State, a: seq<Campus.Event>, b: seq<Campus.Event>, c: seq<Campus.Event>): seq<ConfigTables> {
    var s1 := Campus.RunFrom(s, a);
    var s2 := Campus.RunFrom(s1, b);
    [s.config, s1.config, s2.config, Campus.RunFrom(s2, c).config]
  }

  lemma {:induction false} FourViews(t0: ConfigTables, t1: ConfigTables, t2: ConfigTables, t3: ConfigTables)
    requires IdsUnique(t0) && IdsUnique(t1) && IdsUnique(t2) && IdsUnique(t3)
    requires Extends(t0, t1) && Extends(t1, t2) && Extends(t2, t3)
    ensures Successive([t0, t1, t2, t3])
  {
  }

  /** Whatever commits between two statements, the second sees an extension of what the first saw. */
  lemma {:induction false} RunSucceeds(s: Campus.State, es: seq<Campus.Event>)
    requires IdsUnique(s.config)
    ensures Extends(s.config, Campus.RunFrom(s, es).config) && IdsUnique(Campus.RunFrom(s, es).config)
  {
    RunExtends(s, es);
    Campus.RunKeepsIds(s, es);
  }

  lemma {:induction false} ViewsAreSuccessive(
      courseOf: map<Id, Id>, factorTypes: set<Id>, es: seq<Campus.Event>,
      a: seq<Campus.Event>, b: seq<Campus.Event>, c: seq<Campus.Event>)
    ensures Successive(ViewsOf(Campus.RunFrom(Campus.Start(courseOf, factorTypes), es), a, b, c))
  {
    var s := Campus.RunFrom(Campus.Start(courseOf, factorTypes), es);
    Campus.ConfigIdsStayUnique(courseOf, factorTypes, es);
    var s1 := Campus.RunFrom(s, a);
    RunSucceeds(s, a);
    var s2 := Campus.RunFrom(s1, b);
    RunSucceeds(s1, b);
    RunSucceeds(s2, c);
    FourViews(s.config, s1.config, s2.config, Campus.RunFrom(s2, c).config);
  }

  /** In every run, whatever commits between the statements of one session creation: the config
      found was most specific when found iff no more specific scope was configured meanwhile, and
      the snapshot is the effective config of its last read iff none is by then and the found
      row is unchanged. */
  lemma {:induction false} InterleavedSnapshot(
      courseOf: map<Id, Id>, factorTypes: set<Id>, es: seq<Campus.Event>,
      a: seq<Campus.Event>, b: seq<Campus.Event>, c: seq<Campus.Event>, group: Id)
    requires group in courseOf
    requires Stop(ViewsOf(Campus.RunFrom(Campus.Start(courseOf, factorTypes), es), a, b, c), Cascade(group, courseOf[group])).Some?
    ensures var views := ViewsOf(Campus.RunFrom(Campus.Start(courseOf, factorTypes), es), a, b, c);
            var scopes := Cascade(group, courseOf[group]);
            var k := Stop(views, scopes).value;
            var row := views[k].configs[scopes[k]];
            && (IsMostSpecific(views[k], scopes, row) <==> forall j :: 0 <= j < k ==> scopes[j] !in views[k].configs)
            && (SplitEffective(views, group, courseOf[group]) == EffectiveConfig(views[k + 1], group) <==>
                  FindConfig(views[k + 1], scopes[k]) == Some(row) && forall j :: 0 <= j < k ==> scopes[j] !in views[k + 1].configs)
  {
    var views := ViewsOf(Campus.RunFrom(Campus.Start(courseOf, factorTypes), es), a, b, c);
    ViewsAreSuccessive(courseOf, factorTypes, es, a, b, c);
    RunExtends(Campus.Start(courseOf, factorTypes), es);
    assert views[0].courseOf == courseOf;
    FoundIsMostSpecificIff(views, group, courseOf[group]);
    SnapshotIsCurrentIff(views, group);
  }

  const Before := ConfigTables(map[0 := 0], {1, 2}, map[Scope(Institution, None) := ConfigRow(0, 75.0, 0, "register_only")], map[0 := {1, 2}])
  const After := ConfigTables(map[0 := 0], {1, 2}, map[Scope(Institution, None) := ConfigRow(0, 50.0, 0, "register_only")], map[0 := {1}])

  /** A minimum and a set of factors that were never configured together: the minimum is read
      before a change of both, the factors after it. */
  lemma {:induction false} SnapshotCanMixVersions()
    ensures var s, change := Campus.State(Before, []),
              [Campus.UpsertConfig(ConfigInput(Scope(Institution, None), 50.0, 0, "register_only")), Campus.SetRequiredFactors(0, [1])];
            var mixed := SplitEffective(ViewsOf(s, [], [], change), 0, 0);
            && Campus.RunFrom(s, change).config == After
            && mixed == Ok(Effective(ConfigRow(0, 75.0, 0, "register_only"), {1}))
            && mixed != EffectiveConfig(Before, 0) && mixed != EffectiveConfig(After, 0)
  {
    var s := Campus.State(Before, []);
    var change := [Campus.UpsertConfig(ConfigInput(Scope(Institution, None), 50.0, 0, "register_only")), Campus.SetRequiredFactors(0, [1])];
    assert change[..1] == [change[0]] && change[..1][..0] == [];
    assert Campus.RunFrom(s, []) == s;
    var half := Campus.Step(s, change[0]);
    assert Campus.RunFrom(s, change[..1]) == half;
    assert half.config.configs == After.configs;
    assert IsConfig(half.config.configs, 0) by { assert half.config.configs[Scope(Institution, None)].id == 0; }
    assert NoRepeats([1]) && KnownFactors({1, 2}, [1]);
    var factors := RequiredSet(half.config, 0, [1]).value.required[0];
    assert forall f :: f in factors <==> f in [1];
    assert factors == {1};
    assert Campus.RunFrom(s, change).config == After;
    assert 2 in EffectiveConfig(Before, 0).value.requiredFactors;
    assert ViewsOf(s, [], [], change) == [Before, Before, Before, After];
  }
}
