/**
  A second human decision that replaces the first, run from configuration to resolution: a
  person is deferred for a missing factor, then, once a late entry has arrived, for a missing
  exit, and two leaders resolve the two reviews differently.
*/
module SecondDecision {
  import opened Basics
  import opened Checkins
  import opened Presence
  import opened AttendanceRules
  import opened AttendanceProperties
  import opened Config
  import opened Campus

  const Codes: FactorCodes := map[1 := ROOM_ENTRY, 2 := ROOM_EXIT]
  const Nothing := Evidence(Codes, [])
  const EntryOnly := Evidence(Codes, [LateEntry])

  /** Leader 1 answers for the institution, leader 2 for class group 0 of course 0. */
  const Leaders: set<Leadership> := {Leadership(1, None, None), Leadership(2, Some(0), Some(0))}

  const Configure: seq<Event> := [
    UpsertConfig(ConfigInput(Scope(Institution, None), 75.0, 0, "register_only")),
    SetRequiredFactors(0, [1, 2]),
    CreateSession(SessionInput(0, 0, 0, 0, 3600000))]

  const Defer: seq<Event> := [Evaluate(0, 3600000, Nothing, [7]), Evaluate(0, 3600000, EntryOnly, [7])]
  const FirstDecision := ResolveReview(0, 0, 1, Present, None, 4000000, Leaders)
  const NextDecision := ResolveReview(0, 1, 2, Absent, None, 5000000, Leaders)

  lemma {:induction false} RunAppends(s: State, es: seq<Event>, e: Event)
    ensures RunFrom(s, es + [e]) == Step(RunFrom(s, es), e)
  {
    assert (es + [e])[..|es|] == es;
  }

  lemma {:induction false} Configured()
    ensures RunFrom(Start(map[0 := 0], {1, 2}), Configure).classes == [Class(OneHour, EmptyRegister)]
    ensures RunFrom(Start(map[0 := 0], {1, 2}), Configure).config.courseOf == map[0 := 0]
  {
    var s := Start(map[0 := 0], {1, 2});
    RunAppends(s, [], Configure[0]);
    RunAppends(s, [Configure[0]], Configure[1]);
    RunAppends(s, [Configure[0], Configure[1]], Configure[2]);
    assert [] + [Configure[0]] == [Configure[0]];
    assert [Configure[0]] + [Configure[1]] == [Configure[0], Configure[1]];
    assert [Configure[0], Configure[1]] + [Configure[2]] == Configure;
    var row := ConfigRow(0, 75.0, 0, "register_only");
    var one := RunFrom(s, [Configure[0]]);
    var configs := map[Scope(Institution, None) := row];
    assert one.config == ConfigTables(map[0 := 0], {1, 2}, configs, map[]);
    assert IsConfig(one.config.configs, 0) by { assert one.config.configs[Scope(Institution, None)].id == 0; }
    var two := RunFrom(s, [Configure[0], Configure[1]]);
    assert NoRepeats([1, 2]) && KnownFactors({1, 2}, [1, 2]);
    var factors := RequiredSet(one.config, 0, [1, 2]).value.required[0];
    assert forall f :: f in factors <==> f in [1, 2];
    assert factors == {1, 2};
    assert two.config == ConfigTables(map[0 := 0], {1, 2}, configs, map[0 := {1, 2}]);
    assert EffectiveConfig(two.config, 0) == Ok(Effective(row, {1, 2}));
  }

  /** With no check-in at all, the entry is missing. */
  lemma {:induction false} NothingIsMissingFactor()
    ensures VerdictFor(OneHour, 0, Nothing, 7) == Deferred(MissingFactor)
  {
    MissingFactorIff(OneHour, 0, Nothing, 7);
    assert ROOM_ENTRY[6] != ROOM_EXIT[6];
    assert 1 in OneHour.requiredFactors && Codes[1] == ROOM_ENTRY;
    assert Requires(OneHour, Nothing, ROOM_ENTRY) && !Shown(OneHour, 0, Nothing, 7, ROOM_ENTRY);
  }

  /** With only the entry, the exit is. */
  lemma {:induction false} EntryOnlyIsMissingExit()
    ensures VerdictFor(OneHour, 0, EntryOnly, 7) == Deferred(MissingExit)
  {
    var subject := SubjectOf(OneHour, 0, 7);
    assert ROOM_ENTRY[6] != ROOM_EXIT[6];
    assert EntryOnly.scan[..0] == [];
    assert Selected(Codes, EntryOnly.scan, subject) == [RoomEvent(0, true)];
    assert [RoomEvent(0, true)][..0] == [];
    assert Timeline(Codes, EntryOnly.scan, subject) == [RoomEvent(0, true)];
    assert ShowsCode(Codes, EntryOnly.scan[0], 0, 0, 7, ROOM_ENTRY);
    assert Codes[2] == ROOM_EXIT && Requires(OneHour, EntryOnly, "ROOM_EXIT");
    forall code | code != "ROOM_EXIT" && Requires(OneHour, EntryOnly, code) ensures Shown(OneHour, 0, EntryOnly, 7, code) {
      var f :| f in OneHour.requiredFactors && f in Codes && Codes[f] == code;
      assert code == ROOM_ENTRY;
    }
    MissingExitIff(OneHour, 0, EntryOnly, 7);
  }

  lemma {:induction false} EvaluateOne(reg: Register, ev: Evidence)
    ensures EvaluatedAll(reg, OneHour, 0, ev, [7]) == Evaluated(reg, OneHour, 0, ev, 7)
  {
    EvaluatedAllSnoc(reg, OneHour, 0, ev, [], 7);
    assert [] + [7] == [7];
  }

  /** The two evaluations leave the person pending with one open review for each reason. */
  lemma {:induction false} BothReasonsOpen()
    ensures var reg := Evaluated(Evaluated(EmptyRegister, OneHour, 0, Nothing, 7), OneHour, 0, EntryOnly, 7);
            && reg.reviews == [Review(7, MissingFactor, None, None, None), Review(7, MissingExit, None, None, None)]
            && 7 in reg.consolidations && reg.consolidations[7] == Consolidation(0, 0.0, Pending, None, None)
  {
    NothingIsMissingFactor();
    EntryOnlyIsMissingExit();
  }

  lemma {:induction false} LeadersMayResolve()
    ensures IsAuthorizedToResolve(Leaders, 1, 0, 0) && IsAuthorizedToResolve(Leaders, 2, 0, 0)
  {
    assert Leadership(1, None, None) in Leaders;
    assert Leadership(2, Some(0), Some(0)) in Leaders;
  }

  lemma {:induction false} EvaluationStores(s: State, ev: Evidence, reg: Register)
    requires s.classes == [Class(OneHour, reg)]
    ensures Step(s, Evaluate(0, 3600000, ev, [7])).classes == [Class(OneHour, Evaluated(reg, OneHour, 0, ev, 7))]
    ensures Step(s, Evaluate(0, 3600000, ev, [7])).config == s.config
  {
    EvaluateOne(reg, ev);
  }

  /** The state in which both reviews are open is reached. */
  lemma {:induction false} DeferredTwice()
    ensures var t := RunFrom(Start(map[0 := 0], {1, 2}), Configure + Defer);
            var reg := Evaluated(Evaluated(EmptyRegister, OneHour, 0, Nothing, 7), OneHour, 0, EntryOnly, 7);
            t.classes == [Class(OneHour, reg)] && t.config.courseOf == map[0 := 0]
  {
    var s := Start(map[0 := 0], {1, 2});
    Configured();
    RunAppends(s, Configure, Defer[0]);
    EvaluationStores(RunFrom(s, Configure), Nothing, EmptyRegister);
    RunAppends(s, Configure + [Defer[0]], Defer[1]);
    EvaluationStores(
      RunFrom(s, Configure + [Defer[0]]), EntryOnly, Evaluated(EmptyRegister, OneHour, 0, Nothing, 7));
    assert Configure + [Defer[0]] + [Defer[1]] == Configure + Defer;
  }

  /** Either leader's resolution of an unresolved review of the person passes every check. */
  lemma {:induction false} LeaderDecides(s: State, review: Id, leader: Id, decision: Status, now: int)
    requires |s.classes| == 1 && s.classes[0].session == OneHour && s.config.courseOf == map[0 := 0]
    requires review < |s.classes[0].register.reviews|
    requires s.classes[0].register.reviews[review].person == 7 && s.classes[0].register.reviews[review].resolvedAt.None?
    requires 7 in s.classes[0].register.consolidations
    requires leader in {1, 2} && decision in {Present, Absent}
    ensures var t := Step(s, ResolveReview(0, review, leader, decision, None, now, Leaders));
            && |t.classes| == 1 && t.classes[0].session == OneHour && t.config.courseOf == map[0 := 0]
            && t.classes[0].register == Resolved(s.classes[0].register, review, leader, decision, None, now)
            && 7 in t.classes[0].register.consolidations
            && t.classes[0].register.consolidations[7].status == decision
            && t.classes[0].register.consolidations[7].resolvedBy == Some(leader)
  {
    LeadersMayResolve();
    var reg := s.classes[0].register;
    assert ResolveCheck(reg, review, leader, decision, Chain(Some(OneHour), map[0 := 0], Leaders)).None?;
  }

  /** In a run of the back office the first leader's present becomes the second's absent, each
      decision having passed every check. */
  lemma {:induction false} SecondDecisionCanReplaceFirst()
    ensures var s := Start(map[0 := 0], {1, 2});
            var first := RunFrom(s, Configure + Defer + [FirstDecision]);
            var second := RunFrom(s, Configure + Defer + [FirstDecision] + [NextDecision]);
            && |first.classes| == |second.classes| == 1
            && var before, after := first.classes[0].register.consolidations, second.classes[0].register.consolidations;
               && 7 in before && before[7].status == Present && before[7].resolvedBy == Some(1)
               && 7 in after && after[7].status == Absent && after[7].resolvedBy == Some(2)
  {
    var s := Start(map[0 := 0], {1, 2});
    DeferredTwice();
    BothReasonsOpen();
    RunAppends(s, Configure + Defer, FirstDecision);
    LeaderDecides(RunFrom(s, Configure + Defer), 0, 1, Present, 4000000);
    RunAppends(s, Configure + Defer + [FirstDecision], NextDecision);
    LeaderDecides(RunFrom(s, Configure + Defer + [FirstDecision]), 1, 2, Absent, 5000000);
  }
}
