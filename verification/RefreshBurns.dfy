/**
  Revoke-all beside other transactions (refresh-token.service.ts, `revokeAllForPerson`).

  The statement picks the person's live rows when it starts; a token issued after that, by a
  login or by a refresh that already holds another row, is not among them.
*/
module RefreshBurns {
  import opened Basics
  import opened RefreshTokens
  import opened RefreshLineage

  /** Rows are only added, keep their person and stay revoked once revoked. */
  ghost predicate OnlyGrows(a: seq<Token>, b: seq<Token>) {
    && |a| <= |b|
    && forall i :: 0 <= i < |a| ==> b[i].person == a[i].person && (a[i].revokedAt.Some? ==> b[i].revokedAt.Some?)
  }

  lemma {:induction false} StepGrows(s: State, e: Event)
    ensures OnlyGrows(s.tokens, Step(s, e).tokens)
  {
  }

  /** No event of `es` belongs to transaction `w`. */
  predicate Foreign(es: seq<Event>, w: Id) {
    forall i :: 0 <= i < |es| ==> es[i].Login? || es[i].w != w
  }

  lemma {:induction false} RunGrows(s: State, es: seq<Event>, w: Id)
    requires Foreign(es, w)
    ensures OnlyGrows(s.tokens, RunFrom(s, es).tokens) && WorkerOf(RunFrom(s, es), w) == WorkerOf(s, w)
    decreases |es|
  {
    if es != [] {
      var before, e := RunFrom(s, es[..|es| - 1]), es[|es| - 1];
      RunGrows(s, es[..|es| - 1], w);
      StepGrows(before, e);
      assert e.Login? || e.w != w;
    }
  }

  /** Whatever logins and other transactions do while a burn is under way, when it finishes the
      person's live tokens are exactly the live ones issued since it started. */
  lemma {:induction false} BurnLeavesOnlyNewer(s: State, w: Id, es: seq<Event>, now: int)
    requires WorkerOf(s, w).Locked? && WorkerOf(s, w).row.revokedAt.Some? && Foreign(es, w)
    ensures var person := WorkerOf(s, w).row.person;
            var met := RunFrom(Step(s, StartBurn(w)), es);
            var t := Step(met, FinishBurn(w, now));
            WorkerOf(t, w).Idle? ==>
              LiveOf(t.tokens, person) == set i | i in LiveOf(met.tokens, person) && i >= |s.tokens|
  {
    var started := Step(s, StartBurn(w));
    var person, targets := WorkerOf(s, w).row.person, LiveOf(s.tokens, WorkerOf(s, w).row.person);
    RunGrows(started, es, w);
    var met := RunFrom(started, es);
    assert WorkerOf(met, w) == Burning(WorkerOf(s, w).id, WorkerOf(s, w).row, targets);
    var t := Step(met, FinishBurn(w, now));
    if !WorkerOf(t, w).Idle? { return; }
    assert t.tokens == RevokedMany(met.tokens, targets, now);
    forall i: Id | i < |met.tokens| && i in LiveOf(met.tokens, person) ensures i in targets <==> i < |s.tokens| {
    }
    var kept := set i | i in LiveOf(met.tokens, person) && i >= |s.tokens|;
    forall i: Id | i < |t.tokens| ensures i in LiveOf(t.tokens, person) <==> i in kept {
    }
  }

  // ---------------------------------------------------------------------------
  // A successor that survives
  // ---------------------------------------------------------------------------

  const TTL := REFRESH_TOKEN_TTL_MS

  /** Person 7 logs in on two devices, the first of which exchanges token 0 for token 2. */
  const SignIn: seq<Event> := [Login(7, 0), Login(7, 0), Present(0, 0), Lock(0), FinishRotate(0, 1)]

  /** Token 0 is replayed and token 1 presented; the burn starts; token 1 is exchanged for
      token 3; the burn finishes. */
  const Replay: seq<Event> := [Present(0, 0), Lock(0), Present(1, 1), Lock(1), StartBurn(0), FinishRotate(1, 2), FinishBurn(0, 3)]

  const Exchanged := Token(7, TTL, Some(1), Some(2))
  const SecondDevice := Token(7, TTL, None, None)
  const FirstSuccessor := Token(7, 1 + TTL, None, None)

  lemma {:induction false} SignedIn()
    ensures var s := RunFrom(Start, SignIn);
            s.tokens == [Exchanged, SecondDevice, FirstSuccessor] && forall v: Id :: WorkerOf(s, v).Idle?
  {
    assert SignIn[..4] == [Login(7, 0), Login(7, 0), Present(0, 0), Lock(0)];
    assert SignIn[..4][..3] == [Login(7, 0), Login(7, 0), Present(0, 0)];
    assert SignIn[..4][..3][..2] == [Login(7, 0), Login(7, 0)];
    assert SignIn[..4][..3][..2][..1] == [Login(7, 0)];
    assert RunFrom(Start, []) == Start;
    var one := RunFrom(Start, [Login(7, 0)]);
    assert one == Step(Start, Login(7, 0));
    var two := RunFrom(Start, [Login(7, 0), Login(7, 0)]);
    assert two.tokens == [SecondDevice, SecondDevice] && two.workers == map[];
    var presented := With(two, 0, Presented(0));
    assert RunFrom(Start, SignIn[..4][..3]) == presented;
    assert FreeFor(presented, 0, 0);
    assert RunFrom(Start, SignIn[..4]) == With(presented, 0, Locked(0, SecondDevice));
    var s := RunFrom(Start, SignIn);
    assert s.tokens == [Exchanged, SecondDevice, FirstSuccessor];
  }

  /** Workers 0 and 1 hold the replayed token and the second device's. */
  lemma {:induction false} BothHold(s: State)
    requires s.tokens == [Exchanged, SecondDevice, FirstSuccessor] && forall v: Id :: WorkerOf(s, v).Idle?
    ensures var t := Step(Step(Step(Step(s, Present(0, 0)), Lock(0)), Present(1, 1)), Lock(1));
            && t.tokens == s.tokens
            && WorkerOf(t, 0) == Locked(0, Exchanged) && WorkerOf(t, 1) == Locked(1, SecondDevice)
            && forall v: Id :: v > 1 ==> WorkerOf(t, v).Idle?
  {
    var presented := Step(s, Present(0, 0));
    assert forall v: Id :: v != 0 ==> WorkerOf(presented, v) == WorkerOf(s, v);
    var locked := Step(presented, Lock(0));
    assert locked == With(presented, 0, Locked(0, Exchanged));
    assert forall v: Id :: v != 0 ==> WorkerOf(locked, v) == WorkerOf(s, v);
    var second := Step(locked, Present(1, 1));
    assert second == With(locked, 1, Presented(1));
    assert forall v: Id :: v > 1 ==> WorkerOf(second, v) == WorkerOf(s, v);
    assert FreeFor(second, 1, 1);
    var last := Step(second, Lock(1));
    assert last == With(second, 1, Locked(1, SecondDevice));
    assert forall v: Id :: v > 1 ==> WorkerOf(last, v) == WorkerOf(second, v);
  }

  lemma {:induction false} LastThree(s: State)
    requires s.tokens == [Exchanged, SecondDevice, FirstSuccessor]
    requires WorkerOf(s, 0) == Locked(0, Exchanged) && WorkerOf(s, 1) == Locked(1, SecondDevice)
    requires forall v: Id :: v > 1 ==> WorkerOf(s, v).Idle?
    ensures var met := RunFrom(Step(s, StartBurn(0)), [FinishRotate(1, 2)]);
            var t := Step(met, FinishBurn(0, 3));
            LiveOf(t.tokens, 7) == {3} && t.granted == s.granted + [Grant(1, 3, 2)]
  {
    var started := Step(s, StartBurn(0));
    var met := Step(started, FinishRotate(1, 2));
    assert [FinishRotate(1, 2)][..0] == [];
    assert RunFrom(started, [FinishRotate(1, 2)][..0]) == started;
    assert RunFrom(started, [FinishRotate(1, 2)]) == met;
    assert WorkerOf(met, 0) == Burning(0, Exchanged, LiveOf(s.tokens, 7)) && WorkerOf(met, 1).Idle?;
    assert forall v: Id :: v > 1 ==> WorkerOf(met, v) == WorkerOf(s, v);
    assert forall target :: target in LiveOf(s.tokens, 7) ==> FreeFor(met, 0, target);
    BurnLeavesOnlyNewer(s, 0, [FinishRotate(1, 2)], 3);
    assert met.tokens == RotatedTo(Issued(s.tokens, 7, 2), 1, 3, 2);
    assert 3 in LiveOf(met.tokens, 7);
  }

  /** A refresh of another token that already holds its row when the burn starts leaves its
      successor live: the reuse of token 0 is detected, and token 3 outlives it. */
  lemma {:induction false} SuccessorOutlivesBurn()
    ensures var t := RunFrom(Start, SignIn + Replay);
            LiveOf(t.tokens, 7) == {3} && Grant(1, 3, 2) in t.granted
  {
    SignedIn();
    var s := RunFrom(Start, SignIn);
    BothHold(s);
    var es := SignIn + [Present(0, 0)];
    RunAppends(Start, SignIn, Present(0, 0));
    RunAppends(Start, es, Lock(0));
    RunAppends(Start, es + [Lock(0)], Present(1, 1));
    RunAppends(Start, es + [Lock(0)] + [Present(1, 1)], Lock(1));
    var held := es + [Lock(0)] + [Present(1, 1)] + [Lock(1)];
    LastThree(RunFrom(Start, held));
    RunAppends(Start, held, StartBurn(0));
    RunAppends(Start, held + [StartBurn(0)], FinishRotate(1, 2));
    RunAppends(Start, held + [StartBurn(0)] + [FinishRotate(1, 2)], FinishBurn(0, 3));
    RunAppends(RunFrom(Start, held + [StartBurn(0)]), [], FinishRotate(1, 2));
    assert [] + [FinishRotate(1, 2)] == [FinishRotate(1, 2)];
    assert held + [StartBurn(0)] + [FinishRotate(1, 2)] + [FinishBurn(0, 3)] == SignIn + Replay;
  }
}
