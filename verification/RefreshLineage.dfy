/**
  Refresh, login and logout transactions interleaved at row-lock granularity.

  `Present` is the unlocked lookup by hash; `Lock` re-reads the row FOR UPDATE and waits while
  another transaction holds it; the `Finish…` events publish a transaction's writes. The
  revoke-all statement picks its targets when it starts and can finish only once no other
  transaction holds one of them. An event that cannot happen leaves the state as it is.
*/
module RefreshLineage {
  import opened Basics
  import opened RefreshTokens

  datatype Worker =
    | Idle
    | Presented(id: Id)
    | Locked(id: Id, row: Token)
    | Burning(id: Id, row: Token, targets: set<Id>)
    | LoggingOut(id: Id)

  /** An accepted exchange and its time. */
  datatype Grant = Grant(presented: Id, successor: Id, at: int)

  /** `logins` are the tokens issued by a login; `granted` logs every accepted exchange and
      `issued` the time each token was issued. */
  datatype State = State(
    tokens: seq<Token>, workers: map<Id, Worker>, logins: set<Id>, granted: seq<Grant>, issued: seq<int>)

  datatype Event =
    | Login(person: Id, now: int)
    | Present(w: Id, id: Id)
    | Lock(w: Id)
    | StartBurn(w: Id)
    | FinishBurn(w: Id, now: int)
    | FinishExpired(w: Id, now: int)
    | FinishRotate(w: Id, now: int)
    | StartLogout(w: Id, id: Id)
    | FinishLogout(w: Id, now: int)
    | Abort(w: Id)

  const Start := State([], map[], {}, [], [])

  function WorkerOf(s: State, w: Id): Worker {
    if w in s.workers then s.workers[w] else Idle
  }

  function With(s: State, w: Id, worker: Worker): State {
    s.(workers := s.workers[w := worker])
  }

  predicate Holds(s: State, w: Id, id: Id) {
    (WorkerOf(s, w).Locked? || WorkerOf(s, w).Burning?) && WorkerOf(s, w).id == id
  }

  /** No transaction but `w` holds row `id`. */
  ghost predicate FreeFor(s: State, w: Id, id: Id) {
    forall v: Id :: v != w ==> !Holds(s, v, id)
  }

  ghost function Step(s: State, e: Event): State {
    match e
    case Login(person, now) =>
      s.(tokens := Issued(s.tokens, person, now), logins := s.logins + {|s.tokens|}, issued := s.issued + [now])
    case Present(w, id) =>
      if WorkerOf(s, w).Idle? && id < |s.tokens| then With(s, w, Presented(id)) else s
    case Lock(w) =>
      var me := WorkerOf(s, w);
      if me.Presented? && me.id < |s.tokens| && FreeFor(s, w, me.id) then With(s, w, Locked(me.id, s.tokens[me.id])) else s
    case StartBurn(w) =>
      var me := WorkerOf(s, w);
      if me.Locked? && me.row.revokedAt.Some? then With(s, w, Burning(me.id, me.row, LiveOf(s.tokens, me.row.person))) else s
    case FinishBurn(w, now) =>
      var me := WorkerOf(s, w);
      if me.Burning? && forall t :: t in me.targets ==> FreeFor(s, w, t)
      then With(s, w, Idle).(tokens := RevokedMany(s.tokens, me.targets, now))
      else s
    case FinishExpired(w, now) =>
      var me := WorkerOf(s, w);
      if me.Locked? && me.id < |s.tokens| && Decide(me.row, now) == Expired
      then With(s, w, Idle).(tokens := RevokedOne(s.tokens, me.id, now))
      else s
    case FinishRotate(w, now) =>
      var me := WorkerOf(s, w);
      if me.Locked? && me.id < |s.tokens| && Decide(me.row, now) == Rotate
      then With(s, w, Idle).(
             tokens := RotatedTo(Issued(s.tokens, me.row.person, now), me.id, |s.tokens|, now),
             granted := s.granted + [Grant(me.id, |s.tokens|, now)],
             issued := s.issued + [now])
      else s
    case StartLogout(w, id) =>
      if WorkerOf(s, w).Idle? && Live(s.tokens, id) then With(s, w, LoggingOut(id)) else s
    case FinishLogout(w, now) =>
      var me := WorkerOf(s, w);
      if me.LoggingOut? && me.id < |s.tokens| && FreeFor(s, w, me.id)
      then With(s, w, Idle).(tokens := RevokedOne(s.tokens, me.id, now))
      else s
    case Abort(w) => With(s, w, Idle)
  }

  ghost function RunFrom(s: State, es: seq<Event>): State
    decreases |es|
  {
    if es == [] then s else Step(RunFrom(s, es[..|es| - 1]), es[|es| - 1])
  }

  // ---------------------------------------------------------------------------
  // The invariant
  // ---------------------------------------------------------------------------

  predicate Link(tokens: seq<Token>, i: Id, j: Id) {
    i < |tokens| && tokens[i].replacedBy == Some(j)
  }

  /** Successors are later rows of the same person; a replaced token is revoked, and every
      token is either a login's or exactly one token's successor. */
  ghost predicate LineageOk(tokens: seq<Token>, logins: set<Id>) {
    && (forall i: Id, j: Id :: Link(tokens, i, j) ==>
          && i < j < |tokens| && j !in logins
          && tokens[i].revokedAt.Some? && tokens[i].person == tokens[j].person)
    && (forall i: Id, k: Id, j: Id :: Link(tokens, i, j) && Link(tokens, k, j) ==> i == k)
    && (forall j: Id :: j < |tokens| && j !in logins ==> exists i: Id :: Link(tokens, i, j))
    && (forall j :: j in logins ==> j < |tokens|)
  }

  ghost predicate GrantsOk(tokens: seq<Token>, granted: seq<Grant>) {
    && (forall k :: 0 <= k < |granted| ==> Link(tokens, granted[k].presented, granted[k].successor))
    && (forall k, l :: 0 <= k < l < |granted| ==> granted[k].presented != granted[l].presented)
  }

  /** A transaction's view of the row it holds is current, and nobody else holds it. */
  ghost predicate WorkerOk(s: State, w: Id) {
    var me := WorkerOf(s, w);
    me.Locked? || me.Burning? ==> me.id < |s.tokens| && s.tokens[me.id] == me.row && FreeFor(s, w, me.id)
  }

  ghost predicate Inv(s: State) {
    && LineageOk(s.tokens, s.logins)
    && GrantsOk(s.tokens, s.granted)
    && forall w: Id :: WorkerOk(s, w)
  }

  /** Revoking keeps every link. */
  ghost predicate OnlyRevokes(a: seq<Token>, b: seq<Token>) {
    && |a| == |b|
    && forall i :: 0 <= i < |a| ==>
         && b[i].replacedBy == a[i].replacedBy && b[i].person == a[i].person
         && (a[i].revokedAt.Some? ==> b[i].revokedAt.Some?)
  }

  lemma {:induction false} RevokingKeepsLineage(a: seq<Token>, b: seq<Token>, logins: set<Id>, granted: seq<Grant>)
    requires LineageOk(a, logins) && GrantsOk(a, granted) && OnlyRevokes(a, b)
    ensures LineageOk(b, logins) && GrantsOk(b, granted)
  {
    assert forall i: Id, j: Id :: Link(a, i, j) <==> Link(b, i, j);
  }

  lemma {:induction false} IssuingKeepsLineage(a: seq<Token>, person: Id, now: int, logins: set<Id>, granted: seq<Grant>)
    requires LineageOk(a, logins) && GrantsOk(a, granted)
    ensures LineageOk(Issued(a, person, now), logins + {|a|}) && GrantsOk(Issued(a, person, now), granted)
  {
    var b := Issued(a, person, now);
    assert forall i: Id, j: Id :: Link(a, i, j) <==> Link(b, i, j);
  }

  lemma {:induction false} RotatingKeepsLineage(a: seq<Token>, id: Id, now: int, logins: set<Id>, granted: seq<Grant>)
    requires LineageOk(a, logins) && GrantsOk(a, granted)
    requires id < |a| && a[id].revokedAt.None?
    ensures var b := RotatedTo(Issued(a, a[id].person, now), id, |a|, now);
            LineageOk(b, logins) && GrantsOk(b, granted + [Grant(id, |a|, now)])
  {
    var b := RotatedTo(Issued(a, a[id].person, now), id, |a|, now);
    assert forall j: Id :: !Link(a, id, j);
    assert forall i: Id, j: Id :: Link(b, i, j) <==> Link(a, i, j) || (i == id && j == |a|);
    forall k | 0 <= k < |granted| ensures granted[k].presented != id {
      assert Link(a, granted[k].presented, granted[k].successor);
    }
  }

  lemma {:induction false} StepKeepsLineage(s: State, e: Event)
    requires Inv(s)
    ensures LineageOk(Step(s, e).tokens, Step(s, e).logins) && GrantsOk(Step(s, e).tokens, Step(s, e).granted)
  {
    var t := Step(s, e);
    match e
    case Login(person, now) => IssuingKeepsLineage(s.tokens, person, now, s.logins, s.granted);
    case FinishRotate(w, now) =>
      assert WorkerOk(s, w);
      if t != s { RotatingKeepsLineage(s.tokens, WorkerOf(s, w).id, now, s.logins, s.granted); }
    case _ => RevokingKeepsLineage(s.tokens, t.tokens, s.logins, s.granted);
  }

  lemma {:induction false} StepKeepsWorker(s: State, e: Event, v: Id)
    requires forall w: Id :: WorkerOk(s, w)
    ensures WorkerOk(Step(s, e), v)
  {
    var t := Step(s, e);
    assert WorkerOk(s, v);
    if !e.Login? {
      assert WorkerOk(s, e.w);
      assert forall w: Id :: w != e.w ==> WorkerOf(t, w) == WorkerOf(s, w);
      assert forall w: Id, id: Id :: w != e.w ==> Holds(t, w, id) == Holds(s, w, id);
      assert forall id: Id :: Holds(t, e.w, id) ==> Holds(s, e.w, id) || FreeFor(s, e.w, id);
      var mine := WorkerOf(s, v);
      if v != e.w && (mine.Locked? || mine.Burning?) {
        assert !Holds(s, e.w, mine.id);
        assert Holds(s, v, mine.id) && !FreeFor(s, e.w, mine.id);
      }
    } else {
      assert forall w: Id, id: Id :: Holds(t, w, id) == Holds(s, w, id);
    }
  }

  lemma {:induction false} StepKeepsInv(s: State, e: Event)
    requires Inv(s)
    ensures Inv(Step(s, e))
  {
    StepKeepsLineage(s, e);
    forall v ensures WorkerOk(Step(s, e), v) {
      StepKeepsWorker(s, e, v);
    }
  }

  lemma {:induction false} EveryRunIsSound(es: seq<Event>)
    ensures Inv(RunFrom(Start, es))
    decreases |es|
  {
    if es != [] {
      EveryRunIsSound(es[..|es| - 1]);
      StepKeepsInv(RunFrom(Start, es[..|es| - 1]), es[|es| - 1]);
    }
  }

  // ---------------------------------------------------------------------------
  // What every run guarantees
  // ---------------------------------------------------------------------------

  /** Each token value is exchanged at most once, each accepted exchange is recorded as the
      token's one successor, and an exchanged token is revoked. */
  lemma {:induction false} ExchangedAtMostOnce(es: seq<Event>, k: nat, l: nat)
    requires k < |RunFrom(Start, es).granted| && l < |RunFrom(Start, es).granted|
    ensures var s := RunFrom(Start, es);
            && (s.granted[k].presented == s.granted[l].presented || s.granted[k].successor == s.granted[l].successor ==> k == l)
            && s.granted[k].presented < |s.tokens|
            && s.tokens[s.granted[k].presented].replacedBy == Some(s.granted[k].successor)
            && s.tokens[s.granted[k].presented].revokedAt.Some?
  {
    EveryRunIsSound(es);
    var s := RunFrom(Start, es);
    assert Link(s.tokens, s.granted[k].presented, s.granted[k].successor);
    assert Link(s.tokens, s.granted[l].presented, s.granted[l].successor);
  }

  /** Whatever a later run does, a recorded exchange stays, with the same successor. */
  lemma {:induction false} ExchangesAreForever(s: State, es: seq<Event>, i: Id, j: Id)
    requires Inv(s) && Link(s.tokens, i, j)
    ensures Inv(RunFrom(s, es)) && Link(RunFrom(s, es).tokens, i, j)
    decreases |es|
  {
    if es != [] {
      var before, e := RunFrom(s, es[..|es| - 1]), es[|es| - 1];
      ExchangesAreForever(s, es[..|es| - 1], i, j);
      StepKeepsInv(before, e);
      if e.FinishRotate? {
        assert WorkerOk(before, e.w);
      }
    }
  }

  // ---------------------------------------------------------------------------
  // Expiry
  // ---------------------------------------------------------------------------

  /** Each token expires thirty days after its logged issue, and each logged exchange was made
      no later than its token's expiry. */
  ghost predicate TimesOk(s: State) {
    && |s.issued| == |s.tokens|
    && (forall i :: 0 <= i < |s.tokens| ==> s.tokens[i].expiresAt == s.issued[i] + 2592000000)
    && (forall k :: 0 <= k < |s.granted| ==>
          && s.granted[k].presented < |s.tokens| && s.granted[k].successor < |s.tokens|
          && s.granted[k].at <= s.tokens[s.granted[k].presented].expiresAt
          && s.issued[s.granted[k].successor] == s.granted[k].at)
  }

  lemma {:induction false} StepKeepsTimes(s: State, e: Event)
    requires Inv(s) && TimesOk(s)
    ensures TimesOk(Step(s, e))
  {
    if e.FinishRotate? {
      assert WorkerOk(s, e.w);
    }
  }

  lemma {:induction false} RunKeepsTimes(es: seq<Event>)
    ensures TimesOk(RunFrom(Start, es))
    decreases |es|
  {
    if es != [] {
      RunKeepsTimes(es[..|es| - 1]);
      EveryRunIsSound(es[..|es| - 1]);
      StepKeepsTimes(RunFrom(Start, es[..|es| - 1]), es[|es| - 1]);
    }
  }

  /** In every interleaving an exchange is made no later than the exchanged token's expiry and
      no more than thirty days after its issue; the successor counts as issued then. */
  lemma {:induction false} NoExchangeAfterExpiry(es: seq<Event>, k: nat)
    requires k < |RunFrom(Start, es).granted|
    ensures var s := RunFrom(Start, es);
            var grant := s.granted[k];
            && grant.presented < |s.tokens| == |s.issued| && grant.successor < |s.tokens|
            && grant.at <= s.tokens[grant.presented].expiresAt
            && grant.at <= s.issued[grant.presented] + 30 * 24 * 60 * 60 * 1000
            && s.issued[grant.successor] == grant.at
  {
    RunKeepsTimes(es);
  }

  /** The login token a token descends from. */
  ghost function RootOf(tokens: seq<Token>, j: Id): Id
    decreases j
  {
    if exists i: Id :: i < j && Link(tokens, i, j) then
      var i: Id :| i < j && Link(tokens, i, j);
      RootOf(tokens, i)
    else j
  }

  /** Following successors from `i` reaches `j`. */
  predicate Reaches(tokens: seq<Token>, i: Id, j: Id)
    decreases j - i
  {
    || i == j
    || (i < j && i < |tokens| && tokens[i].replacedBy.Some? && i < tokens[i].replacedBy.value <= j
        && Reaches(tokens, tokens[i].replacedBy.value, j))
  }

  lemma {:induction false} RootIsALogin(tokens: seq<Token>, logins: set<Id>, j: Id)
    requires LineageOk(tokens, logins) && j < |tokens|
    ensures RootOf(tokens, j) in logins && RootOf(tokens, j) <= j
    ensures tokens[RootOf(tokens, j)].person == tokens[j].person
    decreases j
  {
    if exists i: Id :: i < j && Link(tokens, i, j) {
      var i: Id :| i < j && Link(tokens, i, j);
      RootIsALogin(tokens, logins, i);
    }
  }

  lemma {:induction false} ReachesOneFurther(tokens: seq<Token>, i: Id, p: Id, j: Id)
    requires Reaches(tokens, i, p) && Link(tokens, p, j) && p < j
    ensures Reaches(tokens, i, j)
    decreases p - i
  {
    if i != p {
      ReachesOneFurther(tokens, tokens[i].replacedBy.value, p, j);
    }
  }

  /** Two tokens of one chain are ordered by succession. */
  lemma {:induction false} ChainsAreLinear(tokens: seq<Token>, logins: set<Id>, i: Id, j: Id)
    requires LineageOk(tokens, logins) && i < j < |tokens| && RootOf(tokens, i) == RootOf(tokens, j)
    ensures Reaches(tokens, i, j)
    decreases j
  {
    RootIsALogin(tokens, logins, i);
    if exists p: Id :: p < j && Link(tokens, p, j) {
      var p: Id :| p < j && Link(tokens, p, j);
      if i < p {
        ChainsAreLinear(tokens, logins, i, p);
        ReachesOneFurther(tokens, i, p, j);
      } else if p < i {
        ChainsAreLinear(tokens, logins, p, i);
        assert false;
      } else {
        assert Reaches(tokens, j, j);
      }
    }
  }

  /** Each chain has at most one live token. */
  lemma {:induction false} OneLiveTokenPerChain(es: seq<Event>, i: Id, j: Id)
    requires Live(RunFrom(Start, es).tokens, i) && Live(RunFrom(Start, es).tokens, j)
    requires RootOf(RunFrom(Start, es).tokens, i) == RootOf(RunFrom(Start, es).tokens, j)
    ensures i == j
  {
    EveryRunIsSound(es);
    var s := RunFrom(Start, es);
    if i != j {
      var first, second := if i < j then i else j, if i < j then j else i;
      ChainsAreLinear(s.tokens, s.logins, first, second);
      assert Link(s.tokens, first, s.tokens[first].replacedBy.value);
      assert false;
    }
  }

  /** A person never has more live tokens than logins. */
  lemma {:induction false} LiveTokensNeverExceedLogins(es: seq<Event>, person: Id)
    ensures var s := RunFrom(Start, es);
            && (forall l :: l in s.logins ==> l < |s.tokens|)
            && |LiveOf(s.tokens, person)| <= |set l | l in s.logins && s.tokens[l].person == person|
  {
    EveryRunIsSound(es);
    var s := RunFrom(Start, es);
    var own := set l | l in s.logins && s.tokens[l].person == person;
    var live := LiveOf(s.tokens, person);
    var root := map i | i in live :: RootOf(s.tokens, i);
    forall i | i in live ensures root[i] in own {
      RootIsALogin(s.tokens, s.logins, i);
    }
    forall a, b | a in live && b in live && root[a] == root[b] ensures a == b {
      OneLiveTokenPerChain(es, a, b);
    }
    InjectiveImageFits(live, root, own);
  }

  // ---------------------------------------------------------------------------
  // The service is one of the runs
  // ---------------------------------------------------------------------------

  /** The statements of one refresh, as the locked row's state dictates. */
  function RefreshEvents(tokens: seq<Token>, w: Id, id: Id, now: int): seq<Event>
    requires id < |tokens|
  {
    [Present(w, id), Lock(w)]
    + match Decide(tokens[id], now)
      case Reuse => [StartBurn(w), FinishBurn(w, now)]
      case Expired => [FinishExpired(w, now)]
      case Rotate => [FinishRotate(w, now)]
  }

  lemma {:induction false} RunAppends(s: State, es: seq<Event>, e: Event)
    ensures RunFrom(s, es + [e]) == Step(RunFrom(s, es), e)
  {
    assert (es + [e])[..|es|] == es;
  }

  /** Only `w` is inside a transaction. */
  ghost predicate Alone(s: State, w: Id) {
    forall v: Id :: v != w ==> WorkerOf(s, v).Idle?
  }

  lemma {:induction false} StaysAlone(s: State, w: Id, worker: Worker)
    requires Alone(s, w)
    ensures Alone(With(s, w, worker), w)
  {
    assert forall v: Id :: v != w ==> WorkerOf(With(s, w, worker), v) == WorkerOf(s, v);
  }

  lemma {:induction false} SerialOpening(s: State, w: Id, id: Id)
    requires id < |s.tokens| && Alone(s, w) && WorkerOf(s, w).Idle?
    ensures var t := RunFrom(s, [Present(w, id), Lock(w)]);
            Alone(t, w) && WorkerOf(t, w) == Locked(id, s.tokens[id]) && t.tokens == s.tokens && t.granted == s.granted
  {
    StaysAlone(s, w, Presented(id));
    StaysAlone(With(s, w, Presented(id)), w, Locked(id, s.tokens[id]));
    RunAppends(s, [], Present(w, id));
    RunAppends(s, [Present(w, id)], Lock(w));
    assert [Present(w, id)] + [Lock(w)] == [Present(w, id), Lock(w)];
  }

  lemma {:induction false} SerialBurn(s: State, w: Id, now: int)
    requires Alone(s, w) && WorkerOf(s, w).Locked? && WorkerOf(s, w).row.revokedAt.Some?
    ensures var t := Step(Step(s, StartBurn(w)), FinishBurn(w, now));
            && t.tokens == RevokedMany(s.tokens, LiveOf(s.tokens, WorkerOf(s, w).row.person), now)
            && t.granted == s.granted
  {
    var me := WorkerOf(s, w);
    StaysAlone(s, w, Burning(me.id, me.row, LiveOf(s.tokens, me.row.person)));
  }

  /** With no other transaction open, a refresh's statements do what `Refresh` does, and the
      exchange is granted exactly when `Refresh` returns a token. */
  lemma {:induction false} SerialRefreshIsARun(s: State, w: Id, id: Id, now: int)
    requires id < |s.tokens| && Alone(s, w) && WorkerOf(s, w).Idle?
    ensures var t := RunFrom(s, RefreshEvents(s.tokens, w, id, now));
            && t.tokens == Refreshed(s.tokens, id, now)
            && t.granted == s.granted + (if Decide(s.tokens[id], now) == Rotate then [Grant(id, |s.tokens|, now)] else [])
  {
    SerialOpening(s, w, id);
    var opening := [Present(w, id), Lock(w)];
    match Decide(s.tokens[id], now)
    case Reuse =>
      SerialBurn(RunFrom(s, opening), w, now);
      RunAppends(s, opening, StartBurn(w));
      RunAppends(s, opening + [StartBurn(w)], FinishBurn(w, now));
      assert RefreshEvents(s.tokens, w, id, now) == opening + [StartBurn(w)] + [FinishBurn(w, now)];
    case Expired => RunAppends(s, opening, FinishExpired(w, now));
    case Rotate => RunAppends(s, opening, FinishRotate(w, now));
  }

  /** And a logout's statements do what `Logout` does. */
  lemma {:induction false} SerialLogoutIsARun(s: State, w: Id, id: Id, now: int)
    requires Alone(s, w) && WorkerOf(s, w).Idle?
    ensures RunFrom(s, [StartLogout(w, id), FinishLogout(w, now)]).tokens == LoggedOut(s.tokens, id, now)
  {
    RunAppends(s, [], StartLogout(w, id));
    RunAppends(s, [StartLogout(w, id)], FinishLogout(w, now));
    assert [] + [StartLogout(w, id)] == [StartLogout(w, id)];
    assert [StartLogout(w, id)] + [FinishLogout(w, now)] == [StartLogout(w, id), FinishLogout(w, now)];
    StaysAlone(s, w, LoggingOut(id));
  }

  /** A rolled-back transaction leaves the tables alone and frees its row. */
  lemma {:induction false} AbortRollsBack(s: State, w: Id)
    ensures var t := Step(s, Abort(w));
            && t.tokens == s.tokens && t.granted == s.granted && WorkerOf(t, w).Idle?
            && (forall id: Id :: !Holds(t, w, id)) && forall v: Id :: v != w ==> WorkerOf(t, v) == WorkerOf(s, v)
  {
  }
}
