/**
  The app's client composed with the token server statement by statement: its refresh request
  is one transaction among any number of others.

  Assumed of the outside: nobody else knows the client's tokens, a committed answer is
  delivered, and login and logout do not overlap a refresh. A request may be lost before its
  transaction commits, which rolls it back.
*/
module MobileRuns {
  import opened Basics
  import opened RefreshTokens
  import opened MobileClient
  import Server = RefreshLineage

  datatype State = State(server: Server.State, client: Client)

  /** The transaction that serves the client's own refresh; every other id is somebody else's. */
  const OWN: Id := 0

  datatype Event =
    | GotUnauthorized
    | ReadStore
    | LoseConnection
    | DeliverAnswer
    | ClientLogin(person: Id, now: int)
    | ClientLogout
    | Statement(e: Server.Event)

  const Start := State(Server.Start, Fresh)

  /** Token values only this client knows. */
  predicate Owns(c: Client, id: Id) {
    c.stored == Some(id) || c.flight == Posting(id) || c.flight == Answered(Ok(id))
  }

  /** The client's transaction opens with the posted token; others open with tokens of their
      own. The logout request of a client that has cleared its store is one of theirs. */
  predicate Allowed(c: Client, e: Server.Event) {
    match e
    case Present(w, id) => if w == OWN then c.flight == Posting(id) else !Owns(c, id)
    case StartLogout(w, id) => w != OWN && !Owns(c, id)
    case _ => true
  }

  /** The answer goes out when the client's transaction ends. */
  ghost function AfterStatement(s: State, e: Server.Event): State {
    var server := Server.Step(s.server, e);
    if Server.WorkerOf(s.server, OWN).Idle? || !Server.WorkerOf(server, OWN).Idle? then s.(server := server)
    else
      var answer := if e.FinishRotate? then Ok(|s.server.tokens|) else Err(InvalidRefreshToken);
      State(server, s.client.(flight := Answered(answer)))
  }

  ghost function Step(s: State, e: Event): State {
    match e
    case GotUnauthorized => s.(client := Unauthorized(s.client))
    case ReadStore => s.(client := AfterRead(s.client))
    case LoseConnection =>
      if s.client.flight.Posting?
      then State(Server.Step(s.server, Server.Abort(OWN)), AfterNetworkError(s.client))
      else s
    case DeliverAnswer => s.(client := AfterAnswer(s.client))
    case ClientLogin(person, now) =>
      if s.client.flight.NoFlight?
      then State(Server.Step(s.server, Server.Login(person, now)), s.client.(stored := Some(|s.server.tokens|)))
      else s
    case ClientLogout => if s.client.flight.NoFlight? then s.(client := s.client.(stored := None)) else s
    case Statement(e) => if Allowed(s.client, e) then AfterStatement(s, e) else s
  }

  ghost function RunFrom(s: State, es: seq<Event>): State
    decreases |es|
  {
    if es == [] then s else Step(RunFrom(s, es[..|es| - 1]), es[|es| - 1])
  }

  /** Others are unhindered: every login, every statement of a transaction that is open, and
      every transaction opened for a token the client neither stores, posts nor has been answered
      with, takes place. */
  lemma {:induction false} OthersProceed(s: State, e: Server.Event)
    requires e.Login? || e.w != OWN
    requires e.Present? || e.StartLogout? ==>
               s.client.stored != Some(e.id) && s.client.flight != Posting(e.id) && s.client.flight != Answered(Ok(e.id))
    ensures Step(s, Statement(e)) == s.(server := Server.Step(s.server, e))
  {
    var t := Server.Step(s.server, e);
    assert Server.WorkerOf(t, OWN) == Server.WorkerOf(s.server, OWN);
  }

  // ---------------------------------------------------------------------------
  // The client holds the tip of its chain
  // ---------------------------------------------------------------------------

  /** The last token of its chain. */
  predicate IsTip(tokens: seq<Token>, id: Id) {
    id < |tokens| && tokens[id].replacedBy.None?
  }

  /** The token the client would use next. */
  function Current(c: Client): Option<Id> {
    match c.flight
    case Answered(Ok(id)) => Some(id)
    case Answered(Err(_)) => None
    case _ => c.stored
  }

  /** Where transaction `w` stands with the row it was opened for. */
  predicate Opened(s: Server.State, w: Id, id: Id) {
    var worker := Server.WorkerOf(s, w);
    (worker.Presented? || worker.Locked? || worker.Burning?) && worker.id == id
  }

  ghost predicate OwnOk(s: State) {
    var own := Server.WorkerOf(s.server, OWN);
    && (own.Idle? || (s.client.flight.Posting? && Opened(s.server, OWN, s.client.flight.token)))
    && (s.client.flight.Posting? ==> s.client.stored == Some(s.client.flight.token))
  }

  /** Nobody else's transaction was opened for a token of the client's. */
  ghost predicate OthersOk(s: State) {
    forall v: Id, id: Id :: v != OWN && Opened(s.server, v, id) ==> id < |s.server.tokens| && !Owns(s.client, id)
  }

  ghost predicate HoldsTip(s: State) {
    && Server.Inv(s.server)
    && OwnOk(s) && OthersOk(s)
    && (Current(s.client).Some? ==> IsTip(s.server.tokens, Current(s.client).value))
  }

  lemma {:induction false} StatementFrame(s: Server.State, e: Server.Event)
    ensures var t := Server.Step(s, e);
            && |s.tokens| <= |t.tokens|
            && (forall i: Id :: IsTip(s.tokens, i) && (e.FinishRotate? ==> !Opened(s, e.w, i)) ==> IsTip(t.tokens, i))
            && (forall v: Id, id: Id :: Opened(t, v, id) ==> Opened(s, v, id) || (e.Present? && v == e.w && id == e.id))
            && (forall v: Id :: !e.Login? && v != e.w ==> Server.WorkerOf(t, v) == Server.WorkerOf(s, v))
  {
  }

  lemma {:induction false} StatementHoldsTip(s: State, e: Server.Event)
    requires HoldsTip(s) && Allowed(s.client, e)
    ensures HoldsTip(AfterStatement(s, e))
  {
    var t := AfterStatement(s, e);
    Server.StepKeepsInv(s.server, e);
    StatementFrame(s.server, e);
    forall v: Id, id: Id | v != OWN && Opened(t.server, v, id) ensures id < |t.server.tokens| && !Owns(t.client, id) {
      assert !Opened(s.server, v, id) ==> Server.WorkerOf(s.server, v).Idle? && id < |s.server.tokens|;
    }
  }

  lemma {:induction false} StepHoldsTip(s: State, e: Event)
    requires HoldsTip(s)
    ensures HoldsTip(Step(s, e))
  {
    match e
    case Statement(se) =>
      if Allowed(s.client, se) { StatementHoldsTip(s, se); }
    case LoseConnection =>
      Server.StepKeepsInv(s.server, Server.Abort(OWN));
      StatementFrame(s.server, Server.Abort(OWN));
    case ClientLogin(person, now) =>
      Server.StepKeepsInv(s.server, Server.Login(person, now));
      StatementFrame(s.server, Server.Login(person, now));
    case _ =>
  }

  lemma {:induction false} ClientHoldsTip(es: seq<Event>)
    ensures HoldsTip(RunFrom(Start, es))
    decreases |es|
  {
    if es != [] {
      ClientHoldsTip(es[..|es| - 1]);
      StepHoldsTip(RunFrom(Start, es[..|es| - 1]), es[|es| - 1]);
    }
  }

  /** However many 401s overlap and however other transactions interleave with the client's own,
      the token it has posted and the row the server locks for it have never been exchanged, and
      whenever no refresh is in flight the stored token is the tip of its chain. */
  lemma {:induction false} NeverPresentsRotatedToken(es: seq<Event>)
    ensures var s := RunFrom(Start, es);
            && (s.client.flight.Posting? ==> IsTip(s.server.tokens, s.client.flight.token))
            && (Server.WorkerOf(s.server, OWN).Locked? ==> Server.WorkerOf(s.server, OWN).row.replacedBy.None?)
            && (s.client.flight.NoFlight? && s.client.stored.Some? ==> IsTip(s.server.tokens, s.client.stored.value))
  {
    ClientHoldsTip(es);
    assert Server.WorkerOk(RunFrom(Start, es).server, OWN);
  }

  // ---------------------------------------------------------------------------
  // The client never looks like a replay
  // ---------------------------------------------------------------------------

  /** No reuse by somebody else is detected for the person the client is logged in as; reuse of
      anyone else's tokens is allowed. */
  ghost predicate NoReplay(s: State, e: Event) {
    e.Statement? && e.e.StartBurn? && e.e.w != OWN && Server.WorkerOf(s.server, e.e.w).Locked?
    && Current(s.client).Some? && Current(s.client).value < |s.server.tokens| ==>
      Server.WorkerOf(s.server, e.e.w).row.person != s.server.tokens[Current(s.client).value].person
  }

  ghost predicate NoReplayElsewhere(es: seq<Event>)
    decreases |es|
  {
    es == [] || (NoReplayElsewhere(es[..|es| - 1]) && NoReplay(RunFrom(Start, es[..|es| - 1]), es[|es| - 1]))
  }

  /** A burn or logout under way that is about to revoke `id`. */
  predicate Dooms(worker: Server.Worker, id: Id) {
    (worker.Burning? && id in worker.targets) || (worker.LoggingOut? && worker.id == id)
  }

  ghost predicate NotDoomed(s: Server.State, id: Id) {
    forall v: Id :: !Dooms(Server.WorkerOf(s, v), id)
  }

  /** Burns and logouts under way concern existing rows. */
  ghost predicate TargetsExist(s: Server.State) {
    forall v: Id, id: Id :: Dooms(Server.WorkerOf(s, v), id) ==> id < |s.tokens|
  }

  ghost predicate HoldsLive(s: State) {
    && HoldsTip(s) && TargetsExist(s.server)
    && (Current(s.client).Some? ==>
          Live(s.server.tokens, Current(s.client).value) && NotDoomed(s.server, Current(s.client).value))
    && !Server.WorkerOf(s.server, OWN).Burning?
  }

  /** A statement makes its transaction doom a row only by starting a burn of the person's live
      rows or the logout of that row. */
  lemma {:induction false} StatementDooms(s: Server.State, e: Server.Event, v: Id, id: Id)
    requires Dooms(Server.WorkerOf(Server.Step(s, e), v), id)
    ensures || Dooms(Server.WorkerOf(s, v), id)
            || (e.StartBurn? && e.w == v && Server.WorkerOf(s, v).Locked? && Server.WorkerOf(s, v).row.revokedAt.Some?
                && id in LiveOf(s.tokens, Server.WorkerOf(s, v).row.person))
            || (e.StartLogout? && e.id == id && id < |s.tokens|)
  {
    StatementFrame(s, e);
  }

  lemma {:induction false} StatementKeepsTargets(s: Server.State, e: Server.Event)
    requires TargetsExist(s)
    ensures TargetsExist(Server.Step(s, e))
  {
    var t := Server.Step(s, e);
    StatementFrame(s, e);
    forall v: Id, id: Id | Dooms(Server.WorkerOf(t, v), id) ensures id < |t.tokens| {
      StatementDooms(s, e, v, id);
    }
  }

  /** What a statement may do to a live token nobody is about to revoke. */
  lemma {:induction false} StatementSpares(s: Server.State, e: Server.Event, id: Id)
    requires Live(s.tokens, id) && NotDoomed(s, id)
    requires e.FinishRotate? || e.FinishExpired? ==> !Opened(s, e.w, id)
    requires e.StartBurn? && Server.WorkerOf(s, e.w).Locked? && Server.WorkerOf(s, e.w).row.revokedAt.Some? ==>
               Server.WorkerOf(s, e.w).row.person != s.tokens[id].person
    requires e.StartLogout? ==> e.id != id
    ensures Live(Server.Step(s, e).tokens, id) && NotDoomed(Server.Step(s, e), id)
  {
    var t := Server.Step(s, e);
    assert e.FinishBurn? || e.FinishLogout? ==> !Dooms(Server.WorkerOf(s, e.w), id);
    forall v: Id ensures !Dooms(Server.WorkerOf(t, v), id) {
      if Dooms(Server.WorkerOf(t, v), id) {
        StatementDooms(s, e, v, id);
      }
    }
  }

  /** A token just issued is live, and older burns and logouts do not concern it. */
  lemma {:induction false} NewTokenIsSafe(s: Server.State, e: Server.Event)
    requires TargetsExist(s) && |Server.Step(s, e).tokens| > |s.tokens|
    ensures Live(Server.Step(s, e).tokens, |s.tokens|) && NotDoomed(Server.Step(s, e), |s.tokens|)
  {
    var t := Server.Step(s, e);
    forall v: Id ensures !Dooms(Server.WorkerOf(t, v), |s.tokens|) {
      if Dooms(Server.WorkerOf(t, v), |s.tokens|) {
        StatementDooms(s, e, v, |s.tokens|);
      }
    }
  }

  lemma {:induction false} StatementHoldsLive(s: State, e: Server.Event)
    requires HoldsLive(s) && Allowed(s.client, e) && NoReplay(s, Statement(e))
    ensures HoldsLive(AfterStatement(s, e))
  {
    var t := AfterStatement(s, e);
    StatementHoldsTip(s, e);
    StatementKeepsTargets(s.server, e);
    assert Server.WorkerOk(s.server, OWN);
    if t.client == s.client {
      if Current(s.client).Some? {
        var id := Current(s.client).value;
        assert Owns(s.client, id);
        assert e.FinishRotate? || e.FinishExpired? ==> !Opened(s.server, e.w, id) || t.server == s.server;
        if t.server != s.server { StatementSpares(s.server, e, id); }
      }
    } else if Current(t.client).Some? {
      NewTokenIsSafe(s.server, e);
    }
  }

  lemma {:induction false} StepHoldsLive(s: State, e: Event)
    requires HoldsLive(s) && NoReplay(s, e)
    ensures HoldsLive(Step(s, e))
  {
    StepHoldsTip(s, e);
    match e
    case Statement(se) =>
      if Allowed(s.client, se) { StatementHoldsLive(s, se); }
    case LoseConnection =>
      StatementKeepsTargets(s.server, Server.Abort(OWN));
      if Current(s.client).Some? { StatementSpares(s.server, Server.Abort(OWN), Current(s.client).value); }
    case ClientLogin(person, now) =>
      StatementKeepsTargets(s.server, Server.Login(person, now));
      NewTokenIsSafe(s.server, Server.Login(person, now));
    case _ =>
  }

  lemma {:induction false} ClientHoldsLive(es: seq<Event>)
    requires NoReplayElsewhere(es)
    ensures HoldsLive(RunFrom(Start, es))
    decreases |es|
  {
    if es != [] {
      ClientHoldsLive(es[..|es| - 1]);
      StepHoldsLive(RunFrom(Start, es[..|es| - 1]), es[|es| - 1]);
    }
  }

  /** The single-flight client never trips reuse detection by itself, however its refresh
      interleaves: what it has posted is live, and the row the server locks for it is never
      judged a reuse. */
  lemma {:induction false} ClientNeverLooksLikeAReplay(es: seq<Event>, now: int)
    requires NoReplayElsewhere(es)
    ensures var s := RunFrom(Start, es);
            && (s.client.flight.Posting? ==> Live(s.server.tokens, s.client.flight.token))
            && (Server.WorkerOf(s.server, OWN).Locked? ==> Decide(Server.WorkerOf(s.server, OWN).row, now) != Reuse)
            && !Server.WorkerOf(s.server, OWN).Burning?
  {
    ClientHoldsLive(es);
    assert Server.WorkerOk(RunFrom(Start, es).server, OWN);
  }

  // ---------------------------------------------------------------------------
  // A refresh on its own is one of the runs
  // ---------------------------------------------------------------------------

  /** A 401, the store read, and the request's transaction up to its locked row. */
  ghost function UpToLock(s: State, id: Id): State {
    Step(Step(Step(Step(s, GotUnauthorized), ReadStore), Statement(Server.Present(OWN, id))), Statement(Server.Lock(OWN)))
  }

  lemma {:induction false} ReachesLock(s: State, id: Id)
    requires Server.Alone(s.server, OWN) && Server.WorkerOf(s.server, OWN).Idle?
    requires s.client.flight.NoFlight? && s.client.stored == Some(id) && id < |s.server.tokens|
    ensures var t := UpToLock(s, id);
            && Server.Alone(t.server, OWN) && Server.WorkerOf(t.server, OWN) == Server.Locked(id, s.server.tokens[id])
            && t.server.tokens == s.server.tokens
            && t.client == s.client.(flight := Posting(id), waiting := s.client.waiting + 1)
  {
    var presented := Server.With(s.server, OWN, Server.Presented(id));
    Server.StaysAlone(s.server, OWN, Server.Presented(id));
    Server.StaysAlone(presented, OWN, Server.Locked(id, s.server.tokens[id]));
    assert Server.Step(s.server, Server.Present(OWN, id)) == presented;
    assert Server.Step(presented, Server.Lock(OWN)) == Server.With(presented, OWN, Server.Locked(id, s.server.tokens[id]));
  }

  /** With nobody else at work, the server does what `Refresh` does and the client ends with the
      successor of its token, or logged out. */
  lemma {:induction false} SerialRefreshIsARun(s: State, id: Id, now: int)
    requires Server.Alone(s.server, OWN) && Server.WorkerOf(s.server, OWN).Idle?
    requires s.client.flight.NoFlight? && s.client.stored == Some(id) && id < |s.server.tokens|
    ensures var locked, decision := UpToLock(s, id), Decide(s.server.tokens[id], now);
            var ended := match decision
                         case Rotate => Step(locked, Statement(Server.FinishRotate(OWN, now)))
                         case Expired => Step(locked, Statement(Server.FinishExpired(OWN, now)))
                         case Reuse => Step(Step(locked, Statement(Server.StartBurn(OWN))), Statement(Server.FinishBurn(OWN, now)));
            var t := Step(ended, DeliverAnswer);
            && t.server.tokens == Refreshed(s.server.tokens, id, now)
            && t.client == if decision == Rotate
                           then Client(Some(|s.server.tokens|), NoFlight, 0, s.client.forcedLogouts)
                           else GivenUp(s.client)
  {
    ReachesLock(s, id);
    var locked := UpToLock(s, id);
    if Decide(s.server.tokens[id], now) == Reuse {
      Server.SerialBurn(locked.server, OWN, now);
    }
  }
}
