/**
  Refresh-token rotation with reuse detection (mobile-auth.service.ts, refresh-token.service.ts).

  A raw token is an opaque fresh value and its hash is injective, so a presented value either
  names one row or none; rows are never deleted. A transaction's writes become visible at its
  commit, and rows it has locked stay as it read them until then.
*/
module RefreshTokens {
  import opened Basics

  const REFRESH_TOKEN_TTL_MS := 30 * 24 * 60 * 60 * 1000

  datatype Token = Token(person: Id, expiresAt: int, revokedAt: Option<int>, replacedBy: Option<Id>)

  predicate Live(tokens: seq<Token>, id: Id) {
    id < |tokens| && tokens[id].revokedAt.None?
  }

  // ---------------------------------------------------------------------------
  // The token table's writes
  // ---------------------------------------------------------------------------

  function Issued(tokens: seq<Token>, person: Id, now: int): seq<Token> {
    tokens + [Token(person, now + REFRESH_TOKEN_TTL_MS, None, None)]
  }

  function RotatedTo(tokens: seq<Token>, id: Id, successor: Id, now: int): seq<Token>
    requires id < |tokens|
  {
    tokens[id := tokens[id].(revokedAt := Some(now), replacedBy := Some(successor))]
  }

  function RevokedOne(tokens: seq<Token>, id: Id, now: int): seq<Token>
    requires id < |tokens|
  {
    tokens[id := tokens[id].(revokedAt := Some(now))]
  }

  /** Revoke the live rows among `targets`. */
  function RevokedMany(tokens: seq<Token>, targets: set<Id>, now: int): seq<Token> {
    seq(|tokens|, i requires 0 <= i < |tokens| =>
      if i in targets && tokens[i].revokedAt.None? then tokens[i].(revokedAt := Some(now)) else tokens[i])
  }

  function LiveOf(tokens: seq<Token>, person: Id): set<Id> {
    set i: Id | 0 <= i < |tokens| && tokens[i].person == person && tokens[i].revokedAt.None?
  }

  // ---------------------------------------------------------------------------
  // The services, one transaction at a time
  // ---------------------------------------------------------------------------

  datatype AuthError = InvalidRefreshToken

  /** What the refresh transaction decides about the row it has locked. */
  datatype Decision = Reuse | Expired | Rotate

  function Decide(token: Token, now: int): Decision {
    if token.revokedAt.Some? then Reuse else if token.expiresAt < now then Expired else Rotate
  }

  /** The table after one whole refresh, whether it is accepted or rejected. */
  function Refreshed(tokens: seq<Token>, presented: Id, now: int): seq<Token> {
    if |tokens| <= presented then tokens
    else match Decide(tokens[presented], now)
         case Reuse => RevokedMany(tokens, LiveOf(tokens, tokens[presented].person), now)
         case Expired => RevokedOne(tokens, presented, now)
         case Rotate => RotatedTo(Issued(tokens, tokens[presented].person, now), presented, |tokens|, now)
  }

  function LoggedOut(tokens: seq<Token>, presented: Id, now: int): seq<Token> {
    if Live(tokens, presented) then RevokedOne(tokens, presented, now) else tokens
  }

  class MobileAuthService {
    var tokens: seq<Token>

    constructor ()
      ensures tokens == []
    {
      tokens := [];
    }

    /** Credentials have already been checked for `person`. */
    method Login(person: Id, now: int) returns (refreshToken: Id)
      modifies this
      ensures tokens == Issued(old(tokens), person, now) && refreshToken == |old(tokens)|
      ensures tokens == old(tokens) + [Token(person, now + 2592000000, None, None)]
    {
      refreshToken := Issue(person, now);
    }

    /** Every outcome commits; the rejection is raised only after the transaction. */
    method Refresh(presented: Id, now: int) returns (r: Result<Id, AuthError>)
      modifies this
      ensures tokens == Refreshed(old(tokens), presented, now)
      ensures r.Ok? <==> presented < |old(tokens)| && Decide(old(tokens)[presented], now) == Rotate
      ensures r.Ok? ==> r.value == |old(tokens)|
      ensures r.Ok? <==>
                presented < |old(tokens)| && old(tokens)[presented].revokedAt.None? && now <= old(tokens)[presented].expiresAt
      ensures |tokens| == |old(tokens)| + (if r.Ok? then 1 else 0)
      ensures r.Ok? ==>
                && tokens[r.value] == Token(old(tokens)[presented].person, now + 2592000000, None, None)
                && tokens[presented].revokedAt == Some(now) && tokens[presented].replacedBy == Some(r.value)
                && (forall i :: 0 <= i < |old(tokens)| && i != presented ==> tokens[i] == old(tokens)[i])
      ensures presented < |old(tokens)| && old(tokens)[presented].revokedAt.None? && old(tokens)[presented].expiresAt < now ==>
                && tokens[presented] == old(tokens)[presented].(revokedAt := Some(now))
                && (forall i :: 0 <= i < |tokens| && i != presented ==> tokens[i] == old(tokens)[i])
      ensures presented < |old(tokens)| && old(tokens)[presented].revokedAt.Some? ==>
                forall i :: 0 <= i < |tokens| ==>
                  tokens[i] == if old(tokens)[i].person == old(tokens)[presented].person && old(tokens)[i].revokedAt.None?
                               then old(tokens)[i].(revokedAt := Some(now)) else old(tokens)[i]
      ensures presented >= |old(tokens)| ==> tokens == old(tokens)
    {
      if |tokens| <= presented {
        return Err(InvalidRefreshToken);
      }
      var rejected, successor := true, 0;
      var locked := tokens[presented];
      if locked.revokedAt.Some? {
        RevokeAllForPerson(locked.person, now);
      } else if locked.expiresAt < now {
        Revoke(presented, now);
      } else {
        successor := Issue(locked.person, now);
        RotateTo(presented, successor, now);
        rejected := false;
      }
      return if rejected then Err(InvalidRefreshToken) else Ok(successor);
    }

    method Logout(presented: Id, now: int)
      modifies this
      ensures tokens == LoggedOut(old(tokens), presented, now)
      ensures |tokens| == |old(tokens)|
      ensures forall i :: 0 <= i < |tokens| ==>
                tokens[i] == if i == presented && old(tokens)[i].revokedAt.None?
                             then old(tokens)[i].(revokedAt := Some(now)) else old(tokens)[i]
    {
      if presented < |tokens| && tokens[presented].revokedAt.None? {
        Revoke(presented, now);
      }
    }

    method Issue(person: Id, now: int) returns (id: Id)
      modifies this
      ensures tokens == Issued(old(tokens), person, now) && id == |old(tokens)|
    {
      tokens := tokens + [Token(person, now + REFRESH_TOKEN_TTL_MS, None, None)];
      id := |tokens| - 1;
    }

    method RotateTo(presented: Id, successor: Id, now: int)
      requires presented < |tokens|
      modifies this
      ensures tokens == RotatedTo(old(tokens), presented, successor, now)
      ensures |tokens| == |old(tokens)| && forall i :: 0 <= i < |tokens| && i != presented ==> tokens[i] == old(tokens)[i]
      ensures tokens[presented].revokedAt == Some(now) && tokens[presented].replacedBy == Some(successor)
      ensures tokens[presented].person == old(tokens)[presented].person
      ensures tokens[presented].expiresAt == old(tokens)[presented].expiresAt
    {
      tokens := tokens[presented := tokens[presented].(revokedAt := Some(now), replacedBy := Some(successor))];
    }

    method Revoke(id: Id, now: int)
      requires id < |tokens|
      modifies this
      ensures tokens == RevokedOne(old(tokens), id, now)
    {
      tokens := tokens[id := tokens[id].(revokedAt := Some(now))];
    }

    method RevokeAllForPerson(person: Id, now: int)
      modifies this
      ensures tokens == RevokedMany(old(tokens), LiveOf(old(tokens), person), now)
      ensures |tokens| == |old(tokens)|
      ensures forall i :: 0 <= i < |tokens| ==>
                tokens[i] == if old(tokens)[i].person == person && old(tokens)[i].revokedAt.None?
                             then old(tokens)[i].(revokedAt := Some(now)) else old(tokens)[i]
    {
      var rows := tokens;
      tokens := seq(|rows|, i requires 0 <= i < |rows| =>
        if rows[i].person == person && rows[i].revokedAt.None? then rows[i].(revokedAt := Some(now)) else rows[i]);
    }
  }

  // ---------------------------------------------------------------------------
  // Reuse burns the family, for good, when transactions run one after another
  // ---------------------------------------------------------------------------

  datatype Call =
    | CallLogin(person: Id, now: int)
    | CallRefresh(presented: Id, now: int)
    | CallLogout(presented: Id, now: int)

  function AfterCall(tokens: seq<Token>, c: Call): seq<Token> {
    match c
    case CallLogin(person, now) => Issued(tokens, person, now)
    case CallRefresh(presented, now) => Refreshed(tokens, presented, now)
    case CallLogout(presented, now) => LoggedOut(tokens, presented, now)
  }

  function AfterCalls(tokens: seq<Token>, cs: seq<Call>): seq<Token>
    decreases |cs|
  {
    if cs == [] then tokens else AfterCall(AfterCalls(tokens, cs[..|cs| - 1]), cs[|cs| - 1])
  }

  ghost predicate Burned(tokens: seq<Token>, person: Id) {
    forall i :: 0 <= i < |tokens| && tokens[i].person == person ==> tokens[i].revokedAt.Some?
  }

  lemma {:induction false} BurnedUntilLogin(tokens: seq<Token>, cs: seq<Call>, person: Id)
    requires Burned(tokens, person)
    requires forall i :: 0 <= i < |cs| && cs[i].CallLogin? ==> cs[i].person != person
    ensures Burned(AfterCalls(tokens, cs), person)
    decreases |cs|
  {
    if cs != [] {
      BurnedUntilLogin(tokens, cs[..|cs| - 1], person);
    }
  }

  /** Presenting a revoked token rejects, leaves the person without a live token, and until
      that person logs in again every refresh with a token of theirs is rejected. */
  lemma {:induction false} ReuseBurnsTheFamily(tokens: seq<Token>, reused: Id, at: int, cs: seq<Call>, presented: Id, now: int)
    requires reused < |tokens| && tokens[reused].revokedAt.Some?
    requires forall i :: 0 <= i < |cs| && cs[i].CallLogin? ==> cs[i].person != tokens[reused].person
    ensures Decide(tokens[reused], at) != Rotate
    ensures LiveOf(Refreshed(tokens, reused, at), tokens[reused].person) == {}
    ensures var later := AfterCalls(Refreshed(tokens, reused, at), cs);
            presented < |later| && later[presented].person == tokens[reused].person ==>
              Decide(later[presented], now) != Rotate
  {
    var burned := Refreshed(tokens, reused, at);
    assert Burned(burned, tokens[reused].person);
    BurnedUntilLogin(burned, cs, tokens[reused].person);
  }

  /** One after another: a login's token is exchanged within thirty days of its issue and not
      later, its successor takes its place, and a logout ends it. */
  lemma {:induction false} SessionsLive(tokens: seq<Token>, person: Id, at: int, refreshAt: int, logoutAt: int)
    ensures var n := |tokens|;
            var signedIn := AfterCalls(tokens, [CallLogin(person, at)]);
            var refreshed := AfterCall(signedIn, CallRefresh(n, refreshAt));
            var ended := AfterCall(refreshed, CallLogout(n + 1, logoutAt));
            && |signedIn| == n + 1 && signedIn[n].person == person && signedIn[n].revokedAt.None?
            && (if refreshAt <= at + 2592000000 then
                  && |refreshed| == n + 2 && refreshed[n].replacedBy == Some(n + 1)
                  && refreshed[n + 1] == Token(person, refreshAt + 2592000000, None, None)
                  && ended == refreshed[n + 1 := refreshed[n + 1].(revokedAt := Some(logoutAt))]
                else refreshed == signedIn[n := signedIn[n].(revokedAt := Some(refreshAt))] && ended == refreshed)
  {
    assert [CallLogin(person, at)][..0] == [];
    assert AfterCalls(tokens, [CallLogin(person, at)][..0]) == tokens;
  }

  /** A transaction whose callback throws is rolled back; one that returns is committed. */
  datatype Outcome = Returned(tokens: seq<Token>) | Threw(tokens: seq<Token>)

  function RunTransaction(before: seq<Token>, callback: Outcome): seq<Token> {
    match callback
    case Returned(after) => after
    case Threw(_) => before
  }

  /** Had the rejection been thrown inside the transaction, the burn would be lost exactly
      when there was something to burn. */
  lemma {:induction false} ThrowingInsideLosesTheBurn(tokens: seq<Token>, reused: Id, at: int)
    requires reused < |tokens| && tokens[reused].revokedAt.Some?
    ensures var person := tokens[reused].person;
            && Burned(RunTransaction(tokens, Returned(Refreshed(tokens, reused, at))), person)
            && (Burned(RunTransaction(tokens, Threw(Refreshed(tokens, reused, at))), person) <==> LiveOf(tokens, person) == {})
  {
    var person := tokens[reused].person;
    if LiveOf(tokens, person) == {} {
      forall i | 0 <= i < |tokens| && tokens[i].person == person ensures tokens[i].revokedAt.Some? {
        assert i !in LiveOf(tokens, person);
      }
    } else {
      var i :| i in LiveOf(tokens, person);
      assert !Burned(tokens, person);
    }
  }
}
