/**
  The app's single-flight refresh (mobile/src/lib/api-client.ts) against the token server.

  A method of `ApiClient` is one stretch of code between two awaits. Access tokens carry no
  state of interest and are left out; a request that failed with 401 is one waiter.
*/
module MobileClient {
  import opened Basics
  import opened RefreshTokens

  /** The shared promise: absent, reading the store, posting a token, or holding the answer. */
  datatype Flight =
    | NoFlight
    | Reading
    | Posting(token: Id)
    | Answered(answer: Result<Id, AuthError>)

  /** `stored` is the refresh token in secure storage; `waiting` requests await the promise. */
  datatype Client = Client(stored: Option<Id>, flight: Flight, waiting: nat, forcedLogouts: nat)

  const Fresh := Client(None, NoFlight, 0, 0)

  function Unauthorized(c: Client): Client {
    c.(flight := if c.flight.NoFlight? then Reading else c.flight, waiting := c.waiting + 1)
  }

  function GivenUp(c: Client): Client {
    Client(None, NoFlight, 0, c.forcedLogouts + 1)
  }

  function AfterRead(c: Client): Client {
    if !c.flight.Reading? then c
    else if c.stored.Some? then c.(flight := Posting(c.stored.value))
    else GivenUp(c)
  }

  function AfterAnswer(c: Client): Client {
    if !c.flight.Answered? then c
    else if c.flight.answer.Ok? then Client(Some(c.flight.answer.value), NoFlight, 0, c.forcedLogouts)
    else GivenUp(c)
  }

  /** The request never reached the server: the promise rejects and nothing is cleared. */
  function AfterNetworkError(c: Client): Client {
    if c.flight.Posting? then c.(flight := NoFlight, waiting := 0) else c
  }

  class ApiClient {
    var stored: Option<Id>
    var refreshPromise: Flight
    var waiting: nat
    var forcedLogouts: nat

    constructor ()
      ensures View() == Fresh
    {
      stored, refreshPromise, waiting, forcedLogouts := None, NoFlight, 0, 0;
    }

    function View(): Client
      reads this
    {
      Client(stored, refreshPromise, waiting, forcedLogouts)
    }

    /** `refreshAccessToken`: start a refresh unless one is in flight, then wait for it. */
    method RefreshAccessToken()
      modifies this
      ensures View() == Unauthorized(old(View()))
      ensures refreshPromise == (if old(refreshPromise).NoFlight? then Reading else old(refreshPromise))
      ensures waiting == old(waiting) + 1 && stored == old(stored) && forcedLogouts == old(forcedLogouts)
    {
      if refreshPromise.NoFlight? {
        refreshPromise := Reading;
      }
      waiting := waiting + 1;
    }

    /** `performRefresh` once the stored token has been read; the token to post, if any. */
    method ContinueWithStoredToken() returns (post: Option<Id>)
      requires refreshPromise.Reading?
      modifies this
      ensures View() == AfterRead(old(View()))
      ensures post == old(stored)
      ensures post.Some? ==> refreshPromise == Posting(post.value) && stored == post && waiting == old(waiting)
      ensures post.None? ==> refreshPromise.NoFlight? && waiting == 0 && forcedLogouts == old(forcedLogouts) + 1
    {
      post := stored;
      if stored.Some? {
        refreshPromise := Posting(stored.value);
      } else {
        HandleUnrecoverableAuthFailure();
      }
    }

    /** `performRefresh` once the server has answered, up to the promise settling. */
    method ContinueWithAnswer()
      requires refreshPromise.Answered?
      modifies this
      ensures View() == AfterAnswer(old(View()))
      ensures refreshPromise.NoFlight? && waiting == 0
      ensures match old(refreshPromise).answer
              case Ok(token) => stored == Some(token) && forcedLogouts == old(forcedLogouts)
              case Err(_) => stored.None? && forcedLogouts == old(forcedLogouts) + 1
    {
      if refreshPromise.answer.Ok? {
        stored := Some(refreshPromise.answer.value);
        refreshPromise, waiting := NoFlight, 0;
      } else {
        HandleUnrecoverableAuthFailure();
      }
    }

    method ContinueWithNetworkError()
      requires refreshPromise.Posting?
      modifies this
      ensures View() == AfterNetworkError(old(View()))
      ensures stored == old(stored) && forcedLogouts == old(forcedLogouts) && refreshPromise.NoFlight? && waiting == 0
    {
      refreshPromise, waiting := NoFlight, 0;
    }

    method HandleUnrecoverableAuthFailure()
      modifies this
      ensures View() == GivenUp(old(View()))
      ensures stored.None? && refreshPromise.NoFlight? && waiting == 0 && forcedLogouts == old(forcedLogouts) + 1
    {
      stored := None;
      forcedLogouts := forcedLogouts + 1;
      refreshPromise, waiting := NoFlight, 0;
    }
  }

  /** Why the guard matters: the same token posted twice logs its owner out everywhere, the
      token just granted included. */
  lemma {:induction false} OverlappingRefreshesBurnTheFamily(tokens: seq<Token>, id: Id, now: int, later: int)
    requires id < |tokens| && Decide(tokens[id], now) == Rotate
    ensures var once := Refreshed(tokens, id, now);
            && id < |once| && Decide(once[id], later) == Reuse
            && LiveOf(once, tokens[id].person) != {}
            && LiveOf(Refreshed(once, id, later), tokens[id].person) == {}
  {
    assert |tokens| in LiveOf(Refreshed(tokens, id, now), tokens[id].person);
  }
}
