/** A browser talking to the refresh endpoint: one refresh in flight at a time, always presenting
    the latest token it received, on a network that may lose requests and answers and may deliver
    a request long after the browser gave it up. */
module RefreshClient {
  import opened Options
  import opened RefreshTokens

  /** The single-flight promise: nothing in flight, a request on the wire, or an answer on the wire,
      given by the server at the instant `at`. */
  datatype Flight = Idle | Sent | Answered(outcome: Outcome, at: int)

  /** `rotatedAt` remembers when the server first rotated the token the client now holds; `stray`
      lists the tokens of requests that were given up and may still reach the server; `issuedAt`
      remembers when the server issued the token the client now holds. */
  datatype World = World(rows: Table, cookie: nat, flight: Flight, rotatedAt: Option<int>, stray: seq<nat>,
                         issuedAt: int)

  datatype Event =
    | Call                                             // some caller needs a fresh access token
    | Arrive(now: int, userActive: bool)               // the server executes the request
    | TurnAway                                         // the rate limit answers in place of the server
    | Deliver                                          // the answer reaches the client
    | Lose                                             // the client gives up its request, or the answer is lost
    | ArriveLate(k: nat, now: int, userActive: bool)   // a request given up earlier reaches the server
    | Other(step: Step)                                // any other traffic at the server

  function Next(cfg: Config, agent: Option<string>, w: World, e: Event): World {
    match e
    case Call => if w.flight.Idle? then w.(flight := Sent) else w
    case Arrive(now, userActive) =>
      if !w.flight.Sent? then w
      else
        var (rows, outcome) := Presented(cfg, w.rows, w.cookie, agent, now, userActive);
        w.(rows := rows, flight := Answered(outcome, now), rotatedAt := FirstRotation(w, w.cookie, outcome, now))
    case TurnAway => if w.flight.Sent? then w.(flight := Idle) else w
    case Deliver =>
      if !w.flight.Answered? then w
      else if w.flight.outcome.Issued? then
        w.(cookie := w.flight.outcome.session, flight := Idle, rotatedAt := None, issuedAt := w.flight.at)
      else w.(flight := Idle)
    case Lose => w.(flight := Idle, stray := if w.flight.Sent? then w.stray + [w.cookie] else w.stray)
    case ArriveLate(k, now, userActive) =>
      if k >= |w.stray| then w
      else
        var (rows, outcome) := Presented(cfg, w.rows, w.stray[k], agent, now, userActive);
        w.(rows := rows, rotatedAt := FirstRotation(w, w.stray[k], outcome, now),
           stray := w.stray[..k] + w.stray[k + 1..])
    case Other(step) => w.(rows := Apply(cfg, w.rows, step))
  }

  /** When the client's token was first rotated, after `token` has been presented. */
  function FirstRotation(w: World, token: nat, outcome: Outcome, now: int): Option<int> {
    if token == w.cookie && outcome.Issued? && w.rotatedAt.None? then Some(now) else w.rotatedAt
  }

  predicate WithinGrace(cfg: Config, w: World, now: int) {
    w.rotatedAt.Some? ==> now - w.rotatedAt.value <= cfg.reuseGrace
  }

  /** The client and its surroundings as the single-flight design intends them: a token is
      retried only within the grace of its first rotation, and nobody else presents a token of
      this client's family. Logouts and revocations, also of this family, may come at any time. */
  predicate Admissible(cfg: Config, w: World, e: Event)
    requires w.cookie < |w.rows|
  {
    match e
    case Arrive(now, _) => w.flight.Sent? ==> WithinGrace(cfg, w, now)
    case Other(step) =>
      step.Present? && step.token < |w.rows| ==> w.rows[step.token].family != w.rows[w.cookie].family
    case _ => true
  }

  /** A late request does no harm when it carries the token the client still holds, within the grace
      of that token, or when it is turned away before it changes anything: its token is expired or
      its user inactive, and it would otherwise have been taken for a retry. */
  predicate LateRequestIsHarmless(cfg: Config, agent: Option<string>, w: World, token: nat, now: int, userActive: bool)
    requires token < |w.rows|
  {
    || (token == w.cookie && WithinGrace(cfg, w, now))
    || (UnusedSuccessor(cfg, w.rows, token, agent, now).Some? && (w.rows[token].expiresAt <= now || !userActive))
  }

  /** What the network may do to a living family without harm: late requests as above, and answers
      that no late request has overtaken. */
  ghost predicate Harmless(cfg: Config, agent: Option<string>, w: World, e: Event)
    requires w.cookie < |w.rows|
  {
    Dead(w.rows, w.rows[w.cookie].family) ||
    match e
    case ArriveLate(k, now, userActive) =>
      k < |w.stray| && w.stray[k] < |w.rows| ==> LateRequestIsHarmless(cfg, agent, w, w.stray[k], now, userActive)
    case Deliver =>
      w.flight.Answered? && w.flight.outcome.Issued? && w.flight.outcome.session < |w.rows| ==>
        w.rows[w.flight.outcome.session].revokedAt.None?
    case _ => true
  }

  predicate Unflagged(rows: Table, family: nat) {
    forall i :: 0 <= i < |rows| && rows[i].family == family ==> rows[i].reuseDetectedAt.None?
  }

  /** The client is not taken for a thief: no session of its family is marked, and while the family
      lives its next request, in time, raises no alarm. */
  ghost predicate Safe(cfg: Config, agent: Option<string>, w: World) {
    && w.cookie < |w.rows| && Unflagged(w.rows, w.rows[w.cookie].family)
    && (Dead(w.rows, w.rows[w.cookie].family) ||
        forall now, userActive {:trigger Presented(cfg, w.rows, w.cookie, agent, now, userActive)} ::
          WithinGrace(cfg, w, now) ==> Presented(cfg, w.rows, w.cookie, agent, now, userActive).1 != ReuseAlarm)
  }

  // ---------------------------------------------------------------- the invariant

  /** The client's token is open, or was rotated and its latest successor is open. */
  ghost predicate Usable(w: World)
    requires w.cookie < |w.rows|
  {
    var s := w.rows[w.cookie];
    if s.revokedAt.None? then w.rotatedAt.None?
    else s.revokedAt == w.rotatedAt && s.replacedBy.Some? && s.replacedBy.value < |w.rows|
         && OpenIn(w.rows[s.replacedBy.value], s.family)
  }

  /** An answer on the wire names a later session of the family that was never presented. */
  ghost predicate AnswerFits(cfg: Config, w: World, agent: Option<string>)
    requires w.cookie < |w.rows|
  {
    w.flight.Answered? && w.flight.outcome.Issued? ==>
      var s, n := w.rows[w.cookie], w.flight.outcome.session;
      && w.cookie < n < |w.rows| && w.rows[n].family == s.family && w.rows[n].userAgent == agent
      && w.rows[n].expiresAt == w.flight.at + cfg.refreshTtl
      && (Dead(w.rows, s.family) || (w.rows[n].replacedBy.None? && s.revokedAt.Some?))
  }

  /** Requests given up carry the client's token or earlier ones of its family. */
  ghost predicate StrayFits(w: World)
    requires w.cookie < |w.rows|
  {
    forall x :: x in w.stray ==> x <= w.cookie && w.rows[x].family == w.rows[w.cookie].family
  }

  ghost predicate Honest(cfg: Config, w: World, agent: Option<string>) {
    && Valid(w.rows) && w.cookie < |w.rows| && w.rows[w.cookie].userAgent == agent
    && w.rows[w.cookie].expiresAt == w.issuedAt + cfg.refreshTtl
    && Unflagged(w.rows, w.rows[w.cookie].family)
    && (Dead(w.rows, w.rows[w.cookie].family) || Usable(w))
    && AnswerFits(cfg, w, agent) && StrayFits(w)
  }

  /** A presentation of the client's token raises no alarm while its family lives, and is accepted
      exactly while less than the configured time has passed since it was issued and the user is
      active. */
  lemma HonestPresentation(cfg: Config, agent: Option<string>, w: World, now: int, userActive: bool)
    requires 0 < cfg.reuseGrace && Honest(cfg, w, agent) && WithinGrace(cfg, w, now)
    requires !Dead(w.rows, w.rows[w.cookie].family)
    ensures var outcome := Presented(cfg, w.rows, w.cookie, agent, now, userActive).1;
            outcome == if now < w.issuedAt + cfg.refreshTtl && userActive then Issued(|w.rows|) else Refused
  {}

  lemma HonestIsSafe(cfg: Config, agent: Option<string>, w: World)
    requires 0 < cfg.reuseGrace && Honest(cfg, w, agent)
    ensures Safe(cfg, agent, w)
  {
    if !Dead(w.rows, w.rows[w.cookie].family) {
      forall now, userActive | WithinGrace(cfg, w, now)
        ensures Presented(cfg, w.rows, w.cookie, agent, now, userActive).1 != ReuseAlarm
      {
        HonestPresentation(cfg, agent, w, now, userActive);
      }
    }
  }

  /** A token of a dead family is presented in vain: the table stays as it is. */
  lemma DeadFamilyIsLeftAlone(cfg: Config, rows: Table, token: nat, agent: Option<string>, now: int, userActive: bool)
    requires Valid(rows) && token < |rows| && Dead(rows, rows[token].family)
    ensures Presented(cfg, rows, token, agent, now, userActive) == (rows, ReuseAlarm)
  {
    DeadFamilyIsRefused(cfg, rows, token, agent, now, userActive);
    var after := Presented(cfg, rows, token, agent, now, userActive).0;
    assert after == rows by {
      forall i | 0 <= i < |rows| ensures after[i] == rows[i] { assert !OpenIn(rows[i], rows[token].family); }
    }
  }

  /** What presenting the client's token in time does to a living family. */
  lemma CookiePresented(cfg: Config, agent: Option<string>, w: World, now: int, userActive: bool, after: World)
    requires 0 < cfg.reuseGrace && Honest(cfg, w, agent) && WithinGrace(cfg, w, now)
    requires !Dead(w.rows, w.rows[w.cookie].family)
    requires var (rows, outcome) := Presented(cfg, w.rows, w.cookie, agent, now, userActive);
             && after.rows == rows && after.cookie == w.cookie && after.issuedAt == w.issuedAt
             && after.rotatedAt == FirstRotation(w, w.cookie, outcome, now)
             && (after.flight == w.flight || after.flight == Answered(outcome, now))
    requires forall x :: x in after.stray ==> x in w.stray
    ensures Honest(cfg, after, agent)
  {
    var family := w.rows[w.cookie].family;
    StepKeepsValid(cfg, w.rows, Present(w.cookie, agent, now, userActive));
    StepExtends(cfg, w.rows, Present(w.cookie, agent, now, userActive));
    HonestPresentation(cfg, agent, w, now, userActive);
    assert RowKept(w.rows, after.rows, w.cookie);
    if Presented(cfg, w.rows, w.cookie, agent, now, userActive).1.Issued? {
      var n := |w.rows|;
      assert OpenIn(after.rows[n], family);
      assert after.rows[w.cookie].replacedBy == Some(n) && after.rows[w.cookie].revokedAt.Some?;
    }
    forall x | x in after.stray ensures x <= w.cookie && after.rows[x].family == family {
      assert RowKept(w.rows, after.rows, x);
    }
  }

  lemma ArriveKeepsHonest(cfg: Config, agent: Option<string>, w: World, now: int, userActive: bool)
    requires 0 < cfg.reuseGrace && Honest(cfg, w, agent) && Admissible(cfg, w, Arrive(now, userActive))
    requires w.flight.Sent?
    ensures Honest(cfg, Next(cfg, agent, w, Arrive(now, userActive)), agent)
  {
    if Dead(w.rows, w.rows[w.cookie].family) {
      DeadFamilyIsLeftAlone(cfg, w.rows, w.cookie, agent, now, userActive);
    } else {
      CookiePresented(cfg, agent, w, now, userActive, Next(cfg, agent, w, Arrive(now, userActive)));
    }
  }

  lemma LateKeepsHonest(cfg: Config, agent: Option<string>, w: World, k: nat, now: int, userActive: bool)
    requires 0 < cfg.reuseGrace && Honest(cfg, w, agent) && k < |w.stray|
    requires Harmless(cfg, agent, w, ArriveLate(k, now, userActive))
    ensures Honest(cfg, Next(cfg, agent, w, ArriveLate(k, now, userActive)), agent)
  {
    var x, after := w.stray[k], Next(cfg, agent, w, ArriveLate(k, now, userActive));
    assert x in w.stray && forall y :: y in after.stray ==> y in w.stray;
    if Dead(w.rows, w.rows[w.cookie].family) {
      DeadFamilyIsLeftAlone(cfg, w.rows, x, agent, now, userActive);
    } else if x == w.cookie && WithinGrace(cfg, w, now) {
      CookiePresented(cfg, agent, w, now, userActive, after);
    }
  }

  /** Traffic that presents no token of a family keeps its rows, or closes all of them. */
  lemma OtherTraffic(cfg: Config, rows: Table, step: Step, family: nat)
    requires Valid(rows) && family < |rows| && rows[family].family == family
    requires step.Present? && step.token < |rows| ==> rows[step.token].family != family
    ensures Unflagged(rows, family) ==> Unflagged(Apply(cfg, rows, step), family)
    ensures Dead(Apply(cfg, rows, step), family)
         || forall i :: 0 <= i < |rows| && rows[i].family == family ==> Apply(cfg, rows, step)[i] == rows[i]
  {
    var after := Apply(cfg, rows, step);
    if step.Present? && step.token < |rows| {
      assert WellLinked(rows, step.token) && Rooted(rows, step.token);
    }
    if step.RevokeAll? && step.user == rows[family].user {
      FamilyIsKilled(cfg, rows, step, family);
    } else if step.Logout? && step.token < |rows| && rows[step.token].family == family {
      FamilyIsKilled(cfg, rows, step, step.token);
    } else {
      forall i | 0 <= i < |rows| && rows[i].family == family ensures after[i] == rows[i] {
        assert Rooted(rows, i);
      }
    }
  }

  lemma OtherKeepsHonest(cfg: Config, agent: Option<string>, w: World, step: Step)
    requires Honest(cfg, w, agent) && Admissible(cfg, w, Other(step))
    ensures Honest(cfg, Next(cfg, agent, w, Other(step)), agent)
  {
    var after, family := Apply(cfg, w.rows, step), w.rows[w.cookie].family;
    assert Rooted(w.rows, w.cookie);
    StepKeepsValid(cfg, w.rows, step);
    StepExtends(cfg, w.rows, step);
    assert RowKept(w.rows, after, w.cookie);
    OtherTraffic(cfg, w.rows, step, family);
    if w.flight.Answered? && w.flight.outcome.Issued? {
      assert RowKept(w.rows, after, w.flight.outcome.session);
    }
    forall x | x in w.stray ensures after[x].family == family {
      assert RowKept(w.rows, after, x);
    }
    if Dead(w.rows, family) {
      DeadAfterStep(cfg, w.rows, step, family);
    }
  }

  lemma DeliverKeepsHonest(cfg: Config, agent: Option<string>, w: World)
    requires Honest(cfg, w, agent) && Harmless(cfg, agent, w, Deliver)
    ensures Honest(cfg, Next(cfg, agent, w, Deliver), agent)
  {
    if w.flight.Answered? && w.flight.outcome.Issued? {
      var after := Next(cfg, agent, w, Deliver);
      assert after.rows[after.cookie].family == w.rows[w.cookie].family;
    }
  }

  lemma NextKeepsHonest(cfg: Config, agent: Option<string>, w: World, e: Event)
    requires 0 < cfg.reuseGrace && Honest(cfg, w, agent) && Admissible(cfg, w, e) && Harmless(cfg, agent, w, e)
    ensures Honest(cfg, Next(cfg, agent, w, e), agent)
  {
    match e
    case Call =>
    case Arrive(now, userActive) =>
      if w.flight.Sent? { ArriveKeepsHonest(cfg, agent, w, now, userActive); }
    case TurnAway =>
    case Deliver => DeliverKeepsHonest(cfg, agent, w);
    case Lose =>
    case ArriveLate(k, now, userActive) =>
      if k < |w.stray| { LateKeepsHonest(cfg, agent, w, k, now, userActive); }
    case Other(step) => OtherKeepsHonest(cfg, agent, w, step);
  }

  // ---------------------------------------------------------------- harm

  /** The alarm marks a living family. */
  lemma AlarmMarks(cfg: Config, rows: Table, token: nat, agent: Option<string>, now: int, userActive: bool)
    requires token < |rows| && !Dead(rows, rows[token].family)
    requires Presented(cfg, rows, token, agent, now, userActive).1 == ReuseAlarm
    ensures !Unflagged(Presented(cfg, rows, token, agent, now, userActive).0, rows[token].family)
  {
    var i :| 0 <= i < |rows| && OpenIn(rows[i], rows[token].family);
    var after := FamilyRevoked(rows, rows[token].family, now, true);
    assert after[i].reuseDetectedAt == Some(now) && after[i].family == rows[token].family;
  }

  /** A token before the client's is revoked. */
  lemma EarlierTokenIsRevoked(cfg: Config, w: World, agent: Option<string>, x: nat)
    requires Honest(cfg, w, agent) && !Dead(w.rows, w.rows[w.cookie].family)
    requires x < w.cookie && w.rows[x].family == w.rows[w.cookie].family
    ensures w.rows[x].revokedAt.Some?
  {
    var c := w.cookie;
    assert NotBothOpen(w.rows, x, c);
    if w.rows[c].revokedAt.Some? {
      assert WellLinked(w.rows, c) && NotBothOpen(w.rows, x, w.rows[c].replacedBy.value);
    }
  }

  /** A request for an earlier token that is taken for a retry closes the session the client
      depends on: the client's next request is taken for theft. */
  lemma LateRetryHarms(cfg: Config, agent: Option<string>, w: World, x: nat, now: int, rows: Table, t: int,
                       active: bool)
    requires Honest(cfg, w, agent) && !Dead(w.rows, w.rows[w.cookie].family)
    requires x < w.cookie && w.rows[x].family == w.rows[w.cookie].family
    requires Presented(cfg, w.rows, x, agent, now, true) == (rows, Issued(|w.rows|))
    ensures w.cookie < |rows| && rows[w.cookie].family == w.rows[w.cookie].family
    ensures !Dead(rows, w.rows[w.cookie].family)
    ensures Presented(cfg, rows, w.cookie, agent, t, active).1 == ReuseAlarm
  {
    EarlierTokenIsRevoked(cfg, w, agent, x);
    var c, o := w.cookie, UnusedSuccessor(cfg, w.rows, x, agent, now).value;
    assert WellLinked(w.rows, x) && WellLinked(w.rows, c);
    assert OpenIn(rows[|w.rows|], w.rows[c].family);
    OnlyOpenSession(w.rows, o);
    if w.rows[c].revokedAt.None? {
      assert o == c;
    } else {
      assert o == w.rows[c].replacedBy.value;
    }
  }

  lemma LateRequestHarms(cfg: Config, agent: Option<string>, w: World, k: nat, now: int, userActive: bool)
    requires 0 < cfg.reuseGrace && Honest(cfg, w, agent) && k < |w.stray|
    requires !Harmless(cfg, agent, w, ArriveLate(k, now, userActive))
    ensures !Safe(cfg, agent, Next(cfg, agent, w, ArriveLate(k, now, userActive)))
  {
    var x, after := w.stray[k], Next(cfg, agent, w, ArriveLate(k, now, userActive));
    var family := w.rows[w.cookie].family;
    assert x in w.stray;
    StepExtends(cfg, w.rows, Present(x, agent, now, userActive));
    assert RowKept(w.rows, after.rows, w.cookie);
    if x < w.cookie { EarlierTokenIsRevoked(cfg, w, agent, x); }
    if UnusedSuccessor(cfg, w.rows, x, agent, now).None? {
      AlarmMarks(cfg, w.rows, x, agent, now, userActive);
    } else {
      assert x < w.cookie;
      var t := if w.rotatedAt.Some? then w.rotatedAt.value else 0;
      LateRetryHarms(cfg, agent, w, x, now, after.rows, t, true);
      assert WithinGrace(cfg, after, t);
    }
  }

  lemma OvertakenAnswerHarms(cfg: Config, agent: Option<string>, w: World)
    requires Honest(cfg, w, agent) && !Harmless(cfg, agent, w, Deliver)
    ensures !Safe(cfg, agent, Next(cfg, agent, w, Deliver))
  {
    var after := Next(cfg, agent, w, Deliver);
    assert WithinGrace(cfg, after, 0);
    assert Presented(cfg, after.rows, after.cookie, agent, 0, true).1 == ReuseAlarm;
  }

  /** Exactly the harmless events leave an honest client safe. */
  lemma SafeIffHarmless(cfg: Config, agent: Option<string>, w: World, e: Event)
    requires 0 < cfg.reuseGrace && Honest(cfg, w, agent) && Admissible(cfg, w, e)
    ensures Safe(cfg, agent, Next(cfg, agent, w, e)) <==> Harmless(cfg, agent, w, e)
  {
    if Harmless(cfg, agent, w, e) {
      NextKeepsHonest(cfg, agent, w, e);
      HonestIsSafe(cfg, agent, Next(cfg, agent, w, e));
    } else if e.ArriveLate? {
      LateRequestHarms(cfg, agent, w, e.k, e.now, e.userActive);
    } else {
      OvertakenAnswerHarms(cfg, agent, w);
    }
  }

  /** Only other traffic can close the family: the client's own events leave a living family alive. */
  lemma OwnEventsKeepFamilyAlive(cfg: Config, agent: Option<string>, w: World, e: Event)
    requires 0 < cfg.reuseGrace && Honest(cfg, w, agent) && Admissible(cfg, w, e) && !e.Other? && !e.ArriveLate?
    requires !Dead(w.rows, w.rows[w.cookie].family)
    ensures var after := Next(cfg, agent, w, e);
            after.cookie < |after.rows| && after.rows[after.cookie].family == w.rows[w.cookie].family
            && !Dead(after.rows, w.rows[w.cookie].family)
  {
    if e.Arrive? && w.flight.Sent? {
      HonestPresentation(cfg, agent, w, e.now, e.userActive);
      var after := Next(cfg, agent, w, e);
      if |after.rows| > |w.rows| {
        assert OpenIn(after.rows[|w.rows|], w.rows[w.cookie].family);
      }
    }
  }

  // ---------------------------------------------------------------- the browser

  /** How a fetch ends: with a session, with an OK answer whose body does not parse, with an error
      answer, of the server or of the rate limit before it, or without an answer. The cookie of an OK
      answer is set whatever its body. */
  datatype Ending = Session(token: nat) | Unreadable(token: nat) | NotOk | Failed

  /** The browser side of the single-flight refresh. */
  class ApiClient {
    var accessToken: Option<nat>
    var refreshInFlight: bool

    constructor ()
      ensures accessToken == None && !refreshInFlight
    {
      accessToken := None;
      refreshInFlight := false;
    }

    /** Every caller waits for the one refresh in flight; only the caller that finds none sends. */
    method RefreshSession(ghost cfg: Config, ghost agent: Option<string>, ghost w: World) returns (sends: bool)
      requires refreshInFlight == !w.flight.Idle?
      modifies this`refreshInFlight
      ensures sends <==> w.flight != Next(cfg, agent, w, Call).flight
      ensures refreshInFlight == !Next(cfg, agent, w, Call).flight.Idle?
    {
      sends := !refreshInFlight;
      refreshInFlight := true;
    }

    /** The fetch ends; the callers get a session exactly when there is one to read. */
    method Settle(e: Ending, ghost cfg: Config, ghost agent: Option<string>, ghost w: World) returns (restored: bool)
      requires e.Session? || e.Unreadable? ==> w.flight.Answered? && w.flight.outcome == Issued(e.token)
      requires e.NotOk? ==> w.flight.Sent? || (w.flight.Answered? && !w.flight.outcome.Issued?)
      modifies this
      ensures var after := Next(cfg, agent, w, if e.Failed? then Lose else if w.flight.Sent? then TurnAway
                                else Deliver);
              refreshInFlight == !after.flight.Idle?
              && after.cookie == if e.Session? || e.Unreadable? then e.token else w.cookie
      ensures restored == e.Session?
      ensures accessToken == if e.Session? then Some(e.token) else old(accessToken)
    {
      restored := false;
      match e {
        case Session(token) =>
          accessToken := Some(token);
          restored := true;
        case _ =>
      }
      refreshInFlight := false;
    }
  }

  // ---------------------------------------------------------------- runs

  /** The world after the first `n` events. */
  function After(cfg: Config, agent: Option<string>, w: World, events: seq<Event>, n: nat): World
    requires n <= |events|
  {
    if n == 0 then w else Next(cfg, agent, After(cfg, agent, w, events, n - 1), events[n - 1])
  }

  ghost predicate AdmissibleAt(cfg: Config, agent: Option<string>, w: World, events: seq<Event>, i: nat)
    requires i < |events|
  {
    var before := After(cfg, agent, w, events, i);
    before.cookie < |before.rows| && Admissible(cfg, before, events[i])
  }

  ghost predicate AdmissibleRun(cfg: Config, agent: Option<string>, w: World, events: seq<Event>) {
    forall i {:trigger AdmissibleAt(cfg, agent, w, events, i)} :: 0 <= i < |events| ==>
      AdmissibleAt(cfg, agent, w, events, i)
  }

  ghost predicate HarmlessAt(cfg: Config, agent: Option<string>, w: World, events: seq<Event>, i: nat)
    requires i < |events|
  {
    var before := After(cfg, agent, w, events, i);
    before.cookie < |before.rows| && Harmless(cfg, agent, before, events[i])
  }

  ghost predicate HarmlessUpTo(cfg: Config, agent: Option<string>, w: World, events: seq<Event>, n: nat)
    requires n <= |events|
  {
    forall i {:trigger HarmlessAt(cfg, agent, w, events, i)} :: 0 <= i < n ==> HarmlessAt(cfg, agent, w, events, i)
  }

  ghost predicate SafeAt(cfg: Config, agent: Option<string>, w: World, events: seq<Event>, i: nat)
    requires i <= |events|
  {
    Safe(cfg, agent, After(cfg, agent, w, events, i))
  }

  lemma {:induction false} RunKeepsHonest(cfg: Config, agent: Option<string>, w: World, events: seq<Event>, n: nat)
    requires n <= |events| && 0 < cfg.reuseGrace && Honest(cfg, w, agent)
    requires AdmissibleRun(cfg, agent, w, events) && HarmlessUpTo(cfg, agent, w, events, n)
    ensures Honest(cfg, After(cfg, agent, w, events, n), agent)
  {
    if n > 0 {
      RunKeepsHonest(cfg, agent, w, events, n - 1);
      assert AdmissibleAt(cfg, agent, w, events, n - 1) && HarmlessAt(cfg, agent, w, events, n - 1);
      NextKeepsHonest(cfg, agent, After(cfg, agent, w, events, n - 1), events[n - 1]);
    }
  }

  /** The first harmful event of a run leaves the client unsafe. */
  lemma {:induction false} HarmShows(cfg: Config, agent: Option<string>, w: World, events: seq<Event>, n: nat)
    requires n <= |events| && 0 < cfg.reuseGrace && Honest(cfg, w, agent) && AdmissibleRun(cfg, agent, w, events)
    requires !HarmlessUpTo(cfg, agent, w, events, n)
    ensures exists i {:trigger SafeAt(cfg, agent, w, events, i)} :: 0 <= i <= n && !SafeAt(cfg, agent, w, events, i)
  {
    if n > 0 {
      if HarmlessUpTo(cfg, agent, w, events, n - 1) {
        RunKeepsHonest(cfg, agent, w, events, n - 1);
        assert AdmissibleAt(cfg, agent, w, events, n - 1) && !HarmlessAt(cfg, agent, w, events, n - 1);
        SafeIffHarmless(cfg, agent, After(cfg, agent, w, events, n - 1), events[n - 1]);
        assert !SafeAt(cfg, agent, w, events, n);
      } else {
        HarmShows(cfg, agent, w, events, n - 1);
      }
    }
  }

  /** The world of a client that has just logged in. */
  function LoggedIn(cfg: Config, rows: Table, user: nat, agent: Option<string>, now: int): World {
    World(Started(cfg, rows, user, agent, now), |rows|, Idle, None, [], now)
  }

  lemma LoginIsHonest(cfg: Config, rows: Table, user: nat, agent: Option<string>, now: int)
    requires Valid(rows) && (agent.None? || 1 <= |agent.value| <= 400)
    ensures Honest(cfg, LoggedIn(cfg, rows, user, agent, now), agent)
  {
    var w := LoggedIn(cfg, rows, user, agent, now);
    NormalizedAgentFixpoint(agent);
    LoginKeepsValid(cfg, rows, user, agent, now);
    forall i | 0 <= i < |rows| ensures w.rows[i].family != |rows| {
      assert Rooted(rows, i);
    }
  }

  /** The exact condition: throughout a run the client is never taken for a thief exactly when the
      network does no harm, that is, when no request that was given up reaches the server after a
      later token has reached the client, or after the grace, unless it is turned away unexamined,
      and no answer is delivered that such a request has overtaken. */
  lemma NeverFlaggedIff(cfg: Config, rows: Table, user: nat, agent: Option<string>, login: int, events: seq<Event>)
    requires 0 < cfg.reuseGrace && Valid(rows) && (agent.None? || 1 <= |agent.value| <= 400)
    requires AdmissibleRun(cfg, agent, LoggedIn(cfg, rows, user, agent, login), events)
    ensures var start := LoggedIn(cfg, rows, user, agent, login);
            (forall i {:trigger SafeAt(cfg, agent, start, events, i)} ::
               0 <= i <= |events| ==> SafeAt(cfg, agent, start, events, i))
            <==> HarmlessUpTo(cfg, agent, start, events, |events|)
  {
    var start := LoggedIn(cfg, rows, user, agent, login);
    LoginIsHonest(cfg, rows, user, agent, login);
    if HarmlessUpTo(cfg, agent, start, events, |events|) {
      forall i {:trigger SafeAt(cfg, agent, start, events, i)} | 0 <= i <= |events|
        ensures SafeAt(cfg, agent, start, events, i)
      {
        RunKeepsHonest(cfg, agent, start, events, i);
        HonestIsSafe(cfg, agent, After(cfg, agent, start, events, i));
      }
    } else {
      HarmShows(cfg, agent, start, events, |events|);
    }
  }

  /** Without late arrivals an answer on the wire is not overtaken. */
  lemma NotOvertaken(cfg: Config, agent: Option<string>, w: World, e: Event)
    requires 0 < cfg.reuseGrace && Honest(cfg, w, agent) && Admissible(cfg, w, e)
    requires Harmless(cfg, agent, w, Deliver) && !e.ArriveLate?
    ensures Honest(cfg, Next(cfg, agent, w, e), agent) && Harmless(cfg, agent, Next(cfg, agent, w, e), Deliver)
  {
    assert Harmless(cfg, agent, w, e);
    NextKeepsHonest(cfg, agent, w, e);
    var after, family := Next(cfg, agent, w, e), w.rows[w.cookie].family;
    if e.Other? {
      assert Rooted(w.rows, w.cookie);
      StepExtends(cfg, w.rows, e.step);
      assert RowKept(w.rows, after.rows, w.cookie);
      OtherTraffic(cfg, w.rows, e.step, family);
      if Dead(w.rows, family) { DeadAfterStep(cfg, w.rows, e.step, family); }
    } else if e.Arrive? && w.flight.Sent? && Dead(w.rows, family) {
      DeadFamilyIsLeftAlone(cfg, w.rows, w.cookie, agent, e.now, e.userActive);
    }
  }

  /** A network that only loses requests and answers does no harm. */
  lemma {:induction false} LossIsHarmless(cfg: Config, agent: Option<string>, w: World, events: seq<Event>, n: nat)
    requires n <= |events| && 0 < cfg.reuseGrace && Honest(cfg, w, agent) && w.flight.Idle?
    requires AdmissibleRun(cfg, agent, w, events) && forall i :: 0 <= i < n ==> !events[i].ArriveLate?
    ensures HarmlessUpTo(cfg, agent, w, events, n)
    ensures Honest(cfg, After(cfg, agent, w, events, n), agent)
    ensures Harmless(cfg, agent, After(cfg, agent, w, events, n), Deliver)
  {
    if n > 0 {
      LossIsHarmless(cfg, agent, w, events, n - 1);
      var before := After(cfg, agent, w, events, n - 1);
      assert AdmissibleAt(cfg, agent, w, events, n - 1);
      NotOvertaken(cfg, agent, before, events[n - 1]);
      assert HarmlessAt(cfg, agent, w, events, n - 1);
    }
  }

  /** An honest client is never flagged as a thief, in any run that the network does not harm: no
      session of its family is ever marked for reuse; its requests raise the alarm only after a
      logout or a revocation has closed the family, and are otherwise answered with a new token
      exactly while less than the configured time has passed since the server issued the token it holds
      and the user is active. */
  lemma HonestClientIsNeverFlagged(cfg: Config, rows: Table, user: nat, agent: Option<string>, login: int,
                                   events: seq<Event>, now: int, userActive: bool)
    requires 0 < cfg.reuseGrace && Valid(rows) && (agent.None? || 1 <= |agent.value| <= 400)
    requires var start := LoggedIn(cfg, rows, user, agent, login);
             AdmissibleRun(cfg, agent, start, events) && HarmlessUpTo(cfg, agent, start, events, |events|)
    ensures var w := After(cfg, agent, LoggedIn(cfg, rows, user, agent, login), events, |events|);
            && w.cookie < |w.rows|
            && Unflagged(w.rows, w.rows[w.cookie].family)
            && (WithinGrace(cfg, w, now) && !Dead(w.rows, w.rows[w.cookie].family) ==>
                  Presented(cfg, w.rows, w.cookie, agent, now, userActive).1
                  == if now < w.issuedAt + cfg.refreshTtl && userActive then Issued(|w.rows|) else Refused)
  {
    LoginIsHonest(cfg, rows, user, agent, login);
    var start := LoggedIn(cfg, rows, user, agent, login);
    RunKeepsHonest(cfg, agent, start, events, |events|);
    var w := After(cfg, agent, start, events, |events|);
    if WithinGrace(cfg, w, now) && !Dead(w.rows, w.rows[w.cookie].family) {
      HonestPresentation(cfg, agent, w, now, userActive);
    }
  }

  /** Concretely: a request is given up, the same token is rotated by the next one, and then the
      first arrives, within the grace. The browser's next refresh is taken for theft. */
  lemma LateRequestIsTakenForTheft(cfg: Config, agent: Option<string>)
    requires cfg.reuseGrace >= 1 && cfg.refreshTtl > 3 && (agent.None? || 1 <= |agent.value| <= 400)
    ensures var start := LoggedIn(cfg, [], 0, agent, 0);
            var events := [Call, Lose, Call, Arrive(1, true), Deliver, ArriveLate(0, 2, true), Call, Arrive(3, true)];
            && AdmissibleRun(cfg, agent, start, events)
            && After(cfg, agent, start, events, 8).flight == Answered(ReuseAlarm, 3)
            && !Unflagged(After(cfg, agent, start, events, 8).rows, 0)
  {
    var start := LoggedIn(cfg, [], 0, agent, 0);
    var events := [Call, Lose, Call, Arrive(1, true), Deliver, ArriveLate(0, 2, true), Call, Arrive(3, true)];
    NormalizedAgentFixpoint(agent);
    var waiting := start.(flight := Sent, stray := [0]);
    assert After(cfg, agent, start, events, 0) == start;
    assert After(cfg, agent, start, events, 1) == start.(flight := Sent);
    assert After(cfg, agent, start, events, 2) == start.(stray := [0]);
    assert After(cfg, agent, start, events, 3) == waiting;
    var rotated := Rotated(cfg, start.rows, 0, 1);
    assert After(cfg, agent, start, events, 4) == World(rotated, 0, Answered(Issued(1), 1), Some(1), [0], 0);
    assert After(cfg, agent, start, events, 5) == World(rotated, 1, Idle, None, [0], 1);
    var closed := rotated[1 := rotated[1].(revokedAt := Some(2))];
    var retried := Rotated(cfg, closed, 0, 2);
    assert Presented(cfg, rotated, 0, agent, 2, true) == (retried, Issued(2));
    assert After(cfg, agent, start, events, 6) == World(retried, 1, Idle, None, [], 1);
    assert After(cfg, agent, start, events, 7) == World(retried, 1, Sent, None, [], 1);
    assert Presented(cfg, retried, 1, agent, 3, true) == (FamilyRevoked(retried, 0, 3, true), ReuseAlarm);
    assert FamilyRevoked(retried, 0, 3, true)[2].reuseDetectedAt == Some(3);
    forall i {:trigger AdmissibleAt(cfg, agent, start, events, i)} | 0 <= i < |events|
      ensures AdmissibleAt(cfg, agent, start, events, i)
    {
      assert i == 0 || i == 1 || i == 2 || i == 3 || i == 4 || i == 5 || i == 6 || i == 7;
    }
  }
}
