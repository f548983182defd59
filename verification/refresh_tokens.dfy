/** Refresh-token families: rotation, the grace-window retry, reuse detection, logout and
    global revocation. A session row is identified by its position in the table; the opaque
    token of a row is modelled by that position, so an unknown token is one past the end. */
module RefreshTokens {
  import opened Options

  datatype Session = Session(user: nat, family: nat, userAgent: Option<string>, expiresAt: int,
                             revokedAt: Option<int>, reuseDetectedAt: Option<int>, replacedBy: Option<nat>)

  type Table = seq<Session>

  datatype Config = Config(refreshTtl: int, reuseGrace: int)

  /** What presenting a token comes to; the last two raise the same error. */
  datatype Outcome = Issued(session: nat) | Refused | ReuseAlarm

  // ---------------------------------------------------------------- operations

  /** A user agent as it is stored: its first 400 characters; an empty one is absent. */
  function NormalizedAgent(agent: Option<string>): (r: Option<string>)
    ensures r.Some? <==> agent.Some? && |agent.value| > 0
    ensures r.Some? ==> r.value <= agent.value && |r.value| <= 400 && (|r.value| < 400 ==> r == agent)
  {
    if agent.None? || agent.value == "" then None
    else if |agent.value| > 400 then Some(agent.value[..400]) else agent
  }

  function Started(cfg: Config, rows: Table, user: nat, agent: Option<string>, now: int): Table {
    rows + [Session(user, |rows|, NormalizedAgent(agent), now + cfg.refreshTtl, None, None, None)]
  }

  function UnusedSuccessor(cfg: Config, rows: Table, id: nat, agent: Option<string>, now: int): Option<nat>
    requires id < |rows|
  {
    var s := rows[id];
    if cfg.reuseGrace <= 0 || s.replacedBy.None? || s.reuseDetectedAt.Some? || s.revokedAt.None?
       || now - s.revokedAt.value > cfg.reuseGrace || s.userAgent != agent then None
    else if s.replacedBy.value >= |rows| || rows[s.replacedBy.value].revokedAt.Some? then None
    else s.replacedBy
  }

  function RevokedRow(s: Session, now: int, reuse: bool): Session {
    s.(revokedAt := Some(now), reuseDetectedAt := if reuse then Some(now) else s.reuseDetectedAt)
  }

  predicate OpenIn(s: Session, family: nat) {
    s.family == family && s.revokedAt.None?
  }

  function FamilyRevoked(rows: Table, family: nat, now: int, reuse: bool): (r: Table)
    ensures |r| == |rows|
    ensures forall i :: 0 <= i < |rows| ==>
      if rows[i].family == family && rows[i].revokedAt.None? then
        && r[i].revokedAt == Some(now) && (reuse ==> r[i].reuseDetectedAt == Some(now))
        && r[i].(revokedAt := None, reuseDetectedAt := None) == rows[i].(reuseDetectedAt := None)
        && (!reuse ==> r[i].reuseDetectedAt == rows[i].reuseDetectedAt)
      else r[i] == rows[i]
  {
    seq(|rows|, i requires 0 <= i < |rows| =>
      if OpenIn(rows[i], family) then RevokedRow(rows[i], now, reuse) else rows[i])
  }

  /** Rotation proper: revoke `id` unless it was revoked before, and add its successor. */
  function Rotated(cfg: Config, rows: Table, id: nat, now: int): Table
    requires id < |rows|
  {
    var s := rows[id];
    var revokedAt := if s.revokedAt.None? then Some(now) else s.revokedAt;
    rows[id := s.(revokedAt := revokedAt, replacedBy := Some(|rows|))]
    + [Session(s.user, s.family, s.userAgent, now + cfg.refreshTtl, None, None, None)]
  }

  /** Present `token` at `now`. A raised error leaves the table as it was, except that reuse
      detection commits first. `userActive`: the user row exists and is active. */
  function Presented(cfg: Config, rows: Table, token: nat, agent: Option<string>, now: int, userActive: bool)
    : (Table, Outcome)
  {
    if token >= |rows| then (rows, Refused)
    else
      var s := rows[token];
      var successor := UnusedSuccessor(cfg, rows, token, agent, now);
      if s.revokedAt.Some? && successor.None? then (FamilyRevoked(rows, s.family, now, true), ReuseAlarm)
      else if s.expiresAt <= now || !userActive then (rows, Refused)
      else if s.revokedAt.Some? then
        (Rotated(cfg, rows[successor.value := rows[successor.value].(revokedAt := Some(now))], token, now),
         Issued(|rows|))
      else (Rotated(cfg, rows, token, now), Issued(|rows|))
  }

  function LoggedOut(rows: Table, token: nat, now: int): Table {
    if token < |rows| then FamilyRevoked(rows, rows[token].family, now, false) else rows
  }

  function UserRevoked(rows: Table, user: nat, now: int): (r: Table)
    ensures |r| == |rows|
    ensures forall i :: 0 <= i < |rows| ==>
      r[i] == if rows[i].user == user && rows[i].revokedAt.None? then rows[i].(revokedAt := Some(now)) else rows[i]
  {
    seq(|rows|, i requires 0 <= i < |rows| =>
      if rows[i].user == user && rows[i].revokedAt.None? then rows[i].(revokedAt := Some(now)) else rows[i])
  }

  /** May the successor of a rotated session be replaced by a retry? */
  predicate Retriable(cfg: Config, rows: Table, token: nat, agent: Option<string>, now: int)
    requires token < |rows|
  {
    var s := rows[token];
    && 0 < cfg.reuseGrace && s.revokedAt.Some? && now - s.revokedAt.value <= cfg.reuseGrace
    && s.reuseDetectedAt.None? && s.userAgent == agent
    && s.replacedBy.Some? && s.replacedBy.value < |rows| && rows[s.replacedBy.value].revokedAt.None?
  }

  /** Which answer a presentation gets: a new token for a token that is open or may be retried, in time
      and for an active user; the alarm for one that is revoked and may not be retried. */
  lemma AnsweredIff(cfg: Config, rows: Table, token: nat, agent: Option<string>, now: int, userActive: bool)
    ensures var outcome := Presented(cfg, rows, token, agent, now, userActive).1;
            && (outcome.Issued? <==> && token < |rows| && now < rows[token].expiresAt && userActive
                                     && (rows[token].revokedAt.None? || Retriable(cfg, rows, token, agent, now)))
            && (outcome == ReuseAlarm <==> && token < |rows| && rows[token].revokedAt.Some?
                                           && !Retriable(cfg, rows, token, agent, now))
            && (outcome.Issued? ==> outcome == Issued(|rows|))
  {}

  /** What a presentation leaves of the rows that were there: a refusal and a new token change no row but
      the presented one, now revoked and linked to the new one, and the successor that a retry replaces. */
  lemma RowsAfterPresentation(cfg: Config, rows: Table, token: nat, agent: Option<string>, now: int,
                              userActive: bool, i: nat)
    requires i < |rows|
    ensures var (after, outcome) := Presented(cfg, rows, token, agent, now, userActive);
            && |after| == |rows| + (if outcome.Issued? then 1 else 0)
            && (outcome == Refused ==> after[i] == rows[i])
            && (outcome.Issued? ==>
                  if i == token then
                    after[i] == rows[i].(replacedBy := Some(|rows|), revokedAt := after[i].revokedAt)
                    && after[i].revokedAt == (if rows[i].revokedAt.Some? then rows[i].revokedAt else Some(now))
                  else if rows[token].revokedAt.Some? && rows[token].replacedBy == Some(i) then
                    after[i] == rows[i].(revokedAt := Some(now))
                  else after[i] == rows[i])
  {}

  class IdentityService {
    const cfg: Config
    var sessions: Table

    constructor (cfg: Config)
      ensures this.cfg == cfg && sessions == []
    {
      this.cfg := cfg;
      sessions := [];
    }

    method StartSession(user: nat, agent: Option<string>, now: int) returns (token: nat)
      modifies this
      ensures sessions == Started(cfg, old(sessions), user, agent, now)
      ensures token == |old(sessions)|
    {
      token := |sessions|;
      var family := |sessions|;
      sessions := sessions + [Session(user, family, NormalizedAgent(agent), now + cfg.refreshTtl, None, None, None)];
    }

    method RevokeFamily(family: nat, now: int, reuse: bool)
      modifies this
      ensures sessions == FamilyRevoked(old(sessions), family, now, reuse)
    {
      for i := 0 to |sessions|
        invariant |sessions| == |old(sessions)|
        invariant forall j :: 0 <= j < i ==> sessions[j] == FamilyRevoked(old(sessions), family, now, reuse)[j]
        invariant forall j :: i <= j < |sessions| ==> sessions[j] == old(sessions)[j]
      {
        var open := sessions[i];
        if open.family == family && open.revokedAt.None? {
          open := open.(revokedAt := Some(now));
          if reuse {
            open := open.(reuseDetectedAt := Some(now));
          }
          sessions := sessions[i := open];
        }
      }
    }

    method RotateRefreshToken(token: nat, agent: Option<string>, now: int, userActive: bool) returns (outcome: Outcome)
      modifies this
      ensures (sessions, outcome) == Presented(cfg, old(sessions), token, agent, now, userActive)
    {
      if token >= |sessions| {
        return Refused;
      }
      var beforeRequest := sessions;
      if sessions[token].revokedAt.Some? {
        var successor := UnusedSuccessor(cfg, sessions, token, agent, now);
        if successor.None? {
          RevokeFamily(sessions[token].family, now, true);
          return ReuseAlarm;
        }
        sessions := sessions[successor.value := sessions[successor.value].(revokedAt := Some(now))];
      }
      if sessions[token].expiresAt <= now || !userActive {
        sessions := beforeRequest;  // the raised error rolls the request back
        return Refused;
      }
      ghost var checked := sessions;
      if sessions[token].revokedAt.None? {
        sessions := sessions[token := sessions[token].(revokedAt := Some(now))];
      }
      var s, newId := sessions[token], |sessions|;
      sessions := sessions + [Session(s.user, s.family, s.userAgent, now + cfg.refreshTtl, None, None, None)];
      sessions := sessions[token := s.(replacedBy := Some(newId))];
      assert sessions == Rotated(cfg, checked, token, now);
      return Issued(newId);
    }

    method Logout(token: nat, now: int)
      modifies this
      ensures sessions == LoggedOut(old(sessions), token, now)
    {
      if token < |sessions| {
        RevokeFamily(sessions[token].family, now, false);
      }
    }

    method RevokeAllSessions(user: nat, now: int)
      modifies this
      ensures sessions == UserRevoked(old(sessions), user, now)
    {
      var rows := sessions;
      sessions := seq(|rows|, i requires 0 <= i < |rows| =>
        if rows[i].user == user && rows[i].revokedAt.None? then rows[i].(revokedAt := Some(now)) else rows[i]);
    }
  }

  // ---------------------------------------------------------------- the invariant

  /** The family of a row starts with an earlier row of the same user and user agent. */
  ghost predicate Rooted(rows: Table, i: nat)
    requires i < |rows|
  {
    var f := rows[i].family;
    f <= i && rows[f].family == f && rows[f].user == rows[i].user && rows[f].userAgent == rows[i].userAgent
  }

  /** A replacement link points to a later session of the same family, from a revoked session. */
  ghost predicate WellLinked(rows: Table, i: nat)
    requires i < |rows|
  {
    rows[i].replacedBy.Some? ==>
      var r := rows[i].replacedBy.value;
      i < r < |rows| && rows[r].family == rows[i].family && rows[i].revokedAt.Some?
  }

  ghost predicate NotBothOpen(rows: Table, i: nat, j: nat)
    requires i < |rows| && j < |rows|
  {
    rows[i].family == rows[j].family ==> rows[i].revokedAt.Some? || rows[j].revokedAt.Some?
  }

  ghost predicate Valid(rows: Table) {
    && (forall i {:trigger Rooted(rows, i)} :: 0 <= i < |rows| ==> Rooted(rows, i))
    && (forall i {:trigger WellLinked(rows, i)} :: 0 <= i < |rows| ==> WellLinked(rows, i))
    && (forall i, j {:trigger NotBothOpen(rows, i, j)} :: 0 <= i < j < |rows| ==> NotBothOpen(rows, i, j))
  }

  datatype Step =
    | Login(user: nat, agent: Option<string>, now: int)
    | Present(token: nat, agent: Option<string>, now: int, userActive: bool)
    | Logout(token: nat, now: int)
    | RevokeAll(user: nat, now: int)

  function Apply(cfg: Config, rows: Table, step: Step): Table {
    match step
    case Login(user, agent, now) => Started(cfg, rows, user, agent, now)
    case Present(token, agent, now, userActive) => Presented(cfg, rows, token, agent, now, userActive).0
    case Logout(token, now) => LoggedOut(rows, token, now)
    case RevokeAll(user, now) => UserRevoked(rows, user, now)
  }

  /** The table after the first `n` steps. */
  function Run(cfg: Config, rows: Table, steps: seq<Step>, n: nat): Table
    requires n <= |steps|
  {
    if n == 0 then rows else Apply(cfg, Run(cfg, rows, steps, n - 1), steps[n - 1])
  }

  /** Between two tables, rows are only added, and an existing row keeps everything but its
      revocation, which once set stays as it is, and its link and alarm. */
  ghost predicate RowKept(before: Table, after: Table, i: nat)
    requires i < |before| <= |after|
  {
    var s, t := before[i], after[i];
    && t.user == s.user && t.family == s.family && t.userAgent == s.userAgent && t.expiresAt == s.expiresAt
    && (s.revokedAt.Some? ==> t.revokedAt == s.revokedAt)
  }

  ghost predicate Extends(before: Table, after: Table) {
    |before| <= |after| && forall i {:trigger RowKept(before, after, i)} :: 0 <= i < |before| ==>
      RowKept(before, after, i)
  }

  lemma StepExtends(cfg: Config, rows: Table, step: Step)
    requires Valid(rows)
    ensures Extends(rows, Apply(cfg, rows, step))
  {
    if step.Present? && step.token < |rows| { assert WellLinked(rows, step.token); }
  }

  lemma {:induction false} RunExtends(cfg: Config, rows: Table, steps: seq<Step>, n: nat)
    requires n <= |steps| && Valid(rows)
    ensures Extends(rows, Run(cfg, rows, steps, n)) && Valid(Run(cfg, rows, steps, n))
  {
    if n > 0 {
      RunExtends(cfg, rows, steps, n - 1);
      var middle, after := Run(cfg, rows, steps, n - 1), Run(cfg, rows, steps, n);
      StepExtends(cfg, middle, steps[n - 1]);
      StepKeepsValid(cfg, middle, steps[n - 1]);
      forall i | 0 <= i < |rows| ensures RowKept(rows, after, i) {
        assert RowKept(rows, middle, i) && RowKept(middle, after, i);
      }
    }
  }

  /** Closing sessions without touching anything else keeps the invariant. */
  lemma ClosingKeepsValid(rows: Table, after: Table)
    requires Valid(rows) && Extends(rows, after) && |after| == |rows|
    requires forall i :: 0 <= i < |rows| ==> after[i].replacedBy == rows[i].replacedBy
    ensures Valid(after)
  {
    assert forall i {:trigger rows[i]} :: 0 <= i < |rows| ==> RowKept(rows, after, i);
    forall i | 0 <= i < |rows| ensures Rooted(after, i) && WellLinked(after, i) {
      assert Rooted(rows, i) && WellLinked(rows, i);
    }
    forall i, j | 0 <= i < j < |rows| ensures NotBothOpen(after, i, j) {
      assert NotBothOpen(rows, i, j);
    }
  }

  /** Rotating an existing row of a family without other open sessions keeps the invariant. */
  lemma RotationKeepsValid(cfg: Config, rows: Table, id: nat, now: int)
    requires id < |rows| && Valid(rows)
    requires forall i :: 0 <= i < |rows| && i != id ==> !OpenIn(rows[i], rows[id].family)
    ensures Valid(Rotated(cfg, rows, id, now))
  {
    var after, n := Rotated(cfg, rows, id, now), |rows|;
    assert Rooted(rows, id);
    forall i | 0 <= i < |after| ensures Rooted(after, i) && WellLinked(after, i) {
      if i < n { assert Rooted(rows, i) && WellLinked(rows, i); }
    }
    forall i, j | 0 <= i < j < |after| ensures NotBothOpen(after, i, j) {
      if j < n { assert NotBothOpen(rows, i, j); }
    }
  }

  /** In a valid table the open session of a family is its only one. */
  lemma OnlyOpenSession(rows: Table, id: nat)
    requires Valid(rows) && id < |rows| && rows[id].revokedAt.None?
    ensures forall i :: 0 <= i < |rows| && i != id ==> !OpenIn(rows[i], rows[id].family)
  {
    forall i | 0 <= i < |rows| && i != id ensures !OpenIn(rows[i], rows[id].family) {
      if i < id { assert NotBothOpen(rows, i, id); } else { assert NotBothOpen(rows, id, i); }
    }
  }

  lemma LoginKeepsValid(cfg: Config, rows: Table, user: nat, agent: Option<string>, now: int)
    requires Valid(rows)
    ensures Valid(Started(cfg, rows, user, agent, now))
  {
    var after, n := Started(cfg, rows, user, agent, now), |rows|;
    forall i | 0 <= i < |after| ensures Rooted(after, i) && WellLinked(after, i) {
      if i < n { assert Rooted(rows, i) && WellLinked(rows, i); }
    }
    forall i, j | 0 <= i < j < |after| ensures NotBothOpen(after, i, j) {
      assert Rooted(rows, i);
      if j < n { assert NotBothOpen(rows, i, j); }
    }
  }

  lemma RetryKeepsValid(cfg: Config, rows: Table, token: nat, successor: nat, now: int)
    requires Valid(rows) && token < |rows| && rows[token].revokedAt.Some?
    requires rows[token].replacedBy == Some(successor) && successor < |rows| && rows[successor].revokedAt.None?
    ensures Valid(Rotated(cfg, rows[successor := rows[successor].(revokedAt := Some(now))], token, now))
  {
    var closed := rows[successor := rows[successor].(revokedAt := Some(now))];
    assert WellLinked(rows, token);
    OnlyOpenSession(rows, successor);
    ClosingKeepsValid(rows, closed);
    RotationKeepsValid(cfg, closed, token, now);
  }

  /** Every step keeps the invariant: at most one open session per family, links that stay in
      the family and point forward. */
  lemma StepKeepsValid(cfg: Config, rows: Table, step: Step)
    requires Valid(rows)
    ensures Valid(Apply(cfg, rows, step))
  {
    StepExtends(cfg, rows, step);
    match step
    case Login(user, agent, now) => LoginKeepsValid(cfg, rows, user, agent, now);
    case Present(token, agent, now, userActive) =>
      var outcome := Presented(cfg, rows, token, agent, now, userActive).1;
      if outcome.Issued? {
        if rows[token].revokedAt.None? {
          OnlyOpenSession(rows, token);
          RotationKeepsValid(cfg, rows, token, now);
        } else {
          RetryKeepsValid(cfg, rows, token, UnusedSuccessor(cfg, rows, token, agent, now).value, now);
        }
      } else {
        ClosingKeepsValid(rows, Apply(cfg, rows, step));
      }
    case Logout(token, now) => ClosingKeepsValid(rows, Apply(cfg, rows, step));
    case RevokeAll(user, now) => ClosingKeepsValid(rows, Apply(cfg, rows, step));
  }

  /** In every state a run reaches, a family has at most one open session, and every link points
      to a later session of its own family. */
  lemma ReachableStatesAreValid(cfg: Config, steps: seq<Step>)
    ensures var rows := Run(cfg, [], steps, |steps|);
            && (forall i, j :: 0 <= i < j < |rows| && rows[i].family == rows[j].family ==>
                  rows[i].revokedAt.Some? || rows[j].revokedAt.Some?)
            && (forall i :: 0 <= i < |rows| && rows[i].replacedBy.Some? ==>
                  i < rows[i].replacedBy.value < |rows| && rows[rows[i].replacedBy.value].family == rows[i].family)
  {
    RunExtends(cfg, [], steps, |steps|);
    var rows := Run(cfg, [], steps, |steps|);
    forall i, j | 0 <= i < j < |rows| && rows[i].family == rows[j].family
      ensures rows[i].revokedAt.Some? || rows[j].revokedAt.Some?
    {
      assert NotBothOpen(rows, i, j);
    }
    forall i | 0 <= i < |rows| && rows[i].replacedBy.Some?
      ensures i < rows[i].replacedBy.value < |rows| && rows[rows[i].replacedBy.value].family == rows[i].family
    {
      assert WellLinked(rows, i);
    }
  }

  // ---------------------------------------------------------------- dead families

  ghost predicate Dead(rows: Table, family: nat) {
    forall i :: 0 <= i < |rows| ==> !OpenIn(rows[i], family)
  }

  /** A token of a dead family only ever raises the alarm. */
  lemma DeadFamilyIsRefused(cfg: Config, rows: Table, token: nat, agent: Option<string>, now: int, userActive: bool)
    requires Valid(rows) && token < |rows| && Dead(rows, rows[token].family)
    ensures Presented(cfg, rows, token, agent, now, userActive).1 == ReuseAlarm
  {
    assert WellLinked(rows, token);
    assert !OpenIn(rows[token], rows[token].family);
  }

  lemma DeadAfterStep(cfg: Config, rows: Table, step: Step, family: nat)
    requires Valid(rows) && family < |rows| && Dead(rows, family)
    ensures Dead(Apply(cfg, rows, step), family)
  {
    if step.Present? && step.token < |rows| && rows[step.token].family == family {
      DeadFamilyIsRefused(cfg, rows, step.token, step.agent, step.now, step.userActive);
    }
    var after := Apply(cfg, rows, step);
    forall i | 0 <= i < |after| ensures !OpenIn(after[i], family) {
      if i < |rows| {
        assert !OpenIn(rows[i], family);
        StepExtends(cfg, rows, step);
        assert RowKept(rows, after, i);
      }
    }
  }

  /** If step `i` of a run presents a token of the family, it raises the alarm. */
  predicate AlarmAt(cfg: Config, rows: Table, steps: seq<Step>, i: nat, family: nat)
    requires i < |steps|
  {
    var before, step := Run(cfg, rows, steps, i), steps[i];
    step.Present? && step.token < |before| && before[step.token].family == family ==>
      Presented(cfg, before, step.token, step.agent, step.now, step.userActive).1 == ReuseAlarm
  }

  /** A dead family stays dead: no sequence of logins, presentations, logouts and revocations
      opens a session in it again, and none of its tokens is ever accepted. */
  lemma {:induction false} DeadStaysDead(cfg: Config, rows: Table, steps: seq<Step>, n: nat, family: nat)
    requires n <= |steps| && Valid(rows) && family < |rows| && Dead(rows, family)
    ensures Dead(Run(cfg, rows, steps, n), family)
    ensures forall i {:trigger AlarmAt(cfg, rows, steps, i, family)} :: 0 <= i < n ==>
      AlarmAt(cfg, rows, steps, i, family)
  {
    if n > 0 {
      DeadStaysDead(cfg, rows, steps, n - 1, family);
      var before, step := Run(cfg, rows, steps, n - 1), steps[n - 1];
      RunExtends(cfg, rows, steps, n - 1);
      DeadAfterStep(cfg, before, step, family);
      if step.Present? && step.token < |before| && before[step.token].family == family {
        DeadFamilyIsRefused(cfg, before, step.token, step.agent, step.now, step.userActive);
      }
      assert AlarmAt(cfg, rows, steps, n - 1, family);
    }
  }

  /** Logout, detected reuse and the revocation of all sessions of a user leave the family dead. */
  lemma FamilyIsKilled(cfg: Config, rows: Table, step: Step, token: nat)
    requires Valid(rows) && token < |rows|
    requires || (step.Logout? && step.token == token)
             || (step.RevokeAll? && step.user == rows[token].user)
             || (step.Present? && step.token == token
                 && Presented(cfg, rows, token, step.agent, step.now, step.userActive).1 == ReuseAlarm)
    ensures Dead(Apply(cfg, rows, step), rows[token].family)
  {
    var after, family := Apply(cfg, rows, step), rows[token].family;
    forall i | 0 <= i < |after| ensures !OpenIn(after[i], family) {
      assert Rooted(rows, i) && Rooted(rows, token);
    }
  }

  /** Once logged out, caught reusing a token or revoked, a family never has an open session again. */
  lemma KilledFamilyNeverReopens(cfg: Config, rows: Table, kill: Step, token: nat, steps: seq<Step>)
    requires Valid(rows) && token < |rows|
    requires || (kill.Logout? && kill.token == token)
             || (kill.RevokeAll? && kill.user == rows[token].user)
             || (kill.Present? && kill.token == token
                 && Presented(cfg, rows, token, kill.agent, kill.now, kill.userActive).1 == ReuseAlarm)
    ensures Dead(Run(cfg, Apply(cfg, rows, kill), steps, |steps|), rows[token].family)
  {
    FamilyIsKilled(cfg, rows, kill, token);
    StepKeepsValid(cfg, rows, kill);
    StepExtends(cfg, rows, kill);
    assert Rooted(rows, token);
    DeadStaysDead(cfg, Apply(cfg, rows, kill), steps, |steps|, rows[token].family);
  }

  // ---------------------------------------------------------------- the life of a token

  /** Does this step create session `n`, by a login or by an accepted presentation? */
  predicate Creates(cfg: Config, rows: Table, step: Step, n: nat) {
    match step
    case Login(_, _, _) => n == |rows|
    case Present(token, agent, now, userActive) => Presented(cfg, rows, token, agent, now, userActive).1 == Issued(n)
    case _ => false
  }

  /** A new session is one row at the end of the table, open, for the user and with the user agent it
      was asked for, and in the family of the token that was presented for it. */
  lemma NewSession(cfg: Config, rows: Table, step: Step, n: nat)
    requires Creates(cfg, rows, step, n)
    ensures n == |rows| && |Apply(cfg, rows, step)| == n + 1
    ensures var s := Apply(cfg, rows, step)[n];
            && s.revokedAt == None && s.reuseDetectedAt == None && s.replacedBy == None
            && (step.Login? ==> s.user == step.user && s.family == n && s.userAgent == NormalizedAgent(step.agent))
            && (step.Present? ==>
                  step.token < n && s.user == rows[step.token].user && s.family == rows[step.token].family
                  && s.userAgent == rows[step.token].userAgent)
  {}

  /** A step that presents no token of the family, logs none out and does not revoke its user. */
  predicate Passes(rows: Table, step: Step, family: nat, user: nat) {
    match step
    case Login(_, _, _) => true
    case Present(token, _, _, _) => token < |rows| ==> rows[token].family != family
    case Logout(token, _) => token < |rows| ==> rows[token].family != family
    case RevokeAll(u, _) => u != user
  }

  ghost predicate PassedBy(cfg: Config, rows: Table, steps: seq<Step>, n: nat, family: nat, user: nat)
    requires n <= |steps|
  {
    forall i {:trigger PassesAt(cfg, rows, steps, i, family, user)} :: 0 <= i < n ==>
      PassesAt(cfg, rows, steps, i, family, user)
  }

  predicate PassesAt(cfg: Config, rows: Table, steps: seq<Step>, i: nat, family: nat, user: nat)
    requires i < |steps|
  {
    Passes(Run(cfg, rows, steps, i), steps[i], family, user)
  }

  lemma PassedRowStays(cfg: Config, rows: Table, step: Step, n: nat)
    requires Valid(rows) && n < |rows| && Passes(rows, step, rows[n].family, rows[n].user)
    ensures n < |Apply(cfg, rows, step)| && Apply(cfg, rows, step)[n] == rows[n]
  {
    if step.Present? && step.token < |rows| { assert WellLinked(rows, step.token); }
  }

  lemma {:induction false} PassedRowsStay(cfg: Config, rows: Table, steps: seq<Step>, n: nat, row: nat)
    requires n <= |steps| && Valid(rows) && row < |rows|
    requires PassedBy(cfg, rows, steps, n, rows[row].family, rows[row].user)
    ensures row < |Run(cfg, rows, steps, n)| && Run(cfg, rows, steps, n)[row] == rows[row]
  {
    if n > 0 {
      PassedRowsStay(cfg, rows, steps, n - 1, row);
      RunExtends(cfg, rows, steps, n - 1);
      assert PassesAt(cfg, rows, steps, n - 1, rows[row].family, rows[row].user);
      PassedRowStays(cfg, Run(cfg, rows, steps, n - 1), steps[n - 1], row);
    }
  }

  lemma ExpiryOfNewSession(cfg: Config, rows: Table, step: Step, n: nat)
    requires Creates(cfg, rows, step, n)
    ensures n < |Apply(cfg, rows, step)| && Apply(cfg, rows, step)[n].expiresAt == step.now + cfg.refreshTtl
  {}

  /** An open session is accepted from any agent until it expires, while its user is active. */
  lemma OpenSessionIsAccepted(cfg: Config, rows: Table, n: nat, agent: Option<string>, t: int, userActive: bool)
    requires n < |rows| && rows[n].revokedAt.None?
    ensures Presented(cfg, rows, n, agent, t, userActive).1
         == if t < rows[n].expiresAt && userActive then Issued(|rows|) else Refused
  {}

  /** The life of a token: whatever step created it, and whatever happens meanwhile to other families,
      it is accepted when it is first presented exactly while less than the configured time has passed
      since it was created and its user is active; otherwise it is refused without an alarm. */
  lemma TokenLivesItsTtl(cfg: Config, rows: Table, created: Step, n: nat, steps: seq<Step>, agent: Option<string>,
                         t: int, userActive: bool)
    requires Valid(rows) && Creates(cfg, rows, created, n)
    requires var after := Apply(cfg, rows, created);
             n < |after| && PassedBy(cfg, after, steps, |steps|, after[n].family, after[n].user)
    ensures var later := Run(cfg, Apply(cfg, rows, created), steps, |steps|);
            var outcome := Presented(cfg, later, n, agent, t, userActive).1;
            && (outcome == Issued(|later|) <==> t < created.now + cfg.refreshTtl && userActive)
            && (outcome.Issued? || outcome == Refused)
  {
    var after := Apply(cfg, rows, created);
    StepKeepsValid(cfg, rows, created);
    NewSession(cfg, rows, created, n);
    ExpiryOfNewSession(cfg, rows, created, n);
    PassedRowsStay(cfg, after, steps, |steps|, n);
    OpenSessionIsAccepted(cfg, Run(cfg, after, steps, |steps|), n, agent, t, userActive);
  }

  // ---------------------------------------------------------------- the grace window

  lemma AcceptedRetryIsInTime(cfg: Config, rows: Table, again: Step)
    requires again.Present? && again.token < |rows| && rows[again.token].revokedAt.Some?
    requires Presented(cfg, rows, again.token, again.agent, again.now, again.userActive).1.Issued?
    ensures again.now - rows[again.token].revokedAt.value <= cfg.reuseGrace
    ensures again.agent == rows[again.token].userAgent
  {}

  lemma FirstRotationIsRecorded(cfg: Config, rows: Table, first: Step)
    requires Valid(rows) && first.Present? && first.token < |rows| && rows[first.token].revokedAt.None?
    requires Presented(cfg, rows, first.token, first.agent, first.now, first.userActive).1.Issued?
    ensures var rotated := Apply(cfg, rows, first);
            Valid(rotated) && first.token < |rotated| && rotated[first.token].revokedAt == Some(first.now)
            && rotated[first.token].userAgent == rows[first.token].userAgent
  {
    StepKeepsValid(cfg, rows, first);
  }

  lemma RevocationSurvives(cfg: Config, rows: Table, steps: seq<Step>, token: nat)
    requires Valid(rows) && token < |rows| && rows[token].revokedAt.Some?
    ensures var later := Run(cfg, rows, steps, |steps|);
            token < |later| && later[token].revokedAt == rows[token].revokedAt
            && later[token].userAgent == rows[token].userAgent
  {
    RunExtends(cfg, rows, steps, |steps|);
    assert RowKept(rows, Run(cfg, rows, steps, |steps|), token);
  }

  /** Every later acceptance of a token falls within the grace of its first rotation, whatever
      happened in between: a retry does not move `revokedAt`. */
  lemma AcceptedWithinGrace(cfg: Config, rows: Table, first: Step, steps: seq<Step>, again: Step, later: Table)
    requires Valid(rows) && first.Present? && first.token < |rows| && rows[first.token].revokedAt.None?
    requires Presented(cfg, rows, first.token, first.agent, first.now, first.userActive).1.Issued?
    requires later == Run(cfg, Apply(cfg, rows, first), steps, |steps|)
    requires again.Present? && again.token == first.token
    requires Presented(cfg, later, again.token, again.agent, again.now, again.userActive).1.Issued?
    ensures again.now - first.now <= cfg.reuseGrace
    ensures again.agent == rows[first.token].userAgent
  {
    FirstRotationIsRecorded(cfg, rows, first);
    RevocationSurvives(cfg, Apply(cfg, rows, first), steps, first.token);
    AcceptedRetryIsInTime(cfg, later, again);
  }

  lemma NormalizedAgentFixpoint(agent: Option<string>)
    ensures NormalizedAgent(agent) == agent <==> agent.None? || 1 <= |agent.value| <= 400
  {
    if agent.Some? && |agent.value| > 400 {
      assert |agent.value[..400]| == 400;
    }
  }

  /** Login, a rotation whose answer is lost, and a retry: the retry is taken for theft exactly
      unless a grace is configured, it comes within it, and its user agent is the one stored at
      login. For one and the same agent that is one that is absent or has 1 to 400 characters. */
  lemma LostAnswerRetryIff(cfg: Config, rows: Table, user: nat, agent: Option<string>, later: Option<string>,
                           login: int,
                           first: int, retry: int)
    requires first < login + cfg.refreshTtl && retry < login + cfg.refreshTtl
    ensures var token := |rows|;
            var rotated := Presented(cfg, Started(cfg, rows, user, agent, login), token, agent, first, true).0;
            Presented(cfg, rotated, token, later, retry, true).1 != ReuseAlarm
            <==> 0 < cfg.reuseGrace && retry - first <= cfg.reuseGrace && NormalizedAgent(agent) == later
    ensures NormalizedAgent(agent) == agent <==> agent.None? || 1 <= |agent.value| <= 400
  {
    NormalizedAgentFixpoint(agent);
    var started := Started(cfg, rows, user, agent, login);
    var rotated := Presented(cfg, started, |rows|, agent, first, true).0;
    assert rotated == Rotated(cfg, started, |rows|, first);
    assert rotated[|rows|].revokedAt == Some(first) && rotated[|rows|].replacedBy == Some(|rows| + 1);
    assert rotated[|rows| + 1].revokedAt == None;
  }
}
