/** Delivery of queued e-mail: claiming with a lease, sending outside any transaction, and
    recording the outcome; and the interleavings of many workers on one message.
    Instants are whole microseconds. */
module MailDelivery {
  import opened Options
  import opened Powers

  const SECOND := 1_000_000
  const SENDING_LEASE := 5 * 60 * SECOND
  const MAX_BACKOFF_SECONDS := 3600

  datatype Status = Pending | Sending | Sent | DeadLetter | Canceled

  /** `secret` is the encrypted one-time context, wiped by setting it to None. */
  datatype Message = Message(status: Status, attempts: int, maxAttempts: int, nextAttemptAt: int,
                             secret: Option<string>)

  /** What a worker carries away from a claim. */
  datatype Claimed = Claimed(id: nat, attempts: int, maxAttempts: int, secret: Option<string>)

  datatype Outcome = Delivered | Retry | GiveUp

  // ---------------------------------------------------------------- pure parts

  function BackoffSeconds(attempts: int): int {
    var seconds := 60 * PowerOfTwo(if attempts - 1 < 0 then 0 else attempts - 1);
    if seconds < MAX_BACKOFF_SECONDS then seconds else MAX_BACKOFF_SECONDS
  }

  /** The first retry waits a minute, and each further one twice as long, up to an hour; so
      retries never come sooner as attempts grow. */
  lemma BackoffGrows(a: int, b: int)
    requires a <= b
    ensures a <= 1 ==> BackoffSeconds(a) == 60
    ensures a >= 1 ==> BackoffSeconds(a + 1) == if 2 * BackoffSeconds(a) < 3600 then 2 * BackoffSeconds(a) else 3600
    ensures 60 <= BackoffSeconds(a) <= BackoffSeconds(b) <= 3600
  {
    PowerOfTwoGrows(if a - 1 < 0 then 0 else a - 1, if b - 1 < 0 then 0 else b - 1);
  }

  function RetryOrDead(c: Claimed): Outcome {
    if c.attempts >= c.maxAttempts then GiveUp else Retry
  }

  /** How one delivery attempt can go: the secret cannot be decrypted, the template does not
      render, or the message is handed to the sender. */
  datatype Trial = DecryptionFailed | RenderingFailed | Accepted | RejectedForGood | RejectedForNow

  function Attempt(c: Claimed, t: Trial): Outcome {
    match t
    case DecryptionFailed => RetryOrDead(c)
    case RenderingFailed => GiveUp
    case Accepted => Delivered
    case RejectedForGood => GiveUp
    case RejectedForNow => RetryOrDead(c)
  }

  /** Which trials come to which outcome: an accepted message is delivered; one that cannot be rendered
      or is rejected for good is given up; any other failure is retried until the attempts are used up. */
  predicate ComesTo(attempts: int, maxAttempts: int, t: Trial, outcome: Outcome) {
    match outcome
    case Delivered => t.Accepted?
    case Retry => (t.RejectedForNow? || t.DecryptionFailed?) && attempts < maxAttempts
    case GiveUp =>
      || t.RejectedForGood? || t.RenderingFailed?
      || ((t.RejectedForNow? || t.DecryptionFailed?) && attempts >= maxAttempts)
  }

  lemma EveryTrialComesToOneOutcome(c: Claimed, t: Trial, outcome: Outcome)
    ensures Attempt(c, t) == outcome <==> ComesTo(c.attempts, c.maxAttempts, t, outcome)
  {}

  predicate Due(m: Message, now: int) {
    (m.status.Pending? || m.status.Sending?) && m.nextAttemptAt <= now
  }

  function ClaimedMessage(m: Message, now: int): Message {
    m.(status := Sending, attempts := m.attempts + 1, nextAttemptAt := now + SENDING_LEASE)
  }

  function RecordedMessage(m: Message, c: Claimed, outcome: Outcome, now: int): Message {
    if !m.status.Sending? then m
    else
      match outcome
      case Delivered => m.(status := Sent, secret := None)
      case Retry => m.(status := Pending, nextAttemptAt := now + BackoffSeconds(c.attempts) * SECOND)
      case GiveUp => m.(status := DeadLetter, secret := None)
  }

  /** What a claim of message `id` hands to the worker. */
  function Ticket(m: Message, id: nat): Claimed {
    Claimed(id, m.attempts + 1, m.maxAttempts, m.secret)
  }

  /** What a recorded trial leaves of a message that was still being sent: sent, a dead letter or
      pending again, its secret kept only while it is pending, and when it is due then. */
  ghost predicate CameOut(before: Message, after: Message, attempts: int, t: Trial, recordedAt: int) {
    && after.attempts == before.attempts && after.maxAttempts == before.maxAttempts
    && (t.Accepted? ==> after.status.Sent?)
    && (t.RejectedForGood? || t.RenderingFailed? ==> after.status.DeadLetter?)
    && (t.RejectedForNow? || t.DecryptionFailed? ==>
          if attempts < before.maxAttempts then after.status.Pending? else after.status.DeadLetter?)
    && after.secret == (if after.status.Pending? then before.secret else None)
    && (after.status.Pending? ==>
          forall now :: Due(after, now) <==> now >= recordedAt + BackoffSeconds(attempts) * 1_000_000)
  }

  /** Recording takes effect on a message that is still being sent, and on no other. */
  lemma RecordingDecides(m: Message, c: Claimed, t: Trial, now: int)
    requires c.maxAttempts == m.maxAttempts
    ensures m.status.Sending? ==> CameOut(m, RecordedMessage(m, c, Attempt(c, t), now), c.attempts, t, now)
    ensures !m.status.Sending? ==> RecordedMessage(m, c, Attempt(c, t), now) == m
  {}

  /** A claim counts one attempt and puts the message under a lease of five minutes, after which it is
      due again, and not before. */
  lemma LeaseIsFiveMinutes(m: Message, now: int, later: int)
    ensures var leased := ClaimedMessage(m, now);
            && leased.status.Sending? && leased.attempts == m.attempts + 1
            && leased.maxAttempts == m.maxAttempts && leased.secret == m.secret
            && (Due(leased, later) <==> later >= now + 300_000_000)
  {}

  // ---------------------------------------------------------------- the service

  datatype Stats = Stats(sent: nat, retried: nat, deadLettered: nat, messageIds: seq<nat>)
  {
    function Handled(): nat { sent + retried + deadLettered }
  }

  function Tally(stats: Stats, id: nat, outcome: Outcome): (after: Stats)
    ensures after.Handled() == stats.Handled() + 1 && after.messageIds == stats.messageIds + [id]
  {
    var listed := stats.(messageIds := stats.messageIds + [id]);
    match outcome
    case Delivered => listed.(sent := stats.sent + 1)
    case Retry => listed.(retried := stats.retried + 1)
    case GiveUp => listed.(deadLettered := stats.deadLettered + 1)
  }

  /** The rows a claim selects: due, not locked by another claim, the oldest `limit` of them.
      Rows are identified by their position, in order of creation. */
  function Selected(messages: seq<Message>, n: nat, limit: nat, now: int, locked: set<nat>): (ids: seq<nat>)
    requires n <= |messages|
    ensures |ids| <= limit
    ensures forall k :: 0 <= k < |ids| ==> ids[k] < n && Due(messages[ids[k]], now) && ids[k] !in locked
    ensures forall j, k :: 0 <= j < k < |ids| ==> ids[j] < ids[k]
  {
    if n == 0 then []
    else
      var before := Selected(messages, n - 1, limit, now, locked);
      if |before| < limit && Due(messages[n - 1], now) && n - 1 !in locked then before + [n - 1] else before
  }

  /** A claim takes rows that are pending or being sent and due; when it leaves such a row behind that
      is not locked, it already took `limit` older ones. */
  lemma {:induction false} SelectedTakesTheOldest(messages: seq<Message>, n: nat, limit: nat, now: int,
                                                  locked: set<nat>, id: nat)
    requires id < n <= |messages|
    ensures id in Selected(messages, n, limit, now, locked) ==>
      (messages[id].status.Pending? || messages[id].status.Sending?) && messages[id].nextAttemptAt <= now
    ensures (messages[id].status.Pending? || messages[id].status.Sending?) && messages[id].nextAttemptAt <= now
            && id !in locked ==>
            || id in Selected(messages, n, limit, now, locked)
            || (|Selected(messages, n, limit, now, locked)| == limit
                && forall k :: 0 <= k < limit ==> Selected(messages, n, limit, now, locked)[k] < id)
  {
    if id < n - 1 {
      SelectedTakesTheOldest(messages, n - 1, limit, now, locked, id);
    }
  }

  /** The first `n` selected rows claimed. */
  function AllClaimed(messages: seq<Message>, ids: seq<nat>, n: nat, now: int): (r: seq<Message>)
    requires n <= |ids| && forall k :: 0 <= k < |ids| ==> ids[k] < |messages|
    ensures |r| == |messages|
  {
    if n == 0 then messages
    else
      var before := AllClaimed(messages, ids, n - 1, now);
      before[ids[n - 1] := ClaimedMessage(before[ids[n - 1]], now)]
  }

  function Tickets(messages: seq<Message>, ids: seq<nat>): seq<Claimed>
    requires forall k :: 0 <= k < |ids| ==> ids[k] < |messages|
  {
    seq(|ids|, k requires 0 <= k < |ids| => Ticket(messages[ids[k]], ids[k]))
  }

  /** How the turn of one claimed message goes: its trial, and the clock when it is recorded. */
  datatype Turn = Turn(trial: Trial, recordedAt: int)

  /** What other transactions make of the table before turn `k` of a pass; rows are only added. */
  type Interference = (nat, seq<Message>) -> seq<Message>

  ghost predicate Grows(others: Interference) {
    forall k, m {:trigger others(k, m)} :: |others(k, m)| >= |m|
  }

  /** The first `n` claims tried and recorded, one after the other. */
  function AllRecorded(messages: seq<Message>, claimed: seq<Claimed>, n: nat, turns: seq<Turn>, others: Interference)
    : (r: seq<Message>)
    requires n <= |claimed| <= |turns| && Grows(others) && forall k :: 0 <= k < |claimed| ==> claimed[k].id < |messages|
    ensures |r| >= |messages|
  {
    if n == 0 then messages
    else
      var before, c := others(n - 1, AllRecorded(messages, claimed, n - 1, turns, others)), claimed[n - 1];
      before[c.id := RecordedMessage(before[c.id], c, Attempt(c, turns[n - 1].trial), turns[n - 1].recordedAt)]
  }

  /** How many of the first `n` claims end with this outcome. */
  function OutcomeCount(claimed: seq<Claimed>, n: nat, turns: seq<Turn>, outcome: Outcome): nat
    requires n <= |claimed| <= |turns|
  {
    if n == 0 then 0
    else OutcomeCount(claimed, n - 1, turns, outcome)
         + (if ComesTo(claimed[n - 1].attempts, claimed[n - 1].maxAttempts, turns[n - 1].trial, outcome) then 1 else 0)
  }

  /** The statistics are the numbers of trials that come to each outcome. */
  predicate Counted(stats: Stats, claimed: seq<Claimed>, n: nat, turns: seq<Turn>)
    requires n <= |claimed| <= |turns|
  {
    && stats.sent == OutcomeCount(claimed, n, turns, Delivered)
    && stats.retried == OutcomeCount(claimed, n, turns, Retry)
    && stats.deadLettered == OutcomeCount(claimed, n, turns, GiveUp)
  }

  lemma TallyCounts(stats: Stats, claimed: seq<Claimed>, n: nat, turns: seq<Turn>)
    requires n < |claimed| <= |turns| && Counted(stats, claimed, n, turns)
    ensures Counted(Tally(stats, claimed[n].id, Attempt(claimed[n], turns[n].trial)), claimed, n + 1, turns)
  {}

  function AfterPass(messages: seq<Message>, limit: nat, now: int, locked: set<nat>, turns: seq<Turn>,
                     others: Interference)
    : seq<Message>
    requires |turns| >= limit && Grows(others)
  {
    var ids := Selected(messages, |messages|, limit, now, locked);
    AllRecorded(AllClaimed(messages, ids, |ids|, now), Tickets(messages, ids), |ids|, turns, others)
  }

  ghost predicate Rising(ids: seq<nat>, bound: nat) {
    (forall k :: 0 <= k < |ids| ==> ids[k] < bound) && (forall j, k :: 0 <= j < k < |ids| ==> ids[j] < ids[k])
  }

  lemma {:induction false} ClaimsAreSeparate(messages: seq<Message>, ids: seq<nat>, n: nat, now: int, i: nat)
    requires n <= |ids| && Rising(ids, |messages|) && i < |messages|
    ensures AllClaimed(messages, ids, n, now)[i]
         == if i in ids[..n] then ClaimedMessage(messages[i], now) else messages[i]
  {
    if n > 0 {
      ClaimsAreSeparate(messages, ids, n - 1, now, i);
      assert ids[..n] == ids[..n - 1] + [ids[n - 1]];
      assert ids[n - 1] !in ids[..n - 1];
    }
  }

  lemma {:induction false} RecordsAreSeparate(leased: seq<Message>, messages: seq<Message>, ids: seq<nat>, n: nat,
                                              turns: seq<Turn>, others: Interference, i: nat)
    requires n <= |ids| <= |turns| && Rising(ids, |messages|) && |leased| == |messages| && i < |messages|
    requires Grows(others) && forall k, m {:trigger others(k, m)} :: others(k, m) == m
    ensures i !in ids[..n] ==> AllRecorded(leased, Tickets(messages, ids), n, turns, others)[i] == leased[i]
    ensures forall k :: 0 <= k < n && ids[k] == i ==>
      AllRecorded(leased, Tickets(messages, ids), n, turns, others)[i]
      == RecordedMessage(leased[i], Ticket(messages[i], i), Attempt(Ticket(messages[i], i), turns[k].trial),
                         turns[k].recordedAt)
  {
    if n > 0 {
      RecordsAreSeparate(leased, messages, ids, n - 1, turns, others, i);
      assert ids[..n] == ids[..n - 1] + [ids[n - 1]];
      assert ids[n - 1] !in ids[..n - 1];
      assert forall k :: 0 <= k < n - 1 && ids[k] == i ==> ids[k] in ids[..n - 1];
    }
  }

  class MailDeliveryService {
    var messages: seq<Message>

    constructor (queued: seq<Message>)
      ensures messages == queued
    {
      messages := queued;
    }

    method Claim(limit: nat, now: int, locked: set<nat>) returns (claimed: seq<Claimed>)
      modifies this
      ensures var ids := Selected(old(messages), |old(messages)|, limit, now, locked);
              messages == AllClaimed(old(messages), ids, |ids|, now) && claimed == Tickets(old(messages), ids)
    {
      var ids := Selected(messages, |messages|, limit, now, locked);
      claimed := [];
      for k := 0 to |ids|
        invariant messages == AllClaimed(old(messages), ids, k, now)
        invariant claimed == Tickets(old(messages), ids)[..k]
      {
        ClaimsAreSeparate(old(messages), ids, k, now, ids[k]);
        var m := messages[ids[k]];
        m := m.(status := Sending);
        m := m.(attempts := m.attempts + 1);
        m := m.(nextAttemptAt := now + SENDING_LEASE);
        messages := messages[ids[k] := m];
        claimed := claimed + [Claimed(ids[k], m.attempts, m.maxAttempts, m.secret)];
      }
    }

    method Record(c: Claimed, outcome: Outcome, now: int)
      modifies this
      ensures c.id >= |old(messages)| ==> messages == old(messages)
      ensures c.id < |old(messages)| ==>
        messages == old(messages)[c.id := RecordedMessage(old(messages)[c.id], c, outcome, now)]
    {
      if c.id >= |messages| || !messages[c.id].status.Sending? {
        return;
      }
      var m := messages[c.id];
      match outcome {
        case Delivered =>
          m := m.(status := Sent, secret := None);
        case Retry =>
          m := m.(status := Pending);
          m := m.(nextAttemptAt := now + BackoffSeconds(c.attempts) * SECOND);
        case GiveUp =>
          m := m.(status := DeadLetter, secret := None);
      }
      messages := messages[c.id := m];
    }

    /** Tries the claimed messages one after the other and records what came of each; between two
        turns other transactions may change the table. */
    method RecordAll(claimed: seq<Claimed>, turns: seq<Turn>, others: Interference) returns (stats: Stats)
      requires |claimed| <= |turns| && Grows(others) && forall k :: 0 <= k < |claimed| ==> claimed[k].id < |messages|
      modifies this
      ensures messages == AllRecorded(old(messages), claimed, |claimed|, turns, others)
      ensures |stats.messageIds| == |claimed| == stats.Handled()
      ensures forall k :: 0 <= k < |claimed| ==> stats.messageIds[k] == claimed[k].id
      ensures Counted(stats, claimed, |claimed|, turns)
    {
      stats := Stats(0, 0, 0, []);
      for k := 0 to |claimed|
        invariant messages == AllRecorded(old(messages), claimed, k, turns, others)
        invariant |stats.messageIds| == k == stats.Handled()
        invariant forall j :: 0 <= j < k ==> stats.messageIds[j] == claimed[j].id
        invariant Counted(stats, claimed, k, turns)
      {
        var c := claimed[k];
        var outcome := Attempt(c, turns[k].trial);
        TallyCounts(stats, claimed, k, turns);
        messages := others(k, messages);
        Record(c, outcome, turns[k].recordedAt);
        stats := Tally(stats, c.id, outcome);
      }
    }

    /** One pass of one worker; turn `k` is that of the `k`-th message it claims, and `locked` are
        the rows that other claims hold at that moment. */
    method DeliverDue(limit: nat, now: int, locked: set<nat>, turns: seq<Turn>, others: Interference)
      returns (stats: Stats)
      requires |turns| >= limit && Grows(others)
      modifies this
      ensures messages == AfterPass(old(messages), limit, now, locked, turns, others)
      ensures stats.messageIds == Selected(old(messages), |old(messages)|, limit, now, locked)
      ensures stats.Handled() == |stats.messageIds|
      ensures var claimed := Tickets(old(messages), stats.messageIds);
              Counted(stats, claimed, |claimed|, turns)
    {
      var claimed := Claim(limit, now, locked);
      stats := RecordAll(claimed, turns, others);
    }
  }

  /** Turn `k` of a pass, whatever others did before it: its message comes out as its trial says if it
      is still being sent, and nothing else changes. */
  lemma TurnDecides(messages: seq<Message>, claimed: seq<Claimed>, k: nat, turns: seq<Turn>, others: Interference)
    requires k < |claimed| <= |turns| && Grows(others)
    requires forall j :: 0 <= j < |claimed| ==> claimed[j].id < |messages|
    requires var before := others(k, AllRecorded(messages, claimed, k, turns, others));
             claimed[k].maxAttempts == before[claimed[k].id].maxAttempts
    ensures var before := others(k, AllRecorded(messages, claimed, k, turns, others));
            var after, c := AllRecorded(messages, claimed, k + 1, turns, others), claimed[k];
            && |after| == |before| && (forall i :: 0 <= i < |before| && i != c.id ==> after[i] == before[i])
            && (before[c.id].status.Sending? ==>
                  CameOut(before[c.id], after[c.id], c.attempts, turns[k].trial, turns[k].recordedAt))
            && (!before[c.id].status.Sending? ==> after[c.id] == before[c.id])
  {
    var before, c := others(k, AllRecorded(messages, claimed, k, turns, others)), claimed[k];
    RecordingDecides(before[c.id], c, turns[k].trial, turns[k].recordedAt);
  }

  /** Left alone, a pass claims, tries and records every selected message exactly once and leaves
      the others. */
  lemma PassHandlesEachOnce(messages: seq<Message>, limit: nat, now: int, locked: set<nat>, turns: seq<Turn>,
                            others: Interference, i: nat)
    requires i < |messages| && |turns| >= limit
    requires Grows(others) && forall k, m {:trigger others(k, m)} :: others(k, m) == m
    ensures var ids := Selected(messages, |messages|, limit, now, locked);
            && (i !in ids ==> AfterPass(messages, limit, now, locked, turns, others)[i] == messages[i])
            && (forall k :: 0 <= k < |ids| && ids[k] == i ==>
                  CameOut(messages[i].(attempts := messages[i].attempts + 1),
                          AfterPass(messages, limit, now, locked, turns, others)[i],
                          messages[i].attempts + 1, turns[k].trial, turns[k].recordedAt))
  {
    var ids := Selected(messages, |messages|, limit, now, locked);
    ClaimsAreSeparate(messages, ids, |ids|, now, i);
    RecordsAreSeparate(AllClaimed(messages, ids, |ids|, now), messages, ids, |ids|, turns, others, i);
    assert ids[..|ids|] == ids;
    forall k | 0 <= k < |ids| && ids[k] == i
      ensures CameOut(messages[i].(attempts := messages[i].attempts + 1),
                      AfterPass(messages, limit, now, locked, turns, others)[i],
                      messages[i].attempts + 1, turns[k].trial, turns[k].recordedAt)
    {
      RecordingDecides(ClaimedMessage(messages[i], now), Ticket(messages[i], i), turns[k].trial, turns[k].recordedAt);
    }
  }

  // ---------------------------------------------------------------- interleavings on one message

  /** Where a worker stands with one claim of the message. */
  datatype Phase = Holding | Tried(trial: Trial, outcome: Outcome) | Finished | Retried | Crashed

  datatype Claim = Claim(ticket: Claimed, at: int, phase: Phase)

  /** The message, all claims ever made of it, and what happened: whether a send was accepted,
      whether a trial failed for good, how often a claim took over an expired lease, and when a
      step last read the clock. */
  datatype World = World(message: Message, claims: seq<Claim>, accepted: bool, hopeless: bool, takeovers: nat,
                         clock: int)

  datatype Step =
    | Take(now: int)                          // some worker claims the message
    | Try(claim: nat, trial: Trial)           // the holder of a claim decrypts, renders and sends
    | Report(claim: nat, now: int)            // and records what came of it
    | Crash(claim: nat)                       // or dies, at any point before recording

  predicate Enabled(w: World, s: Step) {
    match s
    case Take(now) => w.clock <= now && Due(w.message, now)
    case Try(i, _) => i < |w.claims| && w.claims[i].phase.Holding?
    case Report(i, now) => w.clock <= now && i < |w.claims| && w.claims[i].phase.Tried?
    case Crash(i) => i < |w.claims| && (w.claims[i].phase.Holding? || w.claims[i].phase.Tried?)
  }

  function Next(w: World, s: Step): World
    requires Enabled(w, s)
  {
    match s
    case Take(now) =>
      var m := ClaimedMessage(w.message, now);
      w.(message := m, clock := now,
         claims := w.claims + [Claim(Claimed(0, m.attempts, m.maxAttempts, m.secret), now, Holding)],
         takeovers := w.takeovers + (if w.message.status.Sending? then 1 else 0))
    case Try(i, trial) =>
      w.(claims := w.claims[i := w.claims[i].(phase := Tried(trial, Attempt(w.claims[i].ticket, trial)))],
         accepted := w.accepted || trial.Accepted?,
         hopeless := w.hopeless || trial.RenderingFailed? || trial.RejectedForGood?)
    case Report(i, now) =>
      var c := w.claims[i];
      w.(message := RecordedMessage(w.message, c.ticket, c.phase.outcome, now), clock := now,
         claims := w.claims[i := c.(phase := if w.message.status.Sending? && c.phase.outcome.Retry? then Retried
                                    else Finished)])
    case Crash(i) => w.(claims := w.claims[i := w.claims[i].(phase := Crashed)])
  }

  ghost predicate EnabledRun(w: World, steps: seq<Step>, n: nat)
    requires n <= |steps|
    decreases n, 0
  {
    n == 0 || (EnabledRun(w, steps, n - 1) && Enabled(Run(w, steps, n - 1), steps[n - 1]))
  }

  ghost function Run(w: World, steps: seq<Step>, n: nat): World
    requires n <= |steps| && EnabledRun(w, steps, n)
    decreases n, 1
  {
    if n == 0 then w else Next(Run(w, steps, n - 1), steps[n - 1])
  }

  /** A message as it is enqueued, with or without a secret. */
  predicate Fresh(w: World) {
    && w.message.status.Pending? && w.message.attempts == 0
    && w.claims == [] && !w.accepted && !w.hopeless && w.takeovers == 0
  }

  function Retries(claims: seq<Claim>, n: nat): nat
    requires n <= |claims|
  {
    if n == 0 then 0 else Retries(claims, n - 1) + (if claims[n - 1].phase.Retried? then 1 else 0)
  }

  /** What every step keeps, for a message enqueued with `secret` and `maxAttempts`. */
  ghost predicate Inv(w: World, secret: Option<string>, maxAttempts: int) {
    && w.message.maxAttempts == maxAttempts
    && w.message.attempts == |w.claims|
    && w.message.secret == (if w.message.status.Sent? || w.message.status.DeadLetter? then None else secret)
    && (w.message.status.Sent? ==> w.accepted)
    && (w.message.status.DeadLetter? ==> w.hopeless || w.message.attempts >= maxAttempts)
    && !w.message.status.Canceled?
    && ClaimsOk(w)
    && |w.claims| == Retries(w.claims, |w.claims|) + w.takeovers + (if w.message.status.Pending? then 0 else 1)
  }

  ghost predicate ClaimsOk(w: World) {
    forall i {:trigger w.claims[i]} :: 0 <= i < |w.claims| ==> ClaimOk(w, i)
  }

  ghost predicate ClaimOk(w: World, i: nat)
    requires i < |w.claims|
  {
    var c := w.claims[i];
    && c.ticket.attempts == i + 1 && c.ticket.maxAttempts == w.message.maxAttempts && c.at <= w.clock
    && (c.phase.Tried? ==> ComesTo(i + 1, w.message.maxAttempts, c.phase.trial, c.phase.outcome))
    && (c.phase.Tried? && c.phase.trial.Accepted? ==> w.accepted)
    && (c.phase.Tried? && (c.phase.trial.RenderingFailed? || c.phase.trial.RejectedForGood?) ==> w.hopeless)
    && (c.phase.Retried? ==> i + 1 < w.message.maxAttempts)
  }

  lemma {:induction false} RetriesOfPrefix(claims: seq<Claim>, more: seq<Claim>, n: nat)
    requires n <= |claims| && n <= |more|
    requires forall i :: 0 <= i < n ==> more[i].phase.Retried? == claims[i].phase.Retried?
    ensures Retries(more, n) == Retries(claims, n)
  {
    if n > 0 { RetriesOfPrefix(claims, more, n - 1); }
  }

  lemma {:induction false} RetriesAfterUpdate(claims: seq<Claim>, n: nat, i: nat, c: Claim)
    requires i < |claims| && n <= |claims| && !claims[i].phase.Retried?
    ensures Retries(claims[i := c], n) == Retries(claims, n) + (if i < n && c.phase.Retried? then 1 else 0)
  {
    if n > 0 { RetriesAfterUpdate(claims, n - 1, i, c); }
  }

  lemma StepKeepsClaims(w: World, s: Step, secret: Option<string>, maxAttempts: int)
    requires Inv(w, secret, maxAttempts) && Enabled(w, s)
    ensures ClaimsOk(Next(w, s))
  {
    var after := Next(w, s);
    forall i | 0 <= i < |after.claims| ensures ClaimOk(after, i) {
      if i < |w.claims| { assert ClaimOk(w, i); }
    }
  }

  lemma StepKeepsInv(w: World, s: Step, secret: Option<string>, maxAttempts: int)
    requires Inv(w, secret, maxAttempts) && Enabled(w, s)
    ensures Inv(Next(w, s), secret, maxAttempts)
  {
    var after := Next(w, s);
    match s {
      case Take(now) =>
        RetriesOfPrefix(w.claims, after.claims, |w.claims|);
      case Try(i, trial) =>
        RetriesAfterUpdate(w.claims, |w.claims|, i, after.claims[i]);
        assert ClaimOk(w, i);
      case Report(i, now) =>
        RetriesAfterUpdate(w.claims, |w.claims|, i, after.claims[i]);
        assert ClaimOk(w, i);
      case Crash(i) =>
        RetriesAfterUpdate(w.claims, |w.claims|, i, after.claims[i]);
        assert ClaimOk(w, i);
    }
    StepKeepsClaims(w, s, secret, maxAttempts);
  }

  lemma {:induction false} RunKeepsInv(w: World, steps: seq<Step>, n: nat)
    requires Fresh(w) && n <= |steps| && EnabledRun(w, steps, n)
    ensures Inv(Run(w, steps, n), w.message.secret, w.message.maxAttempts)
  {
    if n > 0 {
      RunKeepsInv(w, steps, n - 1);
      StepKeepsInv(Run(w, steps, n - 1), steps[n - 1], w.message.secret, w.message.maxAttempts);
    }
  }

  /** Lease safety in every interleaving, with crashes and late workers: the secret is intact
      while the message is pending or sending and gone once it is sent or dead-lettered; a sent
      message was accepted by the sender at least once, and a dead letter either failed for good
      or has used up its attempts. */
  lemma SecretAndDeliverySafety(w: World, steps: seq<Step>)
    requires Fresh(w) && EnabledRun(w, steps, |steps|)
    ensures var m := Run(w, steps, |steps|).message;
            && (m.status.Pending? || m.status.Sending? ==> m.secret == w.message.secret)
            && (m.status.Sent? || m.status.DeadLetter? ==> m.secret == None)
            && (m.status.Sent? ==> Run(w, steps, |steps|).accepted)
            && (m.status.DeadLetter? ==> Run(w, steps, |steps|).hopeless || m.attempts >= w.message.maxAttempts)
  {
    RunKeepsInv(w, steps, |steps|);
  }

  /** What a report does, in every interleaving: while the message is being sent it comes out as the
      trial of that claim says, and otherwise the report changes nothing. */
  lemma ReportDecides(w: World, steps: seq<Step>, i: nat)
    requires Fresh(w) && i < |steps| && EnabledRun(w, steps, i + 1) && steps[i].Report?
    ensures var before, after := Run(w, steps, i), Run(w, steps, i + 1);
            var trial := before.claims[steps[i].claim].phase.trial;
            && (before.message.status.Sending? ==>
                  CameOut(before.message, after.message, steps[i].claim + 1, trial, steps[i].now))
            && (!before.message.status.Sending? ==> after.message == before.message)
  {
    RunKeepsInv(w, steps, i);
    assert ClaimOk(Run(w, steps, i), steps[i].claim);
  }

  /** A trial that is waiting to be reported was made, by that claim. */
  lemma {:induction false} TrialWasMade(w: World, steps: seq<Step>, n: nat, i: nat)
    requires Fresh(w) && n <= |steps| && EnabledRun(w, steps, n)
    requires i < |Run(w, steps, n).claims| && Run(w, steps, n).claims[i].phase.Tried?
    ensures Try(i, Run(w, steps, n).claims[i].phase.trial) in steps[..n]
  {
    if n > 0 {
      assert steps[..n] == steps[..n - 1] + [steps[n - 1]];
      if i < |Run(w, steps, n - 1).claims| && Run(w, steps, n - 1).claims[i].phase.Tried? {
        TrialWasMade(w, steps, n - 1, i);
      }
    }
  }

  /** Step `k` reports this outcome while the message is being sent. */
  ghost predicate Decides(w: World, steps: seq<Step>, k: nat, outcome: Outcome) {
    && k < |steps| && EnabledRun(w, steps, k) && EnabledRun(w, steps, k + 1) && steps[k].Report?
    && Run(w, steps, k).message.status.Sending?
    && ComesTo(steps[k].claim + 1, w.message.maxAttempts, Run(w, steps, k).claims[steps[k].claim].phase.trial, outcome)
  }

  /** Only such a report ends a message. */
  lemma StepEnds(w: World, steps: seq<Step>, n: nat)
    requires Fresh(w) && n < |steps| && EnabledRun(w, steps, n + 1)
    ensures var before, after := Run(w, steps, n).message.status, Run(w, steps, n + 1).message.status;
            && (after.Sent? <==> before.Sent? || Decides(w, steps, n, Delivered))
            && (after.DeadLetter? <==> before.DeadLetter? || Decides(w, steps, n, GiveUp))
  {
    RunKeepsInv(w, steps, n);
    if steps[n].Report? { ReportDecides(w, steps, n); }
  }

  /** In every interleaving, a message is sent exactly when an accepted trial was reported while it was
      being sent, and a dead letter exactly when that happened to a trial that failed for good or for the
      last time. */
  lemma {:induction false} SentIff(w: World, steps: seq<Step>, n: nat)
    requires Fresh(w) && n <= |steps| && EnabledRun(w, steps, n)
    ensures Run(w, steps, n).message.status.Sent?
       <==> exists k {:trigger Decides(w, steps, k, Delivered)} :: 0 <= k < n && Decides(w, steps, k, Delivered)
    ensures Run(w, steps, n).message.status.DeadLetter?
       <==> exists k {:trigger Decides(w, steps, k, GiveUp)} :: 0 <= k < n && Decides(w, steps, k, GiveUp)
  {
    if n > 0 {
      SentIff(w, steps, n - 1);
      StepEnds(w, steps, n - 1);
    }
  }

  /** Sent and dead-lettered are final: the message never changes again. */
  lemma {:induction false} TerminalIsAbsorbing(w: World, steps: seq<Step>, n: nat, m: nat)
    requires n <= m <= |steps| && EnabledRun(w, steps, m) && EnabledRun(w, steps, n)
    requires Run(w, steps, n).message.status.Sent? || Run(w, steps, n).message.status.DeadLetter?
    ensures Run(w, steps, m).message == Run(w, steps, n).message
    decreases m
  {
    if n < m { TerminalIsAbsorbing(w, steps, n, m - 1); }
  }

  lemma {:induction false} RetriesAreEarly(w: World, n: nat, secret: Option<string>, maxAttempts: int)
    requires Inv(w, secret, maxAttempts) && n <= |w.claims|
    ensures Retries(w.claims, n) <= n
    ensures Retries(w.claims, n) <= if maxAttempts >= 1 then maxAttempts - 1 else 0
  {
    if n > 0 {
      RetriesAreEarly(w, n - 1, secret, maxAttempts);
      assert ClaimOk(w, n - 1);
    }
  }

  /** The configured maximum, but at least the one attempt that a fresh message gets. */
  function AttemptLimit(w: World): int {
    if w.message.maxAttempts >= 1 then w.message.maxAttempts else 1
  }

  /** Attempts are bounded in every interleaving: the configured maximum (at least one), plus
      one for every claim that took over an expired lease. */
  lemma AttemptsAreBounded(w: World, steps: seq<Step>)
    requires Fresh(w) && EnabledRun(w, steps, |steps|)
    ensures var after := Run(w, steps, |steps|);
            after.message.attempts <= AttemptLimit(w) + after.takeovers
  {
    RunKeepsInv(w, steps, |steps|);
    var after := Run(w, steps, |steps|);
    RetriesAreEarly(after, |after.claims|, w.message.secret, w.message.maxAttempts);
  }

  /** Step `k` claims a message whose attempts are used up: the claim has no guard against it. */
  ghost predicate TakesExhausted(w: World, steps: seq<Step>, k: nat) {
    k < |steps| && EnabledRun(w, steps, k) && steps[k].Take? && Run(w, steps, k).message.attempts >= AttemptLimit(w)
  }

  /** The maximum is exceeded exactly when a message is claimed whose attempts are used up. */
  lemma {:induction false} MaximumExceededIff(w: World, steps: seq<Step>, n: nat)
    requires Fresh(w) && n <= |steps| && EnabledRun(w, steps, n)
    ensures Run(w, steps, n).message.attempts > AttemptLimit(w)
       <==> exists k {:trigger TakesExhausted(w, steps, k)} :: 0 <= k < n && TakesExhausted(w, steps, k)
  {
    if n > 0 {
      MaximumExceededIff(w, steps, n - 1);
      assert TakesExhausted(w, steps, n - 1)
        <==> steps[n - 1].Take? && Run(w, steps, n - 1).message.attempts >= AttemptLimit(w);
    }
  }

  lemma {:induction false} RunOfExtended(w: World, steps: seq<Step>, s: Step, n: nat)
    requires n <= |steps| && EnabledRun(w, steps, n)
    ensures EnabledRun(w, steps + [s], n) && Run(w, steps + [s], n) == Run(w, steps, n)
  {
    if n > 0 { RunOfExtended(w, steps, s, n - 1); }
  }

  /** `steps` is a run from `w` to `after`. */
  ghost predicate Leads(w: World, steps: seq<Step>, after: World) {
    EnabledRun(w, steps, |steps|) && Run(w, steps, |steps|) == after
  }

  lemma OneMoreStep(w: World, steps: seq<Step>, before: World, s: Step)
    requires Leads(w, steps, before) && Enabled(before, s)
    ensures Leads(w, steps + [s], Next(before, s))
  {
    RunOfExtended(w, steps, s, |steps|);
  }

  function LaterOf(a: int, b: int): int {
    if a < b then b else a
  }

  /** A run of claims that all end in a recorded retry. */
  lemma {:induction false} RetriesUpTo(w: World, retries: nat) returns (steps: seq<Step>, after: World)
    requires Fresh(w) && retries < w.message.maxAttempts
    ensures Leads(w, steps, after)
    ensures after.message.status.Pending? && after.message.attempts == retries && after.takeovers == 0
    ensures after.message.maxAttempts == w.message.maxAttempts
  {
    if retries == 0 {
      return [], w;
    }
    var earlier, before := RetriesUpTo(w, retries - 1);
    var now, claim := LaterOf(before.clock, before.message.nextAttemptAt), |before.claims|;
    var taken := Next(before, Take(now));
    OneMoreStep(w, earlier, before, Take(now));
    var tried := Next(taken, Try(claim, RejectedForNow));
    OneMoreStep(w, earlier + [Take(now)], taken, Try(claim, RejectedForNow));
    OneMoreStep(w, earlier + [Take(now)] + [Try(claim, RejectedForNow)], tried, Report(claim, now));
    steps := earlier + [Take(now)] + [Try(claim, RejectedForNow)] + [Report(claim, now)];
    after := Next(tried, Report(claim, now));
  }

  /** The bound is met: for every maximum and every number of takeovers there is a run in which
      every one of them counts. */
  lemma {:induction false} BoundIsMet(w: World, takeovers: nat) returns (steps: seq<Step>, after: World)
    requires Fresh(w) && w.message.maxAttempts >= 1
    ensures Leads(w, steps, after) && after.takeovers == takeovers
    ensures after.message.attempts == w.message.maxAttempts + takeovers && after.message.status.Sending?
  {
    var earlier, before;
    if takeovers == 0 {
      earlier, before := RetriesUpTo(w, w.message.maxAttempts - 1);
    } else {
      earlier, before := BoundIsMet(w, takeovers - 1);
    }
    var now := LaterOf(before.clock, before.message.nextAttemptAt);
    OneMoreStep(w, earlier, before, Take(now));
    steps, after := earlier + [Take(now)], Next(before, Take(now));
  }

  /** Concretely: a single allowed attempt, one crash, and the takeover. */
  lemma CrashExceedsTheMaximum()
    ensures var w := World(Message(Pending, 0, 1, 0, None), [], false, false, 0, 0);
            var steps := [Take(0), Crash(0), Take(SENDING_LEASE)];
            EnabledRun(w, steps, 3) && Run(w, steps, 3).message.attempts == 2 > w.message.maxAttempts
  {
    var w := World(Message(Pending, 0, 1, 0, None), [], false, false, 0, 0);
    var steps := [Take(0), Crash(0), Take(SENDING_LEASE)];
    assert EnabledRun(w, steps, 0) && EnabledRun(w, steps, 1);
    assert Run(w, steps, 1) == Next(w, steps[0]);
    assert EnabledRun(w, steps, 2) && EnabledRun(w, steps, 3);
  }

  // ---------------------------------------------------------------- leases

  predicate NoReport(steps: seq<Step>, from: nat, to: nat)
    requires from <= to <= |steps|
  {
    forall k :: from <= k < to ==> !steps[k].Report?
  }

  lemma {:induction false} EnabledPrefix(w: World, steps: seq<Step>, n: nat, m: nat)
    requires n <= m <= |steps| && EnabledRun(w, steps, m)
    ensures EnabledRun(w, steps, n)
    decreases m
  {
    if n < m { EnabledPrefix(w, steps, n, m - 1); }
  }

  /** While nothing is recorded, a claimed message stays under a lease at least as long. */
  lemma {:induction false} LeaseHolds(w: World, steps: seq<Step>, i: nat, n: nat, now: int)
    requires i < n <= |steps| && EnabledRun(w, steps, n) && steps[i] == Take(now)
    requires NoReport(steps, i + 1, n)
    ensures Run(w, steps, n).message.status.Sending? && Run(w, steps, n).message.nextAttemptAt >= now + SENDING_LEASE
    ensures Run(w, steps, n).clock >= now
    decreases n
  {
    if n > i + 1 {
      LeaseHolds(w, steps, i, n - 1, now);
    }
  }

  /** Two claims of one message with nothing recorded between them are at least the lease apart. */
  lemma ClaimsAreALeaseApart(w: World, steps: seq<Step>, i: nat, j: nat)
    requires i < j < |steps| && EnabledRun(w, steps, |steps|)
    requires steps[i].Take? && steps[j].Take? && NoReport(steps, i + 1, j)
    ensures steps[j].now - steps[i].now >= 300_000_000
  {
    EnabledPrefix(w, steps, j + 1, |steps|);
    LeaseHolds(w, steps, i, j, steps[i].now);
  }

  /** After a retry is recorded, and until the next claim, the message is pending and not due
      before its delay is over. */
  lemma {:induction false} RetryIsPending(w: World, steps: seq<Step>, i: nat, n: nat)
    requires i < n <= |steps| && EnabledRun(w, steps, n) && EnabledRun(w, steps, i) && EnabledRun(w, steps, i + 1)
    requires steps[i].Report? && Run(w, steps, i + 1).claims[steps[i].claim].phase.Retried?
    requires forall k :: i < k < n ==> !steps[k].Take?
    ensures var m := Run(w, steps, n).message;
            && m.status.Pending?
            && m.nextAttemptAt
               == steps[i].now + BackoffSeconds(Run(w, steps, i).claims[steps[i].claim].ticket.attempts) * SECOND
    decreases n
  {
    if n > i + 1 {
      RetryIsPending(w, steps, i, n - 1);
    }
  }

  /** The claim that follows a recorded retry comes no sooner than the delay of its attempt. */
  lemma RetriesWait(w: World, steps: seq<Step>, i: nat, j: nat)
    requires i < j < |steps| && EnabledRun(w, steps, |steps|)
    requires EnabledRun(w, steps, i) && EnabledRun(w, steps, i + 1)
    requires steps[i].Report? && Run(w, steps, i + 1).claims[steps[i].claim].phase.Retried?
    requires steps[j].Take? && forall k :: i < k < j ==> !steps[k].Take?
    ensures steps[j].now - steps[i].now
         >= BackoffSeconds(Run(w, steps, i).claims[steps[i].claim].ticket.attempts) * 1_000_000
  {
    EnabledPrefix(w, steps, j + 1, |steps|);
    RetryIsPending(w, steps, i, j);
  }
}
