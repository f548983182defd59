/** Runs of the whole ingestion pipeline: ingest batches, worker batches, lost transactions,
    messages put back into the queue, and trip sweeps, in any order. */
module PipelineRuns {
  import opened BatchIsolation
  import opened ExactlyOnce
  import opened Ingestion
  import opened Outbox
  import opened OutboxWorker
  import SafetyEngine
  import Trips

  // ---------------------------------------------------------------- what commits keep

  /** Attempts stay below the maximum until the event is a dead letter, and a done message of an
      ingest row leaves that row no longer accepted. */
  predicate MessageOk(rows: seq<IngestRow>, e: OutboxEvent) {
    && e.attempts <= MAX_ATTEMPTS && (e.status.DeadLetter? <==> e.attempts == MAX_ATTEMPTS)
    && (e.kind.IngestAccepted? ==> e.kind.row < |rows| && (e.status.Done? ==> !rows[e.kind.row].status.Accepted?))
  }

  ghost predicate MessagesOk(rows: seq<IngestRow>, outbox: seq<OutboxEvent>) {
    forall i {:trigger outbox[i]} :: 0 <= i < |outbox| ==> MessageOk(rows, outbox[i])
  }

  ghost predicate HasMessage(outbox: seq<OutboxEvent>, row: nat) {
    exists i :: 0 <= i < |outbox| && outbox[i].kind == IngestAccepted(row)
  }

  /** Every accepted row has a message. */
  ghost predicate RowsAnnounced(rows: seq<IngestRow>, outbox: seq<OutboxEvent>) {
    forall r: nat {:trigger HasMessage(outbox, r)} :: r < |rows| && rows[r].status.Accepted? ==> HasMessage(outbox, r)
  }

  /** The safety events announced by the first `n` messages, in order. */
  function SafetyIds(outbox: seq<OutboxEvent>, n: nat): seq<nat>
    requires n <= |outbox|
  {
    if n == 0 then []
    else
      var before := SafetyIds(outbox, n - 1);
      if outbox[n - 1].kind.SafetyCreated? then before + [outbox[n - 1].kind.event] else before
  }

  ghost predicate SystemOk(rules: Rules, sys: System) {
    && BusinessOk(rules, sys.business)
    && MessagesOk(sys.business.rows, sys.outbox)
    && RowsAnnounced(sys.business.rows, sys.outbox)
    && SafetyIds(sys.outbox, |sys.outbox|) == sys.business.safety.published
  }

  predicate NoneProcessing(outbox: seq<OutboxEvent>) {
    forall i {:trigger outbox[i]} :: 0 <= i < |outbox| ==> !outbox[i].status.Processing?
  }

  // ---------------------------------------------------------------- changing the outbox

  ghost predicate SameKinds(before: seq<OutboxEvent>, after: seq<OutboxEvent>) {
    |before| <= |after| && forall i {:trigger after[i]} :: 0 <= i < |before| ==> after[i].kind == before[i].kind
  }

  lemma {:induction false} SafetyIdsByKinds(before: seq<OutboxEvent>, after: seq<OutboxEvent>, n: nat)
    requires SameKinds(before, after) && n <= |before|
    ensures SafetyIds(after, n) == SafetyIds(before, n)
  {
    if n > 0 {
      SafetyIdsByKinds(before, after, n - 1);
      assert after[n - 1].kind == before[n - 1].kind;
    }
  }

  lemma HasMessageByKinds(before: seq<OutboxEvent>, after: seq<OutboxEvent>, row: nat)
    requires SameKinds(before, after) && HasMessage(before, row)
    ensures HasMessage(after, row)
  {
    var i :| 0 <= i < |before| && before[i].kind == IngestAccepted(row);
    assert after[i].kind == IngestAccepted(row);
  }

  lemma {:induction false} SafetyIdsOfMessages(outbox: seq<OutboxEvent>, events: seq<nat>, now: int, n: nat)
    requires n <= |events|
    ensures SafetyIds(outbox + Messages(events, now), |outbox| + n) == SafetyIds(outbox, |outbox|) + events[..n]
  {
    var after := outbox + Messages(events, now);
    if n == 0 {
      SafetyIdsByKinds(outbox, after, |outbox|);
    } else {
      SafetyIdsOfMessages(outbox, events, now, n - 1);
      assert after[|outbox| + n - 1] == Published(SafetyCreated(events[n - 1]), now);
    }
  }

  lemma {:induction false} SafetyIdsOfAnnouncements(outbox: seq<OutboxEvent>, rows: seq<nat>, now: int, n: nat)
    requires n <= |rows|
    ensures SafetyIds(outbox + Announcements(rows, now), |outbox| + n) == SafetyIds(outbox, |outbox|)
  {
    var after := outbox + Announcements(rows, now);
    if n == 0 {
      SafetyIdsByKinds(outbox, after, |outbox|);
    } else {
      SafetyIdsOfAnnouncements(outbox, rows, now, n - 1);
      assert after[|outbox| + n - 1] == Published(IngestAccepted(rows[n - 1]), now);
    }
  }

  /** Replacing a message by one of the same kind that is in order keeps everything. */
  lemma UpdateKeeps(rules: Rules, sys: System, id: nat, e: OutboxEvent)
    requires SystemOk(rules, sys) && id < |sys.outbox|
    requires e.kind == sys.outbox[id].kind && MessageOk(sys.business.rows, e)
    ensures SystemOk(rules, sys.(outbox := sys.outbox[id := e]))
  {
    var after := sys.outbox[id := e];
    SafetyIdsByKinds(sys.outbox, after, |after|);
    forall r: nat | r < |sys.business.rows| && sys.business.rows[r].status.Accepted? ensures HasMessage(after, r) {
      assert HasMessage(sys.outbox, r);
      HasMessageByKinds(sys.outbox, after, r);
    }
  }

  // ---------------------------------------------------------------- worker batches

  lemma {:induction false} ClaimKeeps(rules: Rules, sys: System, ids: seq<nat>, n: nat)
    requires SystemOk(rules, sys) && n <= |ids|
    requires forall k :: 0 <= k < |ids| ==> ids[k] < |sys.outbox| && !sys.outbox[ids[k]].status.DeadLetter?
    ensures SystemOk(rules, sys.(outbox := AllClaimed(sys.outbox, ids, n)))
  {
    if n > 0 {
      ClaimKeeps(rules, sys, ids, n - 1);
      var before := AllClaimed(sys.outbox, ids, n - 1);
      ClaimedRow(sys.outbox, ids, n - 1, ids[n - 1]);
      assert MessageOk(sys.business.rows, sys.outbox[ids[n - 1]]);
      UpdateKeeps(rules, sys.(outbox := before), ids[n - 1], before[ids[n - 1]].(status := Processing));
    }
  }

  /** The messages after a success: the dispatched one done, those of new safety events appended. */
  lemma SuccessKeeps(rules: Rules, sys: System, id: nat, after: Business, now: int)
    requires SystemOk(rules, sys) && id < |sys.outbox| && sys.outbox[id].status.Processing?
    requires GoodStep(rules, sys.business, sys.outbox[id].kind, after)
    ensures SystemOk(rules, System(after, sys.outbox[id := sys.outbox[id].(status := Done)]
                                          + Messages(NewlyPublished(sys.business, after), now)))
  {
    var events := NewlyPublished(sys.business, after);
    var done := sys.outbox[id := sys.outbox[id].(status := Done)];
    var outbox := done + Messages(events, now);
    SafetyIdsByKinds(sys.outbox, done, |done|);
    SafetyIdsOfMessages(done, events, now, |events|);
    assert after.safety.published == sys.business.safety.published + events;
    forall i | 0 <= i < |outbox| ensures MessageOk(after.rows, outbox[i]) {
      if i < |sys.outbox| { MessageMovesOn(sys, id, after, i); }
    }
    forall r: nat | r < |after.rows| && after.rows[r].status.Accepted? ensures HasMessage(outbox, r) {
      assert MovesOn(sys.business.rows[r], after.rows[r]);
      assert HasMessage(sys.outbox, r);
      HasMessageByKinds(sys.outbox, outbox, r);
    }
  }

  lemma MessageMovesOn(sys: System, id: nat, after: Business, i: nat)
    requires MessagesOk(sys.business.rows, sys.outbox) && id < |sys.outbox| && i < |sys.outbox|
    requires sys.outbox[id].status.Processing? && RowsMoveOn(sys.business.rows, after.rows)
    requires var kind := sys.outbox[id].kind;
             kind.IngestAccepted? && kind.row < |sys.business.rows| ==> !after.rows[kind.row].status.Accepted?
    ensures MessageOk(after.rows, if i == id then sys.outbox[i].(status := Done) else sys.outbox[i])
  {
    var e := sys.outbox[i];
    assert MessageOk(sys.business.rows, e);
    if e.kind.IngestAccepted? {
      assert MovesOn(sys.business.rows[e.kind.row], after.rows[e.kind.row]);
    }
  }

  lemma DispatchKeeps(rules: Rules, handler: Handler, registry: Registry, sys: System, id: nat, trial: Trial, now: int)
    requires SystemOk(rules, sys) && id < |sys.outbox| && sys.outbox[id].status.Processing?
    requires var handling := handler(registry, sys.business, sys.outbox[id].kind);
             handling.Success? ==> GoodStep(rules, sys.business, sys.outbox[id].kind, handling.after)
    ensures SystemOk(rules, AfterDispatch(handler, registry, sys, id, trial, now))
  {
    var e := sys.outbox[id];
    match Attempt(handler, registry, sys.business, e.kind, trial.fault) {
      case Success(after) => SuccessKeeps(rules, sys, id, after, now);
      case Failure =>
        assert MessageOk(sys.business.rows, e);
        UpdateKeeps(rules, sys, id, Failed(e, trial.at));
    }
  }

  lemma HandlerIsGood(rules: Rules, registry: Registry, b: Business, kind: Kind)
    requires BusinessOk(rules, b)
    ensures var handling := HandlerOf(rules)(registry, b, kind);
            handling.Success? ==> GoodStep(rules, b, kind, handling.after)
  {
    if Handled(rules, registry, b, kind).Success? { HandledIsGood(rules, registry, b, kind); }
  }

  lemma NextDispatchKeeps(rules: Rules, handler: Handler, sys: System, b: Batch, k: nat, before: System)
    requires handler == HandlerOf(rules)
    requires Claims(b, sys.outbox) && k < |b.ids|
    requires before == AfterDispatches(handler, sys, b, k) && SystemOk(rules, before)
    ensures SystemOk(rules, AfterDispatch(handler, b.registry, before, b.ids[k], b.trials[k], b.now))
  {
    ClaimedRowWaits(handler, sys, b, k);
    HandlerIsGood(rules, b.registry, before.business, before.outbox[b.ids[k]].kind);
    DispatchKeeps(rules, handler, b.registry, before, b.ids[k], b.trials[k], b.now);
  }

  lemma {:induction false} DispatchesKeep(rules: Rules, handler: Handler, sys: System, b: Batch, n: nat)
    requires handler == HandlerOf(rules)
    requires SystemOk(rules, sys) && Claims(b, sys.outbox) && n <= |b.ids|
    ensures SystemOk(rules, AfterDispatches(handler, sys, b, n))
  {
    if n == 0 {
      ClaimKeeps(rules, sys, b.ids, |b.ids|);
    } else {
      DispatchesKeep(rules, handler, sys, b, n - 1);
      NextDispatchKeeps(rules, handler, sys, b, n - 1, AfterDispatches(handler, sys, b, n - 1));
    }
  }

  /** Rows appended during a batch are fresh messages, which the batch does not touch again. */
  lemma {:induction false} AppendedAreFresh(handler: Handler, sys: System, b: Batch, n: nat, i: nat)
    requires Fits(b, sys.outbox) && n <= |b.ids|
    requires |sys.outbox| <= i < |AfterDispatches(handler, sys, b, n).outbox|
    ensures var e := AfterDispatches(handler, sys, b, n).outbox[i];
            e.kind.SafetyCreated? && e == Published(e.kind, b.now)
  {
    if n > 0 && i < |AfterDispatches(handler, sys, b, n - 1).outbox| {
      AppendedAreFresh(handler, sys, b, n - 1, i);
    }
  }

  lemma NoneLeftProcessing(handler: Handler, sys: System, b: Batch)
    requires Claims(b, sys.outbox) && NoneProcessing(sys.outbox)
    ensures NoneProcessing(AfterBatch(handler, sys, b).outbox)
  {
    var after := AfterBatch(handler, sys, b).outbox;
    forall i | 0 <= i < |after| ensures !after[i].status.Processing? {
      if i < |sys.outbox| {
        BatchRows(handler, sys, b, i);
        if Among(b.ids, |b.ids|, i) {
          var k :| 0 <= k < |b.ids| && b.ids[k] == i;
          assert after[i] == if Succeeds(handler, sys, b, k) then sys.outbox[i].(status := Done)
                             else Failed(sys.outbox[i], b.trials[k].at);
        }
      } else {
        AppendedAreFresh(handler, sys, b, |b.ids|, i);
      }
    }
  }

  // ---------------------------------------------------------------- ingest batches and sweeps

  function KnownTo(registry: Registry, organization: nat): set<string> {
    set name | name in registry && name.organization == organization :: name.externalId
  }

  /** A vehicle is known to the ingestion of an organization exactly when it is registered there. */
  lemma KnownIff(registry: Registry, organization: nat, name: string)
    ensures name in KnownTo(registry, organization) <==> VehicleName(organization, name) in registry
  {
    if VehicleName(organization, name) in registry {
      assert VehicleName(organization, name).externalId == name;
    }
  }

  function AfterIngest(sys: System, src: DataSource, raws: seq<Raw>, registry: Registry, now: int): System {
    var known := KnownTo(registry, src.organization);
    if !AllStorable(src, raws, |raws|, known, now) then sys
    else
      var after := Ingestion.AfterEvents(Intake(sys.business.rows, sys.outbox), src, raws, |raws|, known, now);
      System(sys.business.(rows := after.rows), after.outbox)
  }

  /** A batch with one event that the database refuses is rolled back with every good event in it. */
  lemma RefusedBatchIsLost(sys: System, src: DataSource, raws: seq<Raw>, registry: Registry, now: int, i: nat)
    requires i < |raws| && !Keepable(raws[i])
    ensures AfterIngest(sys, src, raws, registry, now) == sys
  {
    BatchGoesThroughIff(src, raws, KnownTo(registry, src.organization), now);
  }

  lemma {:induction false} AcceptedListed(rows: seq<IngestRow>, from: nat, to: nat, r: nat)
    requires from <= r < to <= |rows| && rows[r].status.Accepted?
    ensures r in AcceptedRows(rows, from, to)
  {
    if r < to - 1 { AcceptedListed(rows, from, to - 1, r); }
  }

  lemma {:induction false} ListedAreRows(rows: seq<IngestRow>, from: nat, to: nat)
    requires from <= to <= |rows|
    ensures forall i :: 0 <= i < |AcceptedRows(rows, from, to)| ==> AcceptedRows(rows, from, to)[i] < to
  {
    if from < to { ListedAreRows(rows, from, to - 1); }
  }

  /** New rows, all accepted or quarantined, and one message for each accepted one. */
  lemma AnnouncedKeeps(rules: Rules, sys: System, intake: Intake, after: Intake, count: nat, now: int)
    requires SystemOk(rules, sys) && intake == Intake(sys.business.rows, sys.outbox)
    requires Announced(intake, after, count, now) && KeysUnique(after.rows)
    ensures SystemOk(rules, System(sys.business.(rows := after.rows), after.outbox))
  {
    var rows, ids := sys.business.rows, AcceptedRows(after.rows, |intake.rows|, |after.rows|);
    forall i | 0 <= i < |after.rows| ensures !after.rows[i].status.InProcess? {
      if i < |rows| { assert after.rows[i] == rows[i]; }
    }
    PlacedWithoutPoint(rows, after.rows, sys.business.fleet);
    SafetyIdsOfAnnouncements(sys.outbox, ids, now, |ids|);
    ListedAreRows(after.rows, |rows|, |after.rows|);
    forall i | 0 <= i < |after.outbox| ensures MessageOk(after.rows, after.outbox[i]) {
      if i < |sys.outbox| {
        assert MessageOk(rows, sys.outbox[i]);
      } else {
        assert after.outbox[i] == Published(IngestAccepted(ids[i - |sys.outbox|]), now);
      }
    }
    forall r: nat | r < |after.rows| && after.rows[r].status.Accepted? ensures HasMessage(after.outbox, r) {
      AnnouncedRow(sys, intake, after, count, now, r);
    }
  }

  lemma AnnouncedRow(sys: System, intake: Intake, after: Intake, count: nat, now: int, r: nat)
    requires intake == Intake(sys.business.rows, sys.outbox) && RowsAnnounced(intake.rows, intake.outbox)
    requires Announced(intake, after, count, now) && r < |after.rows| && after.rows[r].status.Accepted?
    ensures HasMessage(after.outbox, r)
  {
    if r < |intake.rows| {
      assert HasMessage(intake.outbox, r);
      HasMessageByKinds(intake.outbox, after.outbox, r);
    } else {
      var ids := AcceptedRows(after.rows, |intake.rows|, |after.rows|);
      AcceptedListed(after.rows, |intake.rows|, |after.rows|, r);
      var i :| 0 <= i < |ids| && ids[i] == r;
      assert after.outbox[|intake.outbox| + i].kind == IngestAccepted(r);
    }
  }

  lemma IngestKeeps(rules: Rules, sys: System, src: DataSource, raws: seq<Raw>, registry: Registry, now: int)
    requires SystemOk(rules, sys)
    ensures SystemOk(rules, AfterIngest(sys, src, raws, registry, now))
    ensures NoneProcessing(sys.outbox) ==> NoneProcessing(AfterIngest(sys, src, raws, registry, now).outbox)
  {
    var known := KnownTo(registry, src.organization);
    var intake := Intake(sys.business.rows, sys.outbox);
    var after := Ingestion.AfterEvents(intake, src, raws, |raws|, known, now);
    var count := HowMany(Outcomes(intake, src, raws, |raws|, known, now), (o: Outcome) => o.IsAccepted?, |raws|);
    AcceptedRowsAreAnnounced(intake, src, raws, |raws|, known, now);
    BatchAppends(intake, src, raws, |raws|, known, now);
    AnnouncedKeeps(rules, sys, intake, after, count, now);
  }

  function AfterSweep(b: Business, now: int): Business {
    b.(fleet := map v | v in b.fleet :: Trips.Swept(b.fleet[v], now))
  }

  lemma SweepKeeps(rules: Rules, b: Business, now: int)
    requires BusinessOk(rules, b)
    ensures BusinessOk(rules, AfterSweep(b, now))
  {
    var after := AfterSweep(b, now);
    forall v | v in after.fleet ensures Trips.Valid(rules.metric, after.fleet[v]) {
      Trips.SweptKeepsValid(rules.metric, b.fleet[v], now);
    }
    forall row: nat ensures Placed(b.rows, after.fleet, row) {
      assert Placed(b.rows, b.fleet, row);
      if IsPointRow(b.rows, row) {
        var v :| OnlyOn(b.fleet, row, v);
        assert OnlyOn(after.fleet, row, v);
      }
    }
  }

  // ---------------------------------------------------------------- runs

  datatype Step =
    | Ingest(src: DataSource, raws: seq<Raw>, registry: Registry, at: int)  // a request with a batch of events
    | Work(batch: Batch)                                                   // a committed worker batch
    | Lost                                                                 // any transaction that never commits
    | Requeue(id: nat, at: int)                                            // a message put back by an operator
    | SweepTrips(at: int)                                                  // the scheduler closes stale trips

  ghost predicate Enabled(sys: System, s: Step) {
    match s
    case Work(b) => Claims(b, sys.outbox)
    case Requeue(id, _) => id < |sys.outbox|
    case _ => true
  }

  function Next(rules: Rules, sys: System, s: Step): System
    requires Enabled(sys, s)
  {
    match s
    case Ingest(src, raws, registry, at) => AfterIngest(sys, src, raws, registry, at)
    case Work(b) => AfterBatch(HandlerOf(rules), sys, b)
    case Lost => sys
    case Requeue(id, at) =>
      sys.(outbox := sys.outbox[id := sys.outbox[id].(status := Pending, attempts := 0, nextAttemptAt := at)])
    case SweepTrips(at) => sys.(business := AfterSweep(sys.business, at))
  }

  const START := System(Business([], map[], SafetyEngine.EMPTY, []), [])

  ghost predicate EnabledRun(rules: Rules, steps: seq<Step>, n: nat)
    requires n <= |steps|
    decreases n, 0
  {
    n == 0 || (EnabledRun(rules, steps, n - 1) && Enabled(Run(rules, steps, n - 1), steps[n - 1]))
  }

  ghost function Run(rules: Rules, steps: seq<Step>, n: nat): System
    requires n <= |steps| && EnabledRun(rules, steps, n)
    decreases n, 1
  {
    if n == 0 then START else Next(rules, Run(rules, steps, n - 1), steps[n - 1])
  }

  lemma StepKeeps(rules: Rules, sys: System, s: Step)
    requires SystemOk(rules, sys) && NoneProcessing(sys.outbox) && Enabled(sys, s)
    ensures SystemOk(rules, Next(rules, sys, s)) && NoneProcessing(Next(rules, sys, s).outbox)
  {
    match s {
      case Ingest(src, raws, registry, at) => IngestKeeps(rules, sys, src, raws, registry, at);
      case Work(b) =>
        DispatchesKeep(rules, HandlerOf(rules), sys, b, |b.ids|);
        NoneLeftProcessing(HandlerOf(rules), sys, b);
      case Lost =>
      case Requeue(id, at) =>
        assert MessageOk(sys.business.rows, sys.outbox[id]);
        UpdateKeeps(rules, sys, id, sys.outbox[id].(status := Pending, attempts := 0, nextAttemptAt := at));
      case SweepTrips(at) => SweepKeeps(rules, sys.business, at);
    }
  }

  lemma StartIsOk(rules: Rules)
    ensures SystemOk(rules, START) && NoneProcessing(START.outbox)
  {
    forall row: nat ensures Placed([], map[], row) {}
  }

  lemma {:induction false} RunIsOk(rules: Rules, steps: seq<Step>, n: nat)
    requires n <= |steps| && EnabledRun(rules, steps, n)
    ensures SystemOk(rules, Run(rules, steps, n)) && NoneProcessing(Run(rules, steps, n).outbox)
  {
    if n == 0 {
      StartIsOk(rules);
    } else {
      RunIsOk(rules, steps, n - 1);
      StepKeeps(rules, Run(rules, steps, n - 1), steps[n - 1]);
    }
  }

  // ---------------------------------------------------------------- what holds in every run

  /** Exactly once: in every run a processed position row has one telemetry point on one vehicle's
      trips, every other row has none, and trip point counts add up to the points. */
  lemma PointsExactlyOnce(rules: Rules, steps: seq<Step>, row: nat)
    requires EnabledRun(rules, steps, |steps|)
    ensures var b := Run(rules, steps, |steps|).business;
            && (IsPointRow(b.rows, row) ==> exists v :: OnlyOn(b.fleet, row, v))
            && (!IsPointRow(b.rows, row) ==> Absent(b.fleet, row))
            && (forall v {:trigger b.fleet[v]} :: v in b.fleet ==>
                  TripPoints(b.fleet[v].trips, |b.fleet[v].trips|) == |b.fleet[v].points|)
  {
    RunIsOk(rules, steps, |steps|);
    var b := Run(rules, steps, |steps|).business;
    assert Placed(b.rows, b.fleet, row);
    forall v {:trigger b.fleet[v]} | v in b.fleet
      ensures TripPoints(b.fleet[v].trips, |b.fleet[v].trips|) == |b.fleet[v].points|
    {
      TripCountsAddUp(rules, b.fleet[v]);
    }
  }

  /** Nothing accepted is forgotten: in every run an accepted row still has a message that will be
      tried again, or that is a dead letter for an operator to put back. */
  lemma AcceptedRowsAreRemembered(rules: Rules, steps: seq<Step>, row: nat)
    requires EnabledRun(rules, steps, |steps|)
    requires row < |Run(rules, steps, |steps|).business.rows|
    requires Run(rules, steps, |steps|).business.rows[row].status.Accepted?
    ensures var outbox := Run(rules, steps, |steps|).outbox;
            exists i :: 0 <= i < |outbox| && outbox[i].kind == IngestAccepted(row)
                        && (outbox[i].status.Pending? || outbox[i].status.DeadLetter?)
  {
    RunIsOk(rules, steps, |steps|);
    var sys := Run(rules, steps, |steps|);
    assert HasMessage(sys.outbox, row);
    var i :| 0 <= i < |sys.outbox| && sys.outbox[i].kind == IngestAccepted(row);
    assert MessageOk(sys.business.rows, sys.outbox[i]);
  }

  /** Every stored safety event is announced by one message of its own, and one natural key is
      stored once; no commit leaves a row or a message half processed. */
  lemma SafetyEventsAnnouncedOnce(rules: Rules, steps: seq<Step>)
    requires EnabledRun(rules, steps, |steps|)
    ensures var sys := Run(rules, steps, |steps|);
            && SafetyIds(sys.outbox, |sys.outbox|) == seq(|sys.business.safety.events|, i => i)
            && KeysUnique(sys.business.rows)
            && NoneInProcess(sys.business.rows) && NoneProcessing(sys.outbox)
  {
    RunIsOk(rules, steps, |steps|);
  }
}
