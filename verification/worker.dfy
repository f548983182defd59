/** The outbox worker: a batch of due events is claimed, each event is dispatched inside its own
    savepoint, and failures are retried with growing delays until they are dead letters. */
module OutboxWorker {
  import opened Geography
  import opened Options
  import opened Outbox
  import opened Ingestion
  import opened Powers
  import SafetyEngine
  import Trips

  const MAX_ATTEMPTS := 8
  const BATCH := 50
  const SECOND := 1_000_000
  const MAX_BACKOFF_SECONDS := 300

  datatype VehicleName = VehicleName(organization: nat, externalId: string)

  /** The registered vehicles and their ids. */
  type Registry = map<VehicleName, nat>

  datatype Rules = Rules(metric: Metric, thresholds: nat -> SafetyEngine.Thresholds)

  /** Everything handlers change: ingest rows, the telemetry of every vehicle, the safety events,
      and the safety events whose notifications were produced. */
  datatype Business = Business(rows: seq<IngestRow>, fleet: map<nat, Trips.Log>, safety: SafetyEngine.Store,
                               notified: seq<nat>)

  datatype Handling = Success(after: Business) | Failure

  // ---------------------------------------------------------------- handlers

  function LogOf(fleet: map<nat, Trips.Log>, vehicle: nat): Trips.Log {
    if vehicle in fleet then fleet[vehicle] else Trips.EMPTY
  }

  function ReadingOf(e: Envelope, t: Telemetry, row: nat): Trips.Reading {
    Trips.Reading(e.occurredAt, t.position, t.speedKph, row)
  }

  function SampleOf(t: Telemetry): SafetyEngine.Sample {
    SafetyEngine.Sample(t.speedKph, t.acceleration, t.lateral)
  }

  function WithStatus(b: Business, row: nat, status: RowStatus): Business
    requires row < |b.rows|
  {
    b.(rows := b.rows[row := b.rows[row].(status := status)])
  }

  /** A position of a known vehicle: one telemetry point on its trips, and the safety events of its hits. */
  function PositionHandled(rules: Rules, b: Business, row: nat, vehicle: nat, e: Envelope, t: Telemetry): Handling
    requires row < |b.rows|
  {
    var log := Trips.Processed(rules.metric, LogOf(b.fleet, vehicle), ReadingOf(e, t, row));
    match SafetyEngine.RuleHits(SampleOf(t), rules.thresholds(b.rows[row].organization))
    case DivisionByZero => Failure
    case Hits(hits) =>
      var ctx := SafetyEngine.PointContext(b.rows[row].organization, vehicle, e.occurredAt);
      Success(WithStatus(b, row, Processed).(fleet := b.fleet[vehicle := log],
                                            safety := SafetyEngine.AfterHits(b.safety, ctx, hits, |hits|)))
  }

  /** Only an accepted row is processed; any other status makes the message a replay. */
  function RowHandled(rules: Rules, registry: Registry, b: Business, row: nat): Handling
    requires row < |b.rows|
  {
    var r := b.rows[row];
    if !r.status.Accepted? then Success(b)
    else if r.envelope.None? then Failure
    else
      match r.envelope.value.payload
      case NotAPosition => Success(WithStatus(b, row, Processed))
      case InvalidPosition(_) => Failure
      case ValidPosition(t) =>
        var name := VehicleName(r.organization, r.envelope.value.vehicle);
        if name !in registry then Success(WithStatus(b, row, Quarantined(UnknownVehicle)))
        else PositionHandled(rules, b, row, registry[name], r.envelope.value, t)
  }

  function Handled(rules: Rules, registry: Registry, b: Business, kind: Kind): Handling {
    match kind
    case IngestAccepted(row) => if row < |b.rows| then RowHandled(rules, registry, b, row) else Success(b)
    case SafetyCreated(event) => Success(b.(notified := b.notified + [event]))
    case Unknown => Success(b)
  }

  /** What batches need to know of the handlers. */
  type Handler = (Registry, Business, Kind) -> Handling

  function HandlerOf(rules: Rules): Handler {
    (registry, b, kind) => Handled(rules, registry, b, kind)
  }

  /** Where a handler is struck by an error of its own or of the database, if at all. */
  datatype Fault = NoFault | Early | Midway | Late

  function Attempt(handler: Handler, registry: Registry, b: Business, kind: Kind, fault: Fault): Handling {
    if fault.NoFault? then handler(registry, b, kind) else Failure
  }

  // ---------------------------------------------------------------- batches

  datatype System = System(business: Business, outbox: seq<OutboxEvent>)

  /** How the dispatch of one claimed event goes, and the clock when a failure is recorded. */
  datatype Trial = Trial(fault: Fault, at: int)

  /** One transaction of a worker at instant `now`: the rows it claims, the fleet as registered
      then, and how each dispatch goes. */
  datatype Batch = Batch(registry: Registry, ids: seq<nat>, trials: seq<Trial>, now: int)

  predicate Due(e: OutboxEvent, now: int) {
    (e.status.Pending? || e.status.Processing?) && e.nextAttemptAt <= now
  }

  predicate Fits(b: Batch, outbox: seq<OutboxEvent>) {
    |b.ids| == |b.trials| && forall k :: 0 <= k < |b.ids| ==> b.ids[k] < |outbox|
  }

  /** A claim takes some due rows that no other worker holds, at most a batch of them. */
  ghost predicate Claims(b: Batch, outbox: seq<OutboxEvent>) {
    && Fits(b, outbox) && |b.ids| <= BATCH
    && (forall k :: 0 <= k < |b.ids| ==> Due(outbox[b.ids[k]], b.now))
    && (forall j, k :: 0 <= j < k < |b.ids| ==> b.ids[j] != b.ids[k])
  }

  function BackoffSeconds(attempts: nat): nat {
    if PowerOfTwo(attempts) < MAX_BACKOFF_SECONDS then PowerOfTwo(attempts) else MAX_BACKOFF_SECONDS
  }

  function Failed(e: OutboxEvent, at: int): OutboxEvent {
    var attempts := e.attempts + 1;
    if attempts >= MAX_ATTEMPTS then e.(attempts := attempts, status := DeadLetter)
    else e.(attempts := attempts, status := Pending, nextAttemptAt := at + BackoffSeconds(attempts) * SECOND)
  }

  /** A failure counts one attempt and keeps what the event is about. The event is retried after 2, 4,
      ... 128 seconds, and not before; its eighth failure makes it a dead letter, so that the cap of 300
      seconds never matters. */
  lemma RetryDelays(e: OutboxEvent, at: int, now: int)
    ensures Failed(e, at).kind == e.kind && Failed(e, at).attempts == e.attempts + 1
    ensures e.attempts + 1 < 8 ==>
      && Failed(e, at).status.Pending?
      && (Due(Failed(e, at), now) <==> now >= at + PowerOfTwo(e.attempts + 1) * 1_000_000)
      && 2 <= PowerOfTwo(e.attempts + 1) <= 128
    ensures e.attempts + 1 >= 8 ==> Failed(e, at).status.DeadLetter? && !Due(Failed(e, at), now)
  {
    if e.attempts + 1 < 8 {
      PowerOfTwoGrows(1, e.attempts + 1);
      PowerOfTwoGrows(e.attempts + 1, 7);
      assert PowerOfTwo(3) == 8;
      assert PowerOfTwo(5) == 32;
      assert PowerOfTwo(7) == 128;
    }
  }

  /** A new message is due from the instant of its transaction on. */
  lemma NewMessageIsDue(kind: Kind, at: int, now: int)
    ensures Published(kind, at).kind == kind && Published(kind, at).attempts == 0
    ensures Due(Published(kind, at), now) <==> now >= at
  {}

  function Messages(events: seq<nat>, now: int): seq<OutboxEvent> {
    seq(|events|, i requires 0 <= i < |events| => Published(SafetyCreated(events[i]), now))
  }

  /** The safety events published between two states. */
  function NewlyPublished(before: Business, after: Business): seq<nat> {
    if |before.safety.published| <= |after.safety.published|
    then after.safety.published[|before.safety.published|..] else []
  }

  /** One claimed event dispatched and settled; `now` is the instant of the transaction. */
  function AfterDispatch(handler: Handler, registry: Registry, sys: System, id: nat, trial: Trial, now: int)
    : (r: System)
    requires id < |sys.outbox|
    ensures |r.outbox| >= |sys.outbox|
  {
    var e := sys.outbox[id];
    match Attempt(handler, registry, sys.business, e.kind, trial.fault)
    case Success(after) =>
      System(after, sys.outbox[id := e.(status := Done)] + Messages(NewlyPublished(sys.business, after), now))
    case Failure => sys.(outbox := sys.outbox[id := Failed(e, trial.at)])
  }

  function AllClaimed(outbox: seq<OutboxEvent>, ids: seq<nat>, n: nat): (r: seq<OutboxEvent>)
    requires n <= |ids| && forall k :: 0 <= k < |ids| ==> ids[k] < |outbox|
    ensures |r| == |outbox|
  {
    if n == 0 then outbox
    else
      var before := AllClaimed(outbox, ids, n - 1);
      before[ids[n - 1] := before[ids[n - 1]].(status := Processing)]
  }

  /** The system after the first `n` claimed events, starting from the claim. */
  function AfterDispatches(handler: Handler, sys: System, b: Batch, n: nat): (r: System)
    requires Fits(b, sys.outbox) && n <= |b.ids|
    ensures |r.outbox| >= |sys.outbox|
  {
    if n == 0 then sys.(outbox := AllClaimed(sys.outbox, b.ids, |b.ids|))
    else AfterDispatch(handler, b.registry, AfterDispatches(handler, sys, b, n - 1), b.ids[n - 1], b.trials[n - 1],
                       b.now)
  }

  /** A committed batch. */
  function AfterBatch(handler: Handler, sys: System, b: Batch): System
    requires Fits(b, sys.outbox)
  {
    AfterDispatches(handler, sys, b, |b.ids|)
  }

  /** Is the `k`-th dispatch of the batch a success? */
  predicate Succeeds(handler: Handler, sys: System, b: Batch, k: nat)
    requires Fits(b, sys.outbox) && k < |b.ids|
  {
    var before := AfterDispatches(handler, sys, b, k);
    Attempt(handler, b.registry, before.business, before.outbox[b.ids[k]].kind, b.trials[k].fault).Success?
  }

  function Successes(handler: Handler, sys: System, b: Batch, n: nat): nat
    requires Fits(b, sys.outbox) && n <= |b.ids|
  {
    if n == 0 then 0 else Successes(handler, sys, b, n - 1) + (if Succeeds(handler, sys, b, n - 1) then 1 else 0)
  }

  class Worker {
    const rules: Rules
    var rows: seq<IngestRow>
    var fleet: map<nat, Trips.Log>
    var safety: SafetyEngine.Store
    var notified: seq<nat>
    var outbox: seq<OutboxEvent>

    ghost function State(): System
      reads this
    {
      System(Business(rows, fleet, safety, notified), outbox)
    }

    constructor (rules: Rules, start: System)
      ensures this.rules == rules && State() == start
    {
      this.rules := rules;
      rows, fleet, safety := start.business.rows, start.business.fleet, start.business.safety;
      notified, outbox := start.business.notified, start.outbox;
    }

    /** Stores the point of a position row and evaluates it; false when the handler raises, which
        may be after some of its changes. */
    method ProcessPosition(registry: Registry, row: nat, e: Envelope, t: Telemetry, now: int, fault: Fault)
      returns (ok: bool)
      requires row < |rows|
      requires VehicleName(rows[row].organization, e.vehicle) in registry
      modifies this`rows, this`fleet, this`safety, this`outbox
      ensures |outbox| >= |old(outbox)| && outbox[..|old(outbox)|] == old(outbox)
      ensures var handling := PositionHandled(rules, old(State()).business, row,
                                              registry[VehicleName(old(rows)[row].organization, e.vehicle)], e, t);
              && (ok <==> fault.NoFault? && handling.Success?)
              && (ok ==> State() == System(handling.after, old(outbox)
                                           + Messages(NewlyPublished(old(State()).business, handling.after), now)))
    {
      var vehicle := registry[VehicleName(rows[row].organization, e.vehicle)];
      var log := if vehicle in fleet then fleet[vehicle] else Trips.EMPTY;
      fleet := fleet[vehicle := Trips.Processed(rules.metric, log, ReadingOf(e, t, row))];
      rows := rows[row := rows[row].(status := Processed)];
      if fault.Midway? {
        return false;
      }
      var evaluation := SafetyEngine.EvaluatePoint(SampleOf(t), rules.thresholds(rows[row].organization));
      if evaluation.DivisionByZero? {
        return false;
      }
      var known := |safety.published|;
      var ctx := SafetyEngine.PointContext(rows[row].organization, vehicle, e.occurredAt);
      safety := SafetyEngine.AfterHits(safety, ctx, evaluation.hits, |evaluation.hits|);
      if known <= |safety.published| {
        outbox := outbox + Messages(safety.published[known..], now);
      }
      ok := fault.NoFault?;
    }

    /** An accepted row goes through the telemetry and safety steps; any other is left alone. */
    method ProcessAccepted(registry: Registry, row: nat, now: int, fault: Fault) returns (ok: bool)
      requires row < |rows|
      modifies this`rows, this`fleet, this`safety, this`outbox
      ensures |outbox| >= |old(outbox)| && outbox[..|old(outbox)|] == old(outbox)
      ensures var handling := RowHandled(rules, registry, old(State()).business, row);
              && (ok <==> fault.NoFault? && handling.Success?)
              && (ok ==> State() == System(handling.after, old(outbox)
                                           + Messages(NewlyPublished(old(State()).business, handling.after), now)))
    {
      var r := rows[row];
      if !r.status.Accepted? {
        return fault.NoFault?;
      }
      if fault.Early? || r.envelope.None? {
        rows := rows[row := r.(status := InProcess)];
        return false;
      }
      match r.envelope.value.payload {
        case NotAPosition =>
          rows := rows[row := r.(status := Processed)];
          ok := fault.NoFault?;
        case InvalidPosition(_) =>
          rows := rows[row := r.(status := InProcess)];
          ok := false;
        case ValidPosition(t) =>
          if VehicleName(r.organization, r.envelope.value.vehicle) !in registry {
            rows := rows[row := r.(status := Quarantined(UnknownVehicle))];
            return fault.NoFault?;
          }
          ok := ProcessPosition(registry, row, r.envelope.value, t, now, fault);
      }
    }

    /** Runs the handler of one event. When it raises, its changes so far are still there. */
    method Dispatch(registry: Registry, id: nat, now: int, fault: Fault) returns (ok: bool)
      requires id < |outbox|
      modifies this`rows, this`fleet, this`safety, this`notified, this`outbox
      ensures |outbox| >= |old(outbox)| && outbox[..|old(outbox)|] == old(outbox)
      ensures var handling := Attempt(HandlerOf(rules), registry, old(State()).business, old(outbox)[id].kind, fault);
              && (ok <==> handling.Success?)
              && (ok ==> State() == System(handling.after, old(outbox)
                                           + Messages(NewlyPublished(old(State()).business, handling.after), now)))
    {
      match outbox[id].kind {
        case IngestAccepted(row) =>
          if row >= |rows| {
            return fault.NoFault?;
          }
          ok := ProcessAccepted(registry, row, now, fault);
        case SafetyCreated(event) =>
          notified := notified + [event];
          ok := fault.NoFault?;
        case Unknown =>
          ok := fault.NoFault?;
      }
    }

    method MarkRetry(id: nat, at: int)
      requires id < |outbox|
      modifies this`outbox
      ensures outbox == old(outbox)[id := Failed(old(outbox)[id], at)]
    {
      var e := outbox[id];
      e := e.(attempts := e.attempts + 1);
      if e.attempts >= MAX_ATTEMPTS {
        e := e.(status := DeadLetter);
      } else {
        e := e.(status := Pending);
        var power := PowerOfTwo(e.attempts);
        var backoff := if power < MAX_BACKOFF_SECONDS then power else MAX_BACKOFF_SECONDS;
        e := e.(nextAttemptAt := at + backoff * SECOND);
      }
      outbox := outbox[id := e];
    }

    method Claim(ids: seq<nat>)
      requires forall k :: 0 <= k < |ids| ==> ids[k] < |outbox|
      modifies this`outbox
      ensures outbox == AllClaimed(old(outbox), ids, |ids|)
    {
      for k := 0 to |ids|
        invariant outbox == AllClaimed(old(outbox), ids, k)
      {
        outbox := outbox[ids[k] := outbox[ids[k]].(status := Processing)];
      }
    }

    /** One event inside its savepoint: what a failing handler changed is rolled back. */
    method Settle(registry: Registry, id: nat, trial: Trial, now: int) returns (ok: bool)
      requires id < |outbox|
      modifies this
      ensures State() == AfterDispatch(HandlerOf(rules), registry, old(State()), id, trial, now)
      ensures ok == Attempt(HandlerOf(rules), registry, old(State()).business, old(outbox)[id].kind,
                            trial.fault).Success?
    {
      var savepoint := System(Business(rows, fleet, safety, notified), outbox);
      ok := Dispatch(registry, id, now, trial.fault);
      if !ok {
        rows, fleet, safety := savepoint.business.rows, savepoint.business.fleet, savepoint.business.safety;
        notified, outbox := savepoint.business.notified, savepoint.outbox;
        MarkRetry(id, trial.at);
        return;
      }
      outbox := outbox[id := outbox[id].(status := Done)];
    }

    method ProcessOutboxBatch(b: Batch) returns (handled: nat)
      requires Claims(b, outbox)
      modifies this
      ensures State() == AfterBatch(HandlerOf(rules), old(State()), b)
      ensures handled == Successes(HandlerOf(rules), old(State()), b, |b.ids|)
    {
      handled := 0;
      Claim(b.ids);
      for k := 0 to |b.ids|
        invariant State() == AfterDispatches(HandlerOf(rules), old(State()), b, k)
        invariant handled == Successes(HandlerOf(rules), old(State()), b, k)
      {
        var ok := Settle(b.registry, b.ids[k], b.trials[k], b.now);
        if ok {
          handled := handled + 1;
        }
      }
    }
  }
}
