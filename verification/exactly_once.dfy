/** What every handler of the outbox worker keeps: one telemetry point for each processed position
    row and none for any other, stored trips and safety events in order, rows only moving on. */
module ExactlyOnce {
  import opened Options
  import opened Outbox
  import opened Ingestion
  import opened OutboxWorker
  import SafetyEngine
  import Trips

  // ---------------------------------------------------------------- points of a row

  /** The points that came from one ingest row. */
  function PointsFrom(points: seq<Trips.TelemetryPoint>, row: nat): nat {
    if points == [] then 0
    else
      var n := |points| - 1;
      PointsFrom(points[..n], row) + (if points[n].origin == row then 1 else 0)
  }

  /** The row has a point on no vehicle's trips. */
  ghost predicate Absent(fleet: map<nat, Trips.Log>, row: nat) {
    forall v {:trigger fleet[v]} :: v in fleet ==> PointsFrom(fleet[v].points, row) == 0
  }

  /** The row has one point, on this vehicle's trips. */
  ghost predicate OnlyOn(fleet: map<nat, Trips.Log>, row: nat, vehicle: nat) {
    && vehicle in fleet && PointsFrom(fleet[vehicle].points, row) == 1
    && forall v {:trigger fleet[v]} :: v in fleet && v != vehicle ==> PointsFrom(fleet[v].points, row) == 0
  }

  predicate IsPointRow(rows: seq<IngestRow>, row: nat) {
    && row < |rows| && rows[row].status.Processed?
    && rows[row].envelope.Some? && rows[row].envelope.value.payload.ValidPosition?
  }

  ghost predicate Placed(rows: seq<IngestRow>, fleet: map<nat, Trips.Log>, row: nat) {
    if IsPointRow(rows, row) then exists v :: OnlyOn(fleet, row, v) else Absent(fleet, row)
  }

  ghost predicate AllPlaced(rows: seq<IngestRow>, fleet: map<nat, Trips.Log>) {
    forall row: nat {:trigger Placed(rows, fleet, row)} :: Placed(rows, fleet, row)
  }

  lemma OnePointMore(points: seq<Trips.TelemetryPoint>, p: Trips.TelemetryPoint, row: nat)
    ensures PointsFrom(points + [p], row) == PointsFrom(points, row) + (if p.origin == row then 1 else 0)
  {
    assert (points + [p])[..|points|] == points;
  }

  /** A point appended to one vehicle's log places its row there and moves no other. */
  lemma PointPlaces(fleet: map<nat, Trips.Log>, vehicle: nat, log: Trips.Log, p: Trips.TelemetryPoint, row: nat)
    requires log.points == LogOf(fleet, vehicle).points + [p]
    ensures p.origin == row && Absent(fleet, row) ==> OnlyOn(fleet[vehicle := log], row, vehicle)
    ensures p.origin != row && Absent(fleet, row) ==> Absent(fleet[vehicle := log], row)
    ensures p.origin != row ==> forall v :: OnlyOn(fleet, row, v) ==> OnlyOn(fleet[vehicle := log], row, v)
  {
    OnePointMore(LogOf(fleet, vehicle).points, p, row);
  }

  lemma PlacedAfterPoint(rows: seq<IngestRow>, fleet: map<nat, Trips.Log>, vehicle: nat, log: Trips.Log,
                         p: Trips.TelemetryPoint)
    requires AllPlaced(rows, fleet) && p.origin < |rows| && rows[p.origin].status.Accepted?
    requires rows[p.origin].envelope.Some? && rows[p.origin].envelope.value.payload.ValidPosition?
    requires log.points == LogOf(fleet, vehicle).points + [p]
    ensures AllPlaced(rows[p.origin := rows[p.origin].(status := Processed)], fleet[vehicle := log])
  {
    var rowsAfter, fleetAfter := rows[p.origin := rows[p.origin].(status := Processed)], fleet[vehicle := log];
    forall row: nat ensures Placed(rowsAfter, fleetAfter, row) {
      assert Placed(rows, fleet, row);
      PointPlaces(fleet, vehicle, log, p, row);
      if row == p.origin {
        assert OnlyOn(fleetAfter, row, vehicle);
      } else {
        assert IsPointRow(rowsAfter, row) == IsPointRow(rows, row);
        if IsPointRow(rows, row) {
          var v :| OnlyOn(fleet, row, v);
          assert OnlyOn(fleetAfter, row, v);
        }
      }
    }
  }

  lemma PlacedWithoutPoint(rows: seq<IngestRow>, rowsAfter: seq<IngestRow>, fleet: map<nat, Trips.Log>)
    requires AllPlaced(rows, fleet)
    requires forall row: nat :: IsPointRow(rowsAfter, row) == IsPointRow(rows, row)
    ensures AllPlaced(rowsAfter, fleet)
  {
    forall row: nat ensures Placed(rowsAfter, fleet, row) {
      assert Placed(rows, fleet, row);
    }
  }

  // ---------------------------------------------------------------- safety events of a point

  /** One hit adds at most one event, and publishes exactly the events it adds. */
  lemma {:induction false} HitsPublish(store: SafetyEngine.Store, ctx: SafetyEngine.PointContext,
                                       hits: seq<SafetyEngine.RuleHit>, n: nat)
    requires n <= |hits| && SafetyEngine.Valid(store)
    ensures var after := SafetyEngine.AfterHits(store, ctx, hits, n);
            && SafetyEngine.Valid(after)
            && |store.published| <= |after.published| <= |store.published| + n
            && store.published <= after.published
  {
    if n > 0 {
      HitsPublish(store, ctx, hits, n - 1);
      var before, hit := SafetyEngine.AfterHits(store, ctx, hits, n - 1), hits[n - 1];
      SafetyEngine.PersistedKeepsValid(before, SafetyEngine.KeyFor(ctx, hit.kind), ctx.occurredAt, hit.severity);
    }
  }

  // ---------------------------------------------------------------- handlers

  ghost predicate LogsValid(rules: Rules, fleet: map<nat, Trips.Log>) {
    forall v {:trigger fleet[v]} :: v in fleet ==> Trips.Valid(rules.metric, fleet[v])
  }

  predicate NoneInProcess(rows: seq<IngestRow>) {
    forall i :: 0 <= i < |rows| ==> !rows[i].status.InProcess?
  }

  /** What every committed transaction keeps of the business state. */
  ghost predicate BusinessOk(rules: Rules, b: Business) {
    && AllPlaced(b.rows, b.fleet) && LogsValid(rules, b.fleet) && SafetyEngine.Valid(b.safety)
    && KeysUnique(b.rows) && NoneInProcess(b.rows)
  }

  /** The row keeps its identity and never becomes accepted again. */
  predicate MovesOn(before: IngestRow, after: IngestRow) {
    && KeyOf(after) == KeyOf(before) && after.envelope == before.envelope
    && (after.status.Accepted? ==> before.status.Accepted?)
  }

  ghost predicate RowsMoveOn(before: seq<IngestRow>, after: seq<IngestRow>) {
    |after| == |before| && forall i {:trigger after[i]} :: 0 <= i < |before| ==> MovesOn(before[i], after[i])
  }

  /** What a successful handler does. */
  ghost predicate GoodStep(rules: Rules, before: Business, kind: Kind, after: Business) {
    && BusinessOk(rules, after)
    && RowsMoveOn(before.rows, after.rows)
    && before.safety.published <= after.safety.published
    && |after.safety.published| <= |before.safety.published| + (if kind.IngestAccepted? then 4 else 0)
    && (kind.IngestAccepted? && kind.row < |before.rows| ==> !after.rows[kind.row].status.Accepted?)
  }

  lemma KeysStayUnique(before: seq<IngestRow>, after: seq<IngestRow>)
    requires KeysUnique(before) && RowsMoveOn(before, after)
    ensures KeysUnique(after)
  {
    forall i, j | 0 <= i < j < |after| ensures KeyOf(after[i]) != KeyOf(after[j]) {
      assert MovesOn(before[i], after[i]) && MovesOn(before[j], after[j]);
    }
  }

  lemma StatusIsGood(rules: Rules, b: Business, row: nat, status: RowStatus)
    requires BusinessOk(rules, b) && row < |b.rows| && b.rows[row].status.Accepted?
    requires status.Quarantined? || (status.Processed? && b.rows[row].envelope.Some?
                                     && !b.rows[row].envelope.value.payload.ValidPosition?)
    ensures GoodStep(rules, b, IngestAccepted(row), WithStatus(b, row, status))
  {
    var after := WithStatus(b, row, status);
    PlacedWithoutPoint(b.rows, after.rows, b.fleet);
    KeysStayUnique(b.rows, after.rows);
  }

  lemma EmptyLogIsValid(rules: Rules)
    ensures Trips.Valid(rules.metric, Trips.EMPTY)
  {}

  lemma PositionIsGood(rules: Rules, b: Business, row: nat, vehicle: nat, e: Envelope, t: Telemetry)
    requires BusinessOk(rules, b) && row < |b.rows| && b.rows[row].status.Accepted?
    requires b.rows[row].envelope == Some(e) && e.payload == ValidPosition(t)
    requires PositionHandled(rules, b, row, vehicle, e, t).Success?
    ensures GoodStep(rules, b, IngestAccepted(row), PositionHandled(rules, b, row, vehicle, e, t).after)
  {
    var after := PositionHandled(rules, b, row, vehicle, e, t).after;
    var reading := ReadingOf(e, t, row);
    EmptyLogIsValid(rules);
    var before := LogOf(b.fleet, vehicle);
    var log := Trips.Processed(rules.metric, before, reading);
    Trips.ProcessedKeepsValid(rules.metric, before, reading);
    PlacedAfterPoint(b.rows, b.fleet, vehicle, log, log.points[|log.points| - 1]);
    KeysStayUnique(b.rows, after.rows);
    SafetyOfPosition(rules, b, row, vehicle, e, t);
  }

  lemma SafetyOfPosition(rules: Rules, b: Business, row: nat, vehicle: nat, e: Envelope, t: Telemetry)
    requires row < |b.rows| && SafetyEngine.Valid(b.safety)
    requires PositionHandled(rules, b, row, vehicle, e, t).Success?
    ensures var after := PositionHandled(rules, b, row, vehicle, e, t).after.safety;
            && SafetyEngine.Valid(after)
            && b.safety.published <= after.published && |after.published| <= |b.safety.published| + 4
  {
    var sample, thresholds := SampleOf(t), rules.thresholds(b.rows[row].organization);
    SafetyEngine.HitsAreTheFiringRules(sample, thresholds);
    var hits := SafetyEngine.RuleHits(sample, thresholds).hits;
    HitsPublish(b.safety, SafetyEngine.PointContext(b.rows[row].organization, vehicle, e.occurredAt), hits, |hits|);
  }

  /** Every successful handler is a good step, a replayed message among them. */
  lemma HandledIsGood(rules: Rules, registry: Registry, b: Business, kind: Kind)
    requires BusinessOk(rules, b) && Handled(rules, registry, b, kind).Success?
    ensures GoodStep(rules, b, kind, Handled(rules, registry, b, kind).after)
  {
    if kind.IngestAccepted? && kind.row < |b.rows| {
      var r := b.rows[kind.row];
      if r.status.Accepted? && r.envelope.Some? {
        RowIsGood(rules, registry, b, kind.row, r.envelope.value);
      }
    }
  }

  lemma RowIsGood(rules: Rules, registry: Registry, b: Business, row: nat, e: Envelope)
    requires BusinessOk(rules, b) && row < |b.rows| && b.rows[row].status.Accepted? && b.rows[row].envelope == Some(e)
    requires RowHandled(rules, registry, b, row).Success?
    ensures GoodStep(rules, b, IngestAccepted(row), RowHandled(rules, registry, b, row).after)
  {
    match e.payload {
      case NotAPosition => StatusIsGood(rules, b, row, Processed);
      case ValidPosition(t) =>
        var name := VehicleName(b.rows[row].organization, e.vehicle);
        if name in registry {
          PositionIsGood(rules, b, row, registry[name], e, t);
        } else {
          StatusIsGood(rules, b, row, Quarantined(UnknownVehicle));
        }
    }
  }

  // ---------------------------------------------------------------- trips add up

  function TripPoints(trips: seq<Trips.Trip>, n: nat): nat
    requires n <= |trips|
  {
    if n == 0 then 0 else TripPoints(trips, n - 1) + trips[n - 1].pointCount
  }

  /** The points on the first `n` trips. */
  function PointsUpTo(points: seq<Trips.TelemetryPoint>, n: nat): nat {
    if n == 0 then 0 else PointsUpTo(points, n - 1) + Trips.PointsOn(points, n - 1)
  }

  lemma {:induction false} PointMoreUpTo(rules: Rules, points: seq<Trips.TelemetryPoint>, p: Trips.TelemetryPoint,
                                         n: nat)
    ensures PointsUpTo(points + [p], n) == PointsUpTo(points, n) + (if p.trip < n then 1 else 0)
  {
    if n > 0 {
      PointMoreUpTo(rules, points, p, n - 1);
      Trips.OnePointMore(rules.metric, points, p, n - 1);
    }
  }

  lemma {:induction false} NonePointsUpTo(n: nat)
    ensures PointsUpTo([], n) == 0
  {
    if n > 0 { NonePointsUpTo(n - 1); }
  }

  lemma {:induction false} PointsAreOnTrips(rules: Rules, points: seq<Trips.TelemetryPoint>, n: nat)
    requires forall i :: 0 <= i < |points| ==> points[i].trip < n
    ensures PointsUpTo(points, n) == |points|
  {
    if points == [] {
      NonePointsUpTo(n);
    } else {
      var m := |points| - 1;
      PointsAreOnTrips(rules, points[..m], n);
      PointMoreUpTo(rules, points[..m], points[m], n);
      assert points[..m] + [points[m]] == points;
    }
  }

  lemma {:induction false} CountsArePoints(rules: Rules, log: Trips.Log, n: nat)
    requires Trips.Valid(rules.metric, log) && n <= |log.trips|
    ensures TripPoints(log.trips, n) == PointsUpTo(log.points, n)
  {
    if n > 0 {
      CountsArePoints(rules, log, n - 1);
      assert Trips.Describes(rules.metric, log, n - 1);
    }
  }

  /** The point counts of a vehicle's trips add up to its points. */
  lemma TripCountsAddUp(rules: Rules, log: Trips.Log)
    requires Trips.Valid(rules.metric, log)
    ensures TripPoints(log.trips, |log.trips|) == |log.points|
  {
    forall i | 0 <= i < |log.points| ensures log.points[i].trip < |log.trips| {
      Trips.TripNumbersRise(log.points, i, |log.points| - 1);
    }
    CountsArePoints(rules, log, |log.trips|);
    PointsAreOnTrips(rules, log.points, |log.trips|);
  }
}
