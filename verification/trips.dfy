/** The trip lifecycle of one vehicle: accepted position readings become telemetry points on
    trips, an idle gap starts a new trip, and a sweep closes trips that went stale.
    Instants are whole microseconds; the great-circle distance is an abstract metric. */
module Trips {
  import opened Geography
  import opened Options

  const IDLE_GAP := 15 * 60 * 1_000_000
  const HOUR := 3_600_000_000

  /** One position payload; `origin` names the ingest row it came from. */
  datatype Reading = Reading(at: int, position: Position, speedKph: Option<real>, origin: nat)

  datatype Status = Active | Completed | Stale

  datatype Trip = Trip(status: Status, startedAt: int, endedAt: Option<int>, lastPointAt: Option<int>,
                       lastPosition: Option<Position>, distanceKm: real, pointCount: nat, maxSpeedKph: Option<real>)

  datatype TelemetryPoint = TelemetryPoint(trip: nat, at: int, position: Position, speedKph: Option<real>, origin: nat)

  /** The trips and telemetry points stored for one vehicle, oldest first. */
  datatype Log = Log(trips: seq<Trip>, points: seq<TelemetryPoint>)

  const EMPTY := Log([], [])

  // ---------------------------------------------------------------- operations

  /** A jump is implausible when it implies more than 400 km/h over a positive time. */
  function ImplausibleJump(distanceKm: real, microseconds: int): bool {
    microseconds > 0 && distanceKm / (microseconds as real / HOUR as real) > 400.0
  }

  /** The active trip of the first `n` that started last. */
  function LatestActive(trips: seq<Trip>, n: nat): (r: Option<nat>)
    requires n <= |trips|
    ensures r.Some? ==> r.value < n && trips[r.value].status.Active?
    ensures r.Some? ==> forall i :: 0 <= i < n && trips[i].status.Active? ==>
      trips[i].startedAt <= trips[r.value].startedAt
    ensures r.None? ==> forall i :: 0 <= i < n ==> !trips[i].status.Active?
  {
    if n == 0 then None
    else
      var before := LatestActive(trips, n - 1);
      if trips[n - 1].status.Active? && (before.None? || trips[before.value].startedAt <= trips[n - 1].startedAt)
      then Some(n - 1) else before
  }

  function NewTrip(at: int): Trip {
    Trip(Active, at, None, None, None, 0.0, 0, None)
  }

  /** The trips after the open trip for `at` has been found or started, and its position. */
  function WithOpenTrip(trips: seq<Trip>, at: int): (r: (seq<Trip>, nat))
    ensures r.1 < |r.0|
  {
    var active := LatestActive(trips, |trips|);
    if active.None? then (trips + [NewTrip(at)], |trips|)
    else
      var t := trips[active.value];
      if t.lastPointAt.Some? && at - t.lastPointAt.value > IDLE_GAP
      then (trips[active.value := t.(status := Completed, endedAt := t.lastPointAt)] + [NewTrip(at)], |trips|)
      else (trips, active.value)
  }

  /** The open trip that a reading at this instant goes to. */
  function OpenTrip(trips: seq<Trip>, at: int): Trip {
    var found := WithOpenTrip(trips, at);
    found.0[found.1]
  }

  predicate Anomalous(metric: Metric, t: Trip, r: Reading) {
    t.lastPosition.Some? && t.lastPointAt.Some?
    && ImplausibleJump(metric(t.lastPosition.value, r.position), r.at - t.lastPointAt.value)
  }

  /** The kilometres a reading adds to the trip: nothing for the first or an implausible point. */
  function Leg(metric: Metric, t: Trip, r: Reading): real {
    if t.lastPosition.None? || t.lastPointAt.None? || Anomalous(metric, t, r) then 0.0
    else metric(t.lastPosition.value, r.position)
  }

  function FasterOf(best: Option<real>, speed: Option<real>): Option<real> {
    if speed.None? then best
    else
      var b := if best.None? then 0.0 else best.value;
      Some(if b < speed.value then speed.value else b)
  }

  function WithHead(metric: Metric, t: Trip, r: Reading): Trip {
    t.(distanceKm := t.distanceKm + Leg(metric, t, r), pointCount := t.pointCount + 1, lastPointAt := Some(r.at),
       lastPosition := Some(r.position), maxSpeedKph := FasterOf(t.maxSpeedKph, r.speedKph))
  }

  function Processed(metric: Metric, log: Log, r: Reading): Log {
    var (trips, id) := WithOpenTrip(log.trips, r.at);
    Log(trips[id := WithHead(metric, trips[id], r)],
        log.points + [TelemetryPoint(id, r.at, r.position, r.speedKph, r.origin)])
  }

  predicate WentStale(t: Trip, now: int) {
    t.status.Active? && t.lastPointAt.Some? && t.lastPointAt.value < now - IDLE_GAP
  }

  function Swept(log: Log, now: int): Log {
    log.(trips := seq(|log.trips|, i requires 0 <= i < |log.trips| =>
      if WentStale(log.trips[i], now) then log.trips[i].(status := Stale) else log.trips[i]))
  }

  class TelemetryService {
    const metric: Metric
    var trips: seq<Trip>
    var points: seq<TelemetryPoint>

    ghost function State(): Log
      reads this
    {
      Log(trips, points)
    }

    constructor (metric: Metric)
      ensures this.metric == metric && State() == EMPTY
    {
      this.metric := metric;
      trips, points := [], [];
    }

    method ActiveTrip(at: int) returns (id: nat)
      modifies this`trips
      ensures (trips, id) == WithOpenTrip(old(trips), at) && id < |trips|
    {
      var active := LatestActive(trips, |trips|);
      if active.Some? {
        var t := trips[active.value];
        if t.lastPointAt.Some? && at - t.lastPointAt.value > IDLE_GAP {
          trips := trips[active.value := t.(status := Completed, endedAt := t.lastPointAt)];
          active := None;
        }
      }
      if active.None? {
        trips := trips + [NewTrip(at)];
        return |trips| - 1;
      }
      return active.value;
    }

    method ProcessReading(r: Reading) returns (anomaly: bool)
      modifies this
      ensures State() == Processed(metric, old(State()), r)
      ensures anomaly == Anomalous(metric, OpenTrip(old(trips), r.at), r)
    {
      var id := ActiveTrip(r.at);
      var t := trips[id];
      anomaly := false;
      var distance := 0.0;
      if t.lastPosition.Some? && t.lastPointAt.Some? {
        distance := metric(t.lastPosition.value, r.position);
        if ImplausibleJump(distance, r.at - t.lastPointAt.value) {
          anomaly := true;
          distance := 0.0;
        }
      }
      points := points + [TelemetryPoint(id, r.at, r.position, r.speedKph, r.origin)];
      t := t.(distanceKm := t.distanceKm + distance, pointCount := t.pointCount + 1);
      t := t.(lastPointAt := Some(r.at), lastPosition := Some(r.position));
      if r.speedKph.Some? {
        var best := if t.maxSpeedKph.None? then 0.0 else t.maxSpeedKph.value;
        t := t.(maxSpeedKph := Some(if best < r.speedKph.value then r.speedKph.value else best));
      }
      trips := trips[id := t];
    }

    method CloseStaleTrips(now: int) returns (closed: nat)
      modifies this`trips
      ensures State() == Swept(old(State()), now)
      ensures closed == |set i | 0 <= i < |old(trips)| && WentStale(old(trips)[i], now)|
    {
      var rows := trips;
      closed := |set i | 0 <= i < |rows| && WentStale(rows[i], now)|;
      trips := seq(|rows|, i requires 0 <= i < |rows| =>
        if WentStale(rows[i], now) then rows[i].(status := Stale) else rows[i]);
    }
  }

  // ---------------------------------------------------------------- what the points say of a trip

  function PointsOn(points: seq<TelemetryPoint>, trip: nat): nat {
    if points == [] then 0
    else
      var n := |points| - 1;
      PointsOn(points[..n], trip) + (if points[n].trip == trip then 1 else 0)
  }

  function FirstInstant(points: seq<TelemetryPoint>, trip: nat): Option<int> {
    if points == [] then None
    else
      var n := |points| - 1;
      var earlier := FirstInstant(points[..n], trip);
      if earlier.None? && points[n].trip == trip then Some(points[n].at) else earlier
  }

  function LastInstant(points: seq<TelemetryPoint>, trip: nat): Option<int> {
    if points == [] then None
    else
      var n := |points| - 1;
      if points[n].trip == trip then Some(points[n].at) else LastInstant(points[..n], trip)
  }

  /** The highest speed reported by the points of a trip, at least 0; None when none reports one. */
  function TopSpeed(points: seq<TelemetryPoint>, trip: nat): Option<real> {
    if points == [] then None
    else
      var n := |points| - 1;
      var before := TopSpeed(points[..n], trip);
      if points[n].trip == trip then FasterOf(before, points[n].speedKph) else before
  }

  lemma {:induction false} TopSpeedIsHighest(points: seq<TelemetryPoint>, trip: nat)
    ensures TopSpeed(points, trip).None? ==> forall i :: 0 <= i < |points| && points[i].trip == trip ==>
      points[i].speedKph.None?
    ensures TopSpeed(points, trip).Some? ==>
      var top := TopSpeed(points, trip).value;
      && top >= 0.0
      && (forall i :: 0 <= i < |points| && points[i].trip == trip && points[i].speedKph.Some? ==>
          points[i].speedKph.value <= top)
      && (exists i :: 0 <= i < |points| && points[i].trip == trip && points[i].speedKph.Some?
                      && (points[i].speedKph.value == top || top == 0.0))
  {
    if points != [] {
      var n := |points| - 1;
      var before := points[..n];
      TopSpeedIsHighest(before, trip);
      assert forall i {:trigger points[i]} :: 0 <= i < n ==> before[i] == points[i];
      if TopSpeed(before, trip).Some? {
        var i :| 0 <= i < n && before[i].trip == trip && before[i].speedKph.Some?
                 && (before[i].speedKph.value == TopSpeed(before, trip).value || TopSpeed(before, trip).value == 0.0);
        assert points[i] == before[i];
      }
    }
  }

  /** Kilometres of one step between consecutive points of a trip. */
  function StepKm(metric: Metric, p: TelemetryPoint, q: TelemetryPoint): real {
    var d := metric(p.position, q.position);
    if ImplausibleJump(d, q.at - p.at) then 0.0 else d
  }

  predicate Continues(points: seq<TelemetryPoint>, i: nat, trip: nat) {
    0 < i < |points| && points[i].trip == trip && points[i - 1].trip == trip
  }

  /** The plausible steps of a trip, added up. */
  function TravelledKm(metric: Metric, points: seq<TelemetryPoint>, trip: nat): real {
    if points == [] then 0.0
    else
      var n := |points| - 1;
      TravelledKm(metric, points[..n], trip)
      + (if Continues(points, n, trip) then StepKm(metric, points[n - 1], points[n]) else 0.0)
  }

  /** What a stored trip row records is what its telemetry points say. */
  ghost predicate Describes(metric: Metric, log: Log, k: nat)
    requires k < |log.trips|
  {
    var t := log.trips[k];
    && t.pointCount == PointsOn(log.points, k) > 0
    && FirstInstant(log.points, k) == Some(t.startedAt)
    && LastInstant(log.points, k) == t.lastPointAt
    && t.distanceKm == TravelledKm(metric, log.points, k)
    && t.maxSpeedKph == TopSpeed(log.points, k)
    && t.endedAt == (if t.status.Completed? then t.lastPointAt else None)
    && (t.status.Active? ==> k == |log.trips| - 1)
  }

  /** Trip numbers along the points start at zero and go up by at most one. */
  ghost predicate Contiguous(points: seq<TelemetryPoint>) {
    && (points != [] ==> points[0].trip == 0)
    && (forall i {:trigger points[i]} :: 0 < i < |points| ==>
        points[i - 1].trip <= points[i].trip <= points[i - 1].trip + 1)
  }

  ghost predicate Valid(metric: Metric, log: Log) {
    && Contiguous(log.points)
    && |log.trips| == (if log.points == [] then 0 else log.points[|log.points| - 1].trip + 1)
    && (forall k {:trigger Describes(metric, log, k)} :: 0 <= k < |log.trips| ==> Describes(metric, log, k))
    && (log.points != [] ==>
          log.trips[|log.trips| - 1].lastPosition == Some(log.points[|log.points| - 1].position))
  }

  lemma {:induction false} TripNumbersRise(points: seq<TelemetryPoint>, i: nat, j: nat)
    requires Contiguous(points) && i <= j < |points|
    ensures points[i].trip <= points[j].trip
  {
    if i < j { TripNumbersRise(points, i, j - 1); }
  }

  lemma {:induction false} NothingOnLaterTrips(metric: Metric, points: seq<TelemetryPoint>, trip: nat)
    requires forall i :: 0 <= i < |points| ==> points[i].trip < trip
    ensures PointsOn(points, trip) == 0 && FirstInstant(points, trip).None? && LastInstant(points, trip).None?
    ensures TravelledKm(metric, points, trip) == 0.0 && TopSpeed(points, trip).None?
  {
    if points != [] { NothingOnLaterTrips(metric, points[..|points| - 1], trip); }
  }

  /** What one more point changes in what the points say of a trip. */
  lemma OnePointMore(metric: Metric, points: seq<TelemetryPoint>, p: TelemetryPoint, trip: nat)
    ensures PointsOn(points + [p], trip) == PointsOn(points, trip) + (if p.trip == trip then 1 else 0)
    ensures FirstInstant(points + [p], trip)
         == if FirstInstant(points, trip).None? && p.trip == trip then Some(p.at) else FirstInstant(points, trip)
    ensures LastInstant(points + [p], trip) == if p.trip == trip then Some(p.at) else LastInstant(points, trip)
    ensures TopSpeed(points + [p], trip)
         == if p.trip == trip then FasterOf(TopSpeed(points, trip), p.speedKph) else TopSpeed(points, trip)
    ensures TravelledKm(metric, points + [p], trip)
         == TravelledKm(metric, points, trip)
            + (if Continues(points + [p], |points|, trip) then StepKm(metric, points[|points| - 1], p) else 0.0)
  {
    assert (points + [p])[..|points|] == points;
  }

  lemma ContiguousAfter(points: seq<TelemetryPoint>, p: TelemetryPoint)
    requires Contiguous(points)
    requires if points == [] then p.trip == 0 else points[|points| - 1].trip <= p.trip <= points[|points| - 1].trip + 1
    ensures Contiguous(points + [p])
  {
    var more := points + [p];
    forall i {:trigger more[i]} | 0 < i < |more| ensures more[i - 1].trip <= more[i].trip <= more[i - 1].trip + 1 {
      if i < |points| { assert more[i] == points[i] && more[i - 1] == points[i - 1]; }
    }
  }

  lemma OnlyTheLastIsActive(metric: Metric, log: Log)
    requires Valid(metric, log)
    ensures LatestActive(log.trips, |log.trips|)
         == if log.trips != [] && log.trips[|log.trips| - 1].status.Active? then Some(|log.trips| - 1) else None
  {
    forall k | 0 <= k < |log.trips| ensures log.trips[k].status.Active? ==> k == |log.trips| - 1 {
      assert Describes(metric, log, k);
    }
  }

  /** Does the next reading start a new trip? */
  predicate StartsTrip(log: Log, at: int) {
    log.trips == [] || (var t := log.trips[|log.trips| - 1];
                        !t.status.Active? || (t.lastPointAt.Some? && at - t.lastPointAt.value > IDLE_GAP))
  }

  lemma OpenTripFound(metric: Metric, log: Log, at: int)
    requires Valid(metric, log)
    ensures var (trips, id) := WithOpenTrip(log.trips, at);
            && id == (if StartsTrip(log, at) then |log.trips| else |log.trips| - 1)
            && |trips| == id + 1
            && (StartsTrip(log, at) ==> trips[id] == NewTrip(at))
            && (!StartsTrip(log, at) ==> trips == log.trips)
            && (forall k :: 0 <= k < |log.trips| - 1 ==> trips[k] == log.trips[k])
            && (StartsTrip(log, at) && log.trips != [] ==>
                  var t := log.trips[|log.trips| - 1];
                  trips[|log.trips| - 1]
                  == if t.status.Active? then t.(status := Completed, endedAt := t.lastPointAt) else t)
  {
    OnlyTheLastIsActive(metric, log);
  }

  lemma LastPointIsLast(metric: Metric, log: Log)
    requires Valid(metric, log) && log.points != []
    ensures log.trips[|log.trips| - 1].lastPointAt == Some(log.points[|log.points| - 1].at)
  {
    assert Describes(metric, log, |log.trips| - 1);
  }

  lemma NewTripIsDescribed(metric: Metric, log: Log, r: Reading)
    requires Valid(metric, log) && StartsTrip(log, r.at)
    ensures var after := Processed(metric, log, r);
            |after.trips| == |log.trips| + 1 && Describes(metric, after, |log.trips|)
  {
    var id := |log.trips|;
    OpenTripFound(metric, log, r.at);
    forall i | 0 <= i < |log.points| ensures log.points[i].trip < id {
      TripNumbersRise(log.points, i, |log.points| - 1);
    }
    NothingOnLaterTrips(metric, log.points, id);
    OnePointMore(metric, log.points, TelemetryPoint(id, r.at, r.position, r.speedKph, r.origin), id);
  }

  lemma ContinuedTripIsDescribed(metric: Metric, log: Log, r: Reading)
    requires Valid(metric, log) && !StartsTrip(log, r.at)
    ensures var after := Processed(metric, log, r);
            |after.trips| == |log.trips| && Describes(metric, after, |log.trips| - 1)
  {
    var id := |log.trips| - 1;
    OpenTripFound(metric, log, r.at);
    assert Describes(metric, log, id);
    LastPointIsLast(metric, log);
    OnePointMore(metric, log.points, TelemetryPoint(id, r.at, r.position, r.speedKph, r.origin), id);
  }

  lemma EarlierTripIsDescribed(metric: Metric, log: Log, r: Reading, k: nat)
    requires Valid(metric, log) && k < |log.trips| && (StartsTrip(log, r.at) || k < |log.trips| - 1)
    ensures k < |Processed(metric, log, r).trips| && Describes(metric, Processed(metric, log, r), k)
  {
    OpenTripFound(metric, log, r.at);
    assert Describes(metric, log, k);
    var id := if StartsTrip(log, r.at) then |log.trips| else |log.trips| - 1;
    OnePointMore(metric, log.points, TelemetryPoint(id, r.at, r.position, r.speedKph, r.origin), k);
  }

  /** Every processed reading keeps the rows in agreement with the points. */
  lemma ProcessedKeepsValid(metric: Metric, log: Log, r: Reading)
    requires Valid(metric, log)
    ensures Valid(metric, Processed(metric, log, r))
  {
    var after := Processed(metric, log, r);
    OpenTripFound(metric, log, r.at);
    if StartsTrip(log, r.at) {
      NewTripIsDescribed(metric, log, r);
    } else {
      ContinuedTripIsDescribed(metric, log, r);
    }
    forall k | 0 <= k < |after.trips| ensures Describes(metric, after, k) {
      if k < |log.trips| && (StartsTrip(log, r.at) || k < |log.trips| - 1) {
        EarlierTripIsDescribed(metric, log, r, k);
      }
    }
    ContiguousAfter(log.points, after.points[|log.points|]);
  }

  lemma SweptKeepsValid(metric: Metric, log: Log, now: int)
    requires Valid(metric, log)
    ensures Valid(metric, Swept(log, now))
  {
    forall k | 0 <= k < |log.trips| ensures Describes(metric, Swept(log, now), k) {
      assert Describes(metric, log, k);
    }
  }

  // ---------------------------------------------------------------- runs

  datatype Event = Read(reading: Reading) | Sweep(now: int)

  function Apply(metric: Metric, log: Log, e: Event): Log {
    match e
    case Read(r) => Processed(metric, log, r)
    case Sweep(now) => Swept(log, now)
  }

  function Run(metric: Metric, events: seq<Event>, n: nat): Log
    requires n <= |events|
  {
    if n == 0 then EMPTY else Apply(metric, Run(metric, events, n - 1), events[n - 1])
  }

  predicate Gap(points: seq<TelemetryPoint>, i: nat) {
    0 < i < |points| && points[i].at - points[i - 1].at > IDLE_GAP
  }

  predicate Cut(points: seq<TelemetryPoint>, i: nat) {
    0 < i < |points| && points[i].trip != points[i - 1].trip
  }

  /** Every idle gap is a cut between two trips. */
  ghost predicate GapsAreCuts(points: seq<TelemetryPoint>) {
    forall i {:trigger Cut(points, i)} :: 0 < i < |points| && Gap(points, i) ==> Cut(points, i)
  }

  /** Every cut is an idle gap, and the latest trip is still open for the next reading. */
  ghost predicate CutAtGapsOnly(log: Log) {
    && (forall i {:trigger Cut(log.points, i)} :: 0 < i < |log.points| && Cut(log.points, i) ==> Gap(log.points, i))
    && (log.trips != [] ==> log.trips[|log.trips| - 1].status.Active?)
  }

  lemma CutsOfPrefix(points: seq<TelemetryPoint>, p: TelemetryPoint)
    ensures forall i {:trigger Cut(points + [p], i)} :: 0 < i < |points| ==>
      Cut(points + [p], i) == Cut(points, i) && Gap(points + [p], i) == Gap(points, i)
  {
    var more := points + [p];
    forall i {:trigger Cut(more, i)} | 0 < i < |points|
      ensures Cut(more, i) == Cut(points, i) && Gap(more, i) == Gap(points, i)
    {
      assert more[i] == points[i] && more[i - 1] == points[i - 1];
    }
  }

  /** The newest point is cut off exactly when it starts a trip; a gap makes it start one, and
      nothing else does while the latest trip is open. */
  lemma NewestCut(metric: Metric, log: Log, r: Reading)
    requires Valid(metric, log)
    ensures var after, n := Processed(metric, log, r), |log.points|;
            && after.points == log.points + [after.points[n]]
            && after.trips != [] && after.trips[|after.trips| - 1].status.Active?
            && (Cut(after.points, n) <==> n > 0 && StartsTrip(log, r.at))
            && (Gap(after.points, n) ==> Cut(after.points, n))
            && (n > 0 && log.trips[|log.trips| - 1].status.Active? && Cut(after.points, n) ==> Gap(after.points, n))
  {
    OpenTripFound(metric, log, r.at);
    if log.points != [] { LastPointIsLast(metric, log); }
  }

  lemma ReadingCuts(metric: Metric, log: Log, r: Reading)
    requires Valid(metric, log) && GapsAreCuts(log.points)
    ensures GapsAreCuts(Processed(metric, log, r).points)
    ensures CutAtGapsOnly(log) ==> CutAtGapsOnly(Processed(metric, log, r))
  {
    var points, n := Processed(metric, log, r).points, |log.points|;
    NewestCut(metric, log, r);
    CutsOfPrefix(log.points, points[n]);
  }

  lemma {:induction false} RunIsValid(metric: Metric, events: seq<Event>, n: nat)
    requires n <= |events|
    ensures Valid(metric, Run(metric, events, n)) && GapsAreCuts(Run(metric, events, n).points)
  {
    if n > 0 {
      RunIsValid(metric, events, n - 1);
      var before := Run(metric, events, n - 1);
      match events[n - 1]
      case Read(r) => ProcessedKeepsValid(metric, before, r); ReadingCuts(metric, before, r);
      case Sweep(now) => SweptKeepsValid(metric, before, now);
    }
  }

  /** Without sweeps trips are cut at idle gaps only. */
  lemma {:induction false} UnsweptRun(metric: Metric, events: seq<Event>, n: nat)
    requires n <= |events| && forall i :: 0 <= i < n ==> events[i].Read?
    ensures CutAtGapsOnly(Run(metric, events, n))
  {
    if n > 0 {
      UnsweptRun(metric, events, n - 1);
      RunIsValid(metric, events, n - 1);
      ReadingCuts(metric, Run(metric, events, n - 1), events[n - 1].reading);
    }
  }

  ghost predicate Records(p: TelemetryPoint, r: Reading) {
    p.origin == r.origin && p.at == r.at && p.position == r.position && p.speedKph == r.speedKph
  }

  lemma {:induction false} PointsAreTheReadings(metric: Metric, events: seq<Event>, n: nat)
    requires n <= |events| && forall i :: 0 <= i < n ==> events[i].Read?
    ensures |Run(metric, events, n).points| == n
    ensures forall i {:trigger events[i]} :: 0 <= i < n ==> Records(Run(metric, events, n).points[i], events[i].reading)
  {
    if n > 0 {
      PointsAreTheReadings(metric, events, n - 1);
      var before, after := Run(metric, events, n - 1).points, Run(metric, events, n).points;
      assert after == before + [after[n - 1]] && Records(after[n - 1], events[n - 1].reading);
    }
  }

  lemma {:induction false} SameTripMeansNoCut(points: seq<TelemetryPoint>, i: nat, j: nat)
    requires Contiguous(points) && i <= j < |points|
    ensures points[i].trip == points[j].trip <==> forall k :: i < k <= j ==> !Cut(points, k)
  {
    if i < j {
      SameTripMeansNoCut(points, i, j - 1);
      TripNumbersRise(points, i, j - 1);
      assert Cut(points, j) <==> points[j].trip != points[j - 1].trip;
    }
  }

  predicate IdleBefore(events: seq<Event>, k: nat) {
    0 < k < |events| && events[k].Read? && events[k - 1].Read?
    && events[k].reading.at - events[k - 1].reading.at > 15 * 60 * 1_000_000
  }

  /** Segmentation: readings processed in any order of arrival, without sweeps, fall into trips
      that are exactly the maximal runs with gaps of at most 15 minutes. */
  lemma TripsAreMaximalRuns(metric: Metric, events: seq<Event>, i: nat, j: nat)
    requires forall k :: 0 <= k < |events| ==> events[k].Read?
    requires i <= j < |events|
    ensures var points := Run(metric, events, |events|).points;
            && |points| == |events|
            && (points[i].trip == points[j].trip <==> forall k :: i < k <= j ==> !IdleBefore(events, k))
  {
    var n := |events|;
    UnsweptRun(metric, events, n);
    PointsAreTheReadings(metric, events, n);
    RunIsValid(metric, events, n);
    var points := Run(metric, events, n).points;
    SameTripMeansNoCut(points, i, j);
    forall k | i < k <= j ensures Cut(points, k) <==> IdleBefore(events, k) {
      assert Records(points[k], events[k].reading) && Records(points[k - 1], events[k - 1].reading);
    }
  }

  /** Interleaved sweeps only split those runs further: points on one trip are never an idle
      gap apart, and every trip is one unbroken stretch of the arrivals. */
  lemma SweepsOnlySplit(metric: Metric, events: seq<Event>, i: nat, k: nat, j: nat)
    requires i < k <= j < |Run(metric, events, |events|).points|
    requires Run(metric, events, |events|).points[i].trip == Run(metric, events, |events|).points[j].trip
    ensures var points := Run(metric, events, |events|).points;
            points[k].trip == points[i].trip && points[k].at - points[k - 1].at <= 15 * 60 * 1_000_000
  {
    RunIsValid(metric, events, |events|);
    var points := Run(metric, events, |events|).points;
    TripNumbersRise(points, i, k - 1);
    TripNumbersRise(points, k - 1, k);
    TripNumbersRise(points, k, j);
    assert !Cut(points, k) && !Gap(points, k);
  }

  /** At most one trip of the vehicle is active, the latest one. */
  lemma AtMostOneActive(metric: Metric, events: seq<Event>, k: nat)
    requires k < |Run(metric, events, |events|).trips| && Run(metric, events, |events|).trips[k].status.Active?
    ensures k == |Run(metric, events, |events|).trips| - 1
  {
    RunIsValid(metric, events, |events|);
    assert Describes(metric, Run(metric, events, |events|), k);
  }

  /** A sweep, at any point of any run: of every trip it changes at most the status, and it leaves active
      exactly the active trips whose last point is at most 15 minutes old. */
  lemma SweepClosesTheStale(metric: Metric, events: seq<Event>, now: int, k: nat)
    requires k < |Run(metric, events, |events|).trips|
    ensures var before, after := Run(metric, events, |events|), Swept(Run(metric, events, |events|), now);
            && after.points == before.points && |after.trips| == |before.trips|
            && after.trips[k].(status := before.trips[k].status) == before.trips[k]
            && before.trips[k].lastPointAt.Some?
            && after.trips[k].status
               == if before.trips[k].status.Active? && now - before.trips[k].lastPointAt.value > 15 * 60 * 1_000_000
                  then Stale else before.trips[k].status
  {
    var before := Run(metric, events, |events|);
    RunIsValid(metric, events, |events|);
    assert Describes(metric, before, k);
    NoPointsNoInstant(before.points, k);
  }

  // ---------------------------------------------------------------- time spans

  ghost predicate InOrder(points: seq<TelemetryPoint>) {
    forall i, j :: 0 <= i < j < |points| ==> points[i].at <= points[j].at
  }

  lemma {:induction false} FirstInstantIsAPoint(points: seq<TelemetryPoint>, trip: nat)
    requires FirstInstant(points, trip).Some?
    ensures exists i :: 0 <= i < |points| && points[i].trip == trip && points[i].at == FirstInstant(points, trip).value
  {
    var n := |points| - 1;
    if FirstInstant(points[..n], trip).Some? {
      FirstInstantIsAPoint(points[..n], trip);
      var i :| 0 <= i < n && points[..n][i].trip == trip && points[..n][i].at == FirstInstant(points, trip).value;
      assert points[i] == points[..n][i];
    }
  }

  lemma {:induction false} LastInstantIsAPoint(points: seq<TelemetryPoint>, trip: nat)
    requires LastInstant(points, trip).Some?
    ensures exists i :: 0 <= i < |points| && points[i].trip == trip && points[i].at == LastInstant(points, trip).value
  {
    var n := |points| - 1;
    if points[n].trip != trip {
      LastInstantIsAPoint(points[..n], trip);
      var i :| 0 <= i < n && points[..n][i].trip == trip && points[..n][i].at == LastInstant(points, trip).value;
      assert points[i] == points[..n][i];
    }
  }

  lemma NoEarlier(points: seq<TelemetryPoint>, i: nat, j: nat)
    requires InOrder(points) && i <= j < |points|
    ensures points[i].at <= points[j].at
  {}

  lemma InstantsInOrder(points: seq<TelemetryPoint>, k: nat, l: nat)
    requires Contiguous(points) && InOrder(points) && k < l
    requires LastInstant(points, k).Some? && FirstInstant(points, l).Some?
    ensures LastInstant(points, k).value <= FirstInstant(points, l).value
  {
    LastInstantIsAPoint(points, k);
    FirstInstantIsAPoint(points, l);
    var i :| 0 <= i < |points| && points[i].trip == k && points[i].at == LastInstant(points, k).value;
    var j :| 0 <= j < |points| && points[j].trip == l && points[j].at == FirstInstant(points, l).value;
    if j < i { TripNumbersRise(points, j, i); } else { NoEarlier(points, i, j); }
  }

  /** When readings arrive in time order, trips do not overlap: an earlier trip ends no later
      than the next one starts. */
  lemma SpansAreOrdered(metric: Metric, events: seq<Event>, k: nat, l: nat)
    requires InOrder(Run(metric, events, |events|).points)
    requires k < l < |Run(metric, events, |events|).trips|
    ensures var trips := Run(metric, events, |events|).trips;
            trips[k].lastPointAt.Some? && trips[k].lastPointAt.value <= trips[l].startedAt
  {
    var log := Run(metric, events, |events|);
    RunIsValid(metric, events, |events|);
    assert Describes(metric, log, k) && Describes(metric, log, l);
    NoPointsNoInstant(log.points, k);
    InstantsInOrder(log.points, k, l);
  }

  lemma {:induction false} NoPointsNoInstant(points: seq<TelemetryPoint>, trip: nat)
    requires PointsOn(points, trip) > 0
    ensures LastInstant(points, trip).Some?
  {
    var n := |points| - 1;
    if points[n].trip != trip { NoPointsNoInstant(points[..n], trip); }
  }

  // ---------------------------------------------------------------- distance

  /** How far 400 km/h goes in a time span. */
  function ReachKm(microseconds: int): real {
    400.0 * (microseconds as real / HOUR as real)
  }

  lemma PlausibleStepIsShort(distanceKm: real, microseconds: int)
    requires microseconds > 0 && !ImplausibleJump(distanceKm, microseconds)
    ensures distanceKm <= ReachKm(microseconds)
  {
    var hours := microseconds as real / HOUR as real;
    assert hours > 0.0;
    var speed := distanceKm / hours;
    assert speed * hours == distanceKm;
    ScaleDown(hours, speed, 400.0);
  }

  lemma ScaleDown(h: real, a: real, b: real)
    requires h >= 0.0 && a <= b
    ensures a * h <= b * h
  {}

  /** What is implausible, without a division: a positive time, and farther than 400 km/h go in it. */
  lemma ImplausibleIff(distanceKm: real, microseconds: int)
    ensures ImplausibleJump(distanceKm, microseconds)
       <==> microseconds > 0 && distanceKm * 3_600_000_000.0 > 400.0 * microseconds as real
  {
    if microseconds > 0 {
      var hours := microseconds as real / 3_600_000_000.0;
      assert distanceKm / hours * hours == distanceKm;
      OverIff(distanceKm / hours, hours, 400.0);
    }
  }

  lemma OverIff(speed: real, hours: real, limit: real)
    requires hours > 0.0
    ensures speed > limit <==> speed * hours > limit * hours
  {
    if speed > limit { assert (speed - limit) * hours > 0.0; } else { ScaleDown(hours, speed, limit); }
  }

  /** A step counts in full when it goes no farther than 400 km/h do in its time, or takes no time, and
      not at all otherwise. */
  lemma StepCounts(metric: Metric, p: TelemetryPoint, q: TelemetryPoint)
    ensures var d := metric(p.position, q.position);
            StepKm(metric, p, q)
            == if q.at <= p.at || d * 3_600_000_000.0 <= 400.0 * (q.at - p.at) as real then d else 0.0
  {
    ImplausibleIff(metric(p.position, q.position), q.at - p.at);
  }

  /** In every run, a reading is flagged as an anomaly exactly when it continues a trip and goes farther
      from the point before it than 400 km/h do in the time since. */
  lemma AnomalyIff(metric: Metric, events: seq<Event>, r: Reading)
    ensures var log := Run(metric, events, |events|);
            Anomalous(metric, OpenTrip(log.trips, r.at), r)
            <==> && !StartsTrip(log, r.at) && log.points != []
                 && var p := log.points[|log.points| - 1];
                    r.at > p.at
                    && metric(p.position, r.position) * 3_600_000_000.0 > 400.0 * (r.at - p.at) as real
  {
    var log := Run(metric, events, |events|);
    RunIsValid(metric, events, |events|);
    OpenTripFound(metric, log, r.at);
    if !StartsTrip(log, r.at) {
      LastPointIsLast(metric, log);
      var p := log.points[|log.points| - 1];
      ImplausibleIff(metric(p.position, r.position), r.at - p.at);
    }
  }

  /** The time of the steps of a trip that run forward. */
  function ForwardTime(points: seq<TelemetryPoint>, trip: nat): int {
    if points == [] then 0
    else
      var n := |points| - 1;
      ForwardTime(points[..n], trip)
      + (if Continues(points, n, trip) && points[n].at > points[n - 1].at then points[n].at - points[n - 1].at else 0)
  }

  /** The kilometres of the steps of a trip that the check lets pass because their time is not positive. */
  function UncheckedKm(metric: Metric, points: seq<TelemetryPoint>, trip: nat): real {
    if points == [] then 0.0
    else
      var n := |points| - 1;
      UncheckedKm(metric, points[..n], trip)
      + (if Continues(points, n, trip) && points[n].at <= points[n - 1].at
         then metric(points[n - 1].position, points[n].position) else 0.0)
  }

  lemma {:induction false} TravelledIsBounded(metric: Metric, points: seq<TelemetryPoint>, trip: nat)
    ensures TravelledKm(metric, points, trip) <= ReachKm(ForwardTime(points, trip)) + UncheckedKm(metric, points, trip)
  {
    if points != [] {
      var n := |points| - 1;
      TravelledIsBounded(metric, points[..n], trip);
      if Continues(points, n, trip) && points[n].at > points[n - 1].at {
        StepWithinReach(metric, points[n - 1], points[n]);
      }
    }
  }

  lemma StepWithinReach(metric: Metric, p: TelemetryPoint, q: TelemetryPoint)
    requires q.at > p.at
    ensures StepKm(metric, p, q) <= ReachKm(q.at - p.at)
  {
    var d := metric(p.position, q.position);
    if !ImplausibleJump(d, q.at - p.at) { PlausibleStepIsShort(d, q.at - p.at); }
  }

  /** A step is kept within 400 km/h exactly when time passes or nothing moves: a step without
      time is checked against nothing. */
  lemma StepIsCheckedIff(metric: Metric, p: TelemetryPoint, q: TelemetryPoint)
    requires metric(p.position, q.position) >= 0.0
    ensures StepKm(metric, p, q) <= ReachKm(q.at - p.at)
       <==> q.at > p.at || (q.at == p.at && metric(p.position, q.position) == 0.0)
  {
    if q.at > p.at {
      StepWithinReach(metric, p, q);
    } else {
      assert (q.at - p.at) as real / HOUR as real <= 0.0;
    }
  }

  /** Distance bound, for every run: a trip's distance is at most what 400 km/h covers in its
      forward steps, plus the steps whose time was not positive. */
  lemma DistanceBound(metric: Metric, events: seq<Event>, k: nat)
    requires k < |Run(metric, events, |events|).trips|
    ensures var log := Run(metric, events, |events|);
            log.trips[k].distanceKm <= ReachKm(ForwardTime(log.points, k)) + UncheckedKm(metric, log.points, k)
  {
    RunIsValid(metric, events, |events|);
    var log := Run(metric, events, |events|);
    assert Describes(metric, log, k);
    TravelledIsBounded(metric, log.points, k);
  }

  ghost predicate StrictlyInOrder(points: seq<TelemetryPoint>) {
    forall i, j :: 0 <= i < j < |points| ==> points[i].at < points[j].at
  }

  /** The forward time of a trip is its span. */
  ghost predicate SpanIsForwardTime(points: seq<TelemetryPoint>, trip: nat) {
    match (FirstInstant(points, trip), LastInstant(points, trip))
    case (None, None) => ForwardTime(points, trip) == 0
    case (Some(first), Some(last)) => ForwardTime(points, trip) == last - first
    case _ => false
  }

  lemma OneRisingPoint(metric: Metric, points: seq<TelemetryPoint>, p: TelemetryPoint, trip: nat)
    requires SpanIsForwardTime(points, trip) && UncheckedKm(metric, points, trip) == 0.0
    requires points != [] ==> points[|points| - 1].at < p.at
    requires points != [] && p.trip == trip && points[|points| - 1].trip != trip ==> LastInstant(points, trip).None?
    ensures SpanIsForwardTime(points + [p], trip) && UncheckedKm(metric, points + [p], trip) == 0.0
  {
    OnePointMore(metric, points, p, trip);
    assert (points + [p])[..|points|] == points;
  }

  lemma PrefixInOrder(points: seq<TelemetryPoint>)
    requires StrictlyInOrder(points) && Contiguous(points) && points != []
    ensures StrictlyInOrder(points[..|points| - 1]) && Contiguous(points[..|points| - 1])
    ensures |points| > 1 ==> points[|points| - 2].at < points[|points| - 1].at
                             && points[|points| - 2].trip <= points[|points| - 1].trip
  {
    var before := points[..|points| - 1];
    assert forall i {:trigger before[i]} :: 0 <= i < |before| ==> before[i] == points[i];
  }

  /** With rising instants no step is unchecked and the forward time is the trip's span. */
  lemma {:induction false} RisingInstants(metric: Metric, points: seq<TelemetryPoint>, trip: nat)
    requires StrictlyInOrder(points) && Contiguous(points)
    ensures SpanIsForwardTime(points, trip) && UncheckedKm(metric, points, trip) == 0.0
  {
    if points != [] {
      var n := |points| - 1;
      var before := points[..n];
      PrefixInOrder(points);
      RisingInstants(metric, before, trip);
      if points[n].trip == trip && n > 0 && before[n - 1].trip != trip {
        NothingBefore(before, trip);
      }
      assert before + [points[n]] == points;
      OneRisingPoint(metric, before, points[n], trip);
    }
  }

  lemma {:induction false} NothingBefore(points: seq<TelemetryPoint>, trip: nat)
    requires Contiguous(points) && points != [] && points[|points| - 1].trip < trip
    ensures LastInstant(points, trip).None?
  {
    var n := |points| - 1;
    if n > 0 {
      assert forall i {:trigger points[..n][i]} :: 0 <= i < n ==> points[..n][i] == points[i];
      assert points[n - 1].trip <= points[n].trip;
      NothingBefore(points[..n], trip);
    }
  }

  lemma TripWithinSpan(metric: Metric, log: Log, k: nat)
    requires Valid(metric, log) && k < |log.trips| && StrictlyInOrder(log.points)
    ensures var t := log.trips[k];
            t.lastPointAt.Some? && t.distanceKm <= ReachKm(t.lastPointAt.value - t.startedAt)
  {
    assert Describes(metric, log, k);
    NoPointsNoInstant(log.points, k);
    TravelledIsBounded(metric, log.points, k);
    RisingInstants(metric, log.points, k);
  }

  /** For strictly rising timestamps a trip's distance is at most 400 km/h times its time span. */
  lemma DistanceWithinSpan(metric: Metric, events: seq<Event>, k: nat)
    requires k < |Run(metric, events, |events|).trips|
    requires StrictlyInOrder(Run(metric, events, |events|).points)
    ensures var t := Run(metric, events, |events|).trips[k];
            t.lastPointAt.Some? && t.distanceKm <= ReachKm(t.lastPointAt.value - t.startedAt)
  {
    RunIsValid(metric, events, |events|);
    TripWithinSpan(metric, Run(metric, events, |events|), k);
  }

  // ---------------------------------------------------------------- when the span bounds the distance

  /** The readings of one stretch, as events. */
  function Readings(times: seq<int>, positions: seq<Position>): (events: seq<Event>)
    requires |times| == |positions|
    ensures |events| == |times|
    ensures forall i :: 0 <= i < |times| ==> events[i] == Read(Reading(times[i], positions[i], None, i))
  {
    seq(|times|, i requires 0 <= i < |times| => Read(Reading(times[i], positions[i], None, i)))
  }

  predicate WithoutIdleGap(times: seq<int>) {
    forall i :: 0 < i < |times| ==> times[i] - times[i - 1] <= IDLE_GAP
  }

  predicate Rising(times: seq<int>) {
    forall i :: 0 < i < |times| ==> times[i - 1] < times[i]
  }

  ghost predicate NonNegative(metric: Metric) {
    forall p, q :: metric(p, q) >= 0.0
  }

  /** The trip of these readings is within 400 km/h of the time between the first and the last. */
  ghost predicate SpanBounds(metric: Metric, times: seq<int>, positions: seq<Position>) {
    |positions| == |times| > 0 ==>
      var log := Run(metric, Readings(times, positions), |times|);
      |log.trips| == 1 && log.trips[0].distanceKm <= ReachKm(times[|times| - 1] - times[0])
  }

  lemma {:induction false} InstantsOfAll(points: seq<TelemetryPoint>)
    requires points != [] && forall i :: 0 <= i < |points| ==> points[i].trip == 0
    ensures FirstInstant(points, 0) == Some(points[0].at)
    ensures LastInstant(points, 0) == Some(points[|points| - 1].at)
  {
    if |points| > 1 { InstantsOfAll(points[..|points| - 1]); }
  }

  /** The log holds these readings, on one trip from the first instant to the last. */
  ghost predicate IsOneTrip(metric: Metric, log: Log, times: seq<int>, positions: seq<Position>) {
    && |log.points| == |times| == |positions| > 0 && |log.trips| == 1
    && (forall i {:trigger log.points[i]} :: 0 <= i < |times| ==>
          log.points[i].trip == 0 && log.points[i].at == times[i] && log.points[i].position == positions[i])
    && log.trips[0].startedAt == times[0] && log.trips[0].lastPointAt == Some(times[|times| - 1])
    && log.trips[0].distanceKm == TravelledKm(metric, log.points, 0)
  }

  /** Readings without an idle gap make one trip. */
  lemma OneStretchIsOneTrip(metric: Metric, times: seq<int>, positions: seq<Position>)
    requires |times| == |positions| > 0 && WithoutIdleGap(times)
    ensures var log := Run(metric, Readings(times, positions), |times|);
            Valid(metric, log) && IsOneTrip(metric, log, times, positions)
  {
    var events, n := Readings(times, positions), |times|;
    var log := Run(metric, events, n);
    RunIsValid(metric, events, n);
    PointsAreTheReadings(metric, events, n);
    forall i {:trigger log.points[i]} | 0 <= i < n
      ensures log.points[i].trip == 0 && log.points[i].at == times[i] && log.points[i].position == positions[i]
    {
      TripsAreMaximalRuns(metric, events, 0, i);
      assert Records(log.points[i], events[i].reading);
    }
    assert Describes(metric, log, 0);
    InstantsOfAll(log.points);
  }

  lemma RisingMeansInOrder(times: seq<int>, i: nat, j: nat)
    requires Rising(times) && i < j < |times|
    ensures times[i] < times[j]
  {
    if i < j - 1 { RisingMeansInOrder(times, i, j - 1); }
  }

  lemma RisingPointsInOrder(metric: Metric, log: Log, times: seq<int>, positions: seq<Position>)
    requires IsOneTrip(metric, log, times, positions) && Rising(times)
    ensures StrictlyInOrder(log.points)
  {
    forall i, j | 0 <= i < j < |log.points| ensures log.points[i].at < log.points[j].at {
      RisingMeansInOrder(times, i, j);
    }
  }

  lemma RisingSpanBounds(metric: Metric, times: seq<int>, positions: seq<Position>)
    requires WithoutIdleGap(times) && Rising(times)
    ensures SpanBounds(metric, times, positions)
  {
    if |positions| == |times| > 0 {
      OneStretchIsOneTrip(metric, times, positions);
      RisingPointsInOrder(metric, Run(metric, Readings(times, positions), |times|), times, positions);
      TripWithinSpan(metric, Run(metric, Readings(times, positions), |times|), 0);
    }
  }

  lemma {:induction false} AtLeastOneStep(metric: Metric, points: seq<TelemetryPoint>, trip: nat, i: nat)
    requires NonNegative(metric) && (i < |points| ==> Continues(points, i, trip))
    ensures TravelledKm(metric, points, trip) >= if i < |points| then StepKm(metric, points[i - 1], points[i]) else 0.0
  {
    if points != [] {
      var n := |points| - 1;
      AtLeastOneStep(metric, points[..n], trip, if i < n then i else n);
    }
  }

  /** A step that takes no time adds its distance in full. */
  lemma StandingStepCounts(metric: Metric, log: Log, times: seq<int>, positions: seq<Position>, i: nat)
    requires IsOneTrip(metric, log, times, positions) && NonNegative(metric)
    requires 0 < i < |times| && times[i] <= times[i - 1]
    ensures log.trips[0].distanceKm >= metric(positions[i - 1], positions[i])
  {
    var p, q := log.points[i - 1], log.points[i];
    assert p.position == positions[i - 1] && q.position == positions[i] && p.at == times[i - 1] && q.at == times[i];
    AtLeastOneStep(metric, log.points, 0, i);
  }

  /** Nothing lies apart but the places with these two latitudes, in this order. */
  function OnlyApart(from: real, to: real, far: real): Metric {
    (p: Position, q: Position) => if p.latitude == from && q.latitude == to then far else 0.0
  }

  lemma SpanExceeded(metric: Metric, times: seq<int>, positions: seq<Position>, i: nat)
    requires |positions| == |times| && WithoutIdleGap(times) && NonNegative(metric)
    requires 0 < i < |times| && times[i] <= times[i - 1]
    requires metric(positions[i - 1], positions[i]) > ReachKm(times[|times| - 1] - times[0])
    ensures !SpanBounds(metric, times, positions)
  {
    OneStretchIsOneTrip(metric, times, positions);
    StandingStepCounts(metric, Run(metric, Readings(times, positions), |times|), times, positions, i);
  }

  /** A step at `i` that takes no time may be any distance long. */
  lemma StandingSpanFails(times: seq<int>, i: nat) returns (metric: Metric, positions: seq<Position>)
    requires 0 < i < |times| && times[i] <= times[i - 1] && WithoutIdleGap(times)
    ensures NonNegative(metric) && |positions| == |times| && !SpanBounds(metric, times, positions)
  {
    var reach := ReachKm(times[|times| - 1] - times[0]);
    var far := if reach < 0.0 then 1.0 else reach + 1.0;
    positions := seq(|times|, j => Position(j as real, 0.0));
    metric := OnlyApart((i - 1) as real, i as real, far);
    SpanExceeded(metric, times, positions, i);
  }

  /** The exact condition for a trip: of readings without an idle gap, the span bounds the distance
      for every non-negative metric and all positions exactly when the instants rise. */
  lemma SpanBoundsIffRising(times: seq<int>)
    requires WithoutIdleGap(times)
    ensures (forall metric, positions {:trigger SpanBounds(metric, times, positions)} ::
               NonNegative(metric) && |positions| == |times| ==> SpanBounds(metric, times, positions))
       <==> Rising(times)
  {
    if Rising(times) {
      forall metric: Metric, positions | NonNegative(metric) && |positions| == |times|
        ensures SpanBounds(metric, times, positions)
      {
        RisingSpanBounds(metric, times, positions);
      }
    } else {
      var i :| 0 < i < |times| && times[i] <= times[i - 1];
      var metric, positions := StandingSpanFails(times, i);
    }
  }

  /** Timestamps that do not rise bypass the check: a second reading at the same or an
      earlier instant, any distance away, is added to the trip in full. */
  lemma NoTimeBypassesTheCheck(metric: Metric, p: Position, q: Position, at: int)
    requires at <= 0 && metric(p, q) > 0.0
    ensures var log := Run(metric, [Read(Reading(0, p, None, 0)), Read(Reading(at, q, None, 1))], 2);
            && |log.trips| == 1 && log.trips[0].startedAt == 0 && log.trips[0].lastPointAt == Some(at)
            && log.trips[0].distanceKm == metric(p, q) > ReachKm(at)
  {
    var events := [Read(Reading(0, p, None, 0)), Read(Reading(at, q, None, 1))];
    assert Run(metric, events, 0) == EMPTY;
    var first := Run(metric, events, 1);
    assert first.trips == [WithHead(metric, NewTrip(0), events[0].reading)];
    assert LatestActive(first.trips, 1) == Some(0) by { assert LatestActive(first.trips, 0) == None; }
    assert !ImplausibleJump(metric(p, q), at);
    assert (at) as real / HOUR as real <= 0.0;
  }

  /** Equal timestamps, and timestamps an hour apart the wrong way round. */
  lemma SameInstantBypassesTheCheck(metric: Metric, p: Position, q: Position)
    requires metric(p, q) > 0.0
    ensures var log := Run(metric, [Read(Reading(0, p, None, 0)), Read(Reading(0, q, None, 1))], 2);
            |log.trips| == 1 && log.trips[0].lastPointAt == Some(log.trips[0].startedAt)
            && log.trips[0].distanceKm == metric(p, q) > ReachKm(0)
    ensures var log := Run(metric, [Read(Reading(0, p, None, 0)), Read(Reading(-HOUR, q, None, 1))], 2);
            |log.trips| == 1 && log.trips[0].lastPointAt == Some(log.trips[0].startedAt - HOUR)
            && log.trips[0].distanceKm == metric(p, q) > ReachKm(-HOUR)
  {
    NoTimeBypassesTheCheck(metric, p, q, 0);
    NoTimeBypassesTheCheck(metric, p, q, -HOUR);
  }
}
