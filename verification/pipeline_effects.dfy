/** What one dispatch of the outbox worker does to the telemetry and to the safety events, said
    without the handlers: which point is stored where, and which occurrences are counted. */
module PipelineEffects {
  import opened ExactlyOnce
  import opened Ingestion
  import opened Options
  import opened Outbox
  import opened OutboxWorker
  import SafetyEngine
  import Trips

  // ---------------------------------------------------------------- a position

  /** The point says what the row's message says. */
  predicate Reports(p: Trips.TelemetryPoint, row: nat, r: IngestRow) {
    && p.origin == row && r.envelope.Some? && r.envelope.value.payload.ValidPosition?
    && p.at == r.envelope.value.occurredAt
    && p.position == r.envelope.value.payload.telemetry.position
    && p.speedKph == r.envelope.value.payload.telemetry.speedKph
  }

  /** Does the rule of this kind fire for the position of a row, by the thresholds of its organization? */
  predicate RuleFires(rules: Rules, r: IngestRow, kind: SafetyEngine.EventKind) {
    && r.envelope.Some? && r.envelope.value.payload.ValidPosition?
    && var t := r.envelope.value.payload.telemetry;
       SafetyEngine.Fires(kind, SafetyEngine.Sample(t.speedKph, t.acceleration, t.lateral),
                          rules.thresholds(r.organization))
  }

  /** All occurrences counted for a key. */
  function Occurrences(store: SafetyEngine.Store, key: SafetyEngine.Key): nat {
    SafetyEngine.CountSum(store.events, |store.events|, key)
  }

  /** An accepted position row whose vehicle is registered as `v`. */
  predicate PositionOf(registry: Registry, b: Business, row: nat, v: nat) {
    && row < |b.rows| && b.rows[row].status.Accepted?
    && b.rows[row].envelope.Some? && b.rows[row].envelope.value.payload.ValidPosition?
    && var name := VehicleName(b.rows[row].organization, b.rows[row].envelope.value.vehicle);
       name in registry && registry[name] == v
  }

  /** One point more on the trips of `v`, the one that the row reports, and no other vehicle touched. */
  ghost predicate OnePointOn(before: Business, after: Business, row: nat, v: nat)
    requires row < |before.rows|
  {
    && v in after.fleet && after.fleet.Keys == before.fleet.Keys + {v}
    && (forall u {:trigger after.fleet[u]} :: u in before.fleet && u != v ==> after.fleet[u] == before.fleet[u])
    && exists p :: Reports(p, row, before.rows[row]) && after.fleet[v].points == LogOf(before.fleet, v).points + [p]
  }

  lemma PointOfPosition(rules: Rules, registry: Registry, b: Business, row: nat, v: nat, after: Business)
    requires PositionOf(registry, b, row, v)
    requires HandlerOf(rules)(registry, b, IngestAccepted(row)) == Success(after)
    ensures after.rows == b.rows[row := b.rows[row].(status := Processed)] && after.notified == b.notified
    ensures OnePointOn(b, after, row, v)
  {
    var p := after.fleet[v].points[|after.fleet[v].points| - 1];
    assert Reports(p, row, b.rows[row]) && after.fleet[v].points == LogOf(b.fleet, v).points + [p];
  }

  lemma SafetyOfPoint(rules: Rules, registry: Registry, b: Business, row: nat, v: nat, after: Business)
    requires PositionOf(registry, b, row, v)
    requires HandlerOf(rules)(registry, b, IngestAccepted(row)) == Success(after)
    ensures var r := b.rows[row];
            var evaluation := SafetyEngine.RuleHits(SampleOf(r.envelope.value.payload.telemetry),
                                                    rules.thresholds(r.organization));
            && evaluation.Hits?
            && after.safety == SafetyEngine.AfterHits(
                 b.safety, SafetyEngine.PointContext(r.organization, v, r.envelope.value.occurredAt), evaluation.hits,
                 |evaluation.hits|)
  {}

  /** For every rule that fires the key of the vehicle gains one occurrence, and no other key gains any. */
  lemma OccurrencesOfPosition(rules: Rules, registry: Registry, b: Business, row: nat, v: nat, after: Business,
                              key: SafetyEngine.Key)
    requires PositionOf(registry, b, row, v) && SafetyEngine.Valid(b.safety)
    requires HandlerOf(rules)(registry, b, IngestAccepted(row)) == Success(after)
    ensures Occurrences(after.safety, key)
         == Occurrences(b.safety, key)
            + (if key.organization == b.rows[row].organization && key.vehicle == v
                  && RuleFires(rules, b.rows[row], key.kind) then 1 else 0)
  {
    SafetyOfPoint(rules, registry, b, row, v, after);
    var r := b.rows[row];
    var sample, thresholds := SampleOf(r.envelope.value.payload.telemetry), rules.thresholds(r.organization);
    var hits := SafetyEngine.RuleHits(sample, thresholds).hits;
    var ctx := SafetyEngine.PointContext(r.organization, v, r.envelope.value.occurredAt);
    SafetyEngine.HitsAreTheFiringRules(sample, thresholds);
    SafetyEngine.HitsOfPointCount(b.safety, ctx, hits, |hits|, key);
    SafetyEngine.OneHitForEachRule(ctx, hits, |hits|, key);
    assert SafetyEngine.ListedAmong(hits, |hits|, key.kind)
      <==> SafetyEngine.Lists(SafetyEngine.RuleHits(sample, thresholds), key.kind);
  }

  /** An event that a position inserted or counted up: of its own vehicle, of a rule that fires for it,
      and within 30 seconds of its instant; everything but the count of an older event stays. */
  ghost predicate TouchedBy(rules: Rules, before: Business, after: Business, row: nat, v: nat, id: nat)
    requires row < |before.rows| && before.rows[row].envelope.Some? && id < |after.safety.events|
  {
    var e, r := after.safety.events[id], before.rows[row];
    || (id < |before.safety.events| && e == before.safety.events[id])
    || (&& e.key.organization == r.organization && e.key.vehicle == v && RuleFires(rules, r, e.key.kind)
        && -30_000_000 <= e.occurredAt - r.envelope.value.occurredAt <= 30_000_000
        && (id < |before.safety.events| ==>
              e.(occurrenceCount := 0) == before.safety.events[id].(occurrenceCount := 0)))
  }

  lemma EventsOfPosition(rules: Rules, registry: Registry, b: Business, row: nat, v: nat, after: Business, id: nat)
    requires PositionOf(registry, b, row, v) && SafetyEngine.Valid(b.safety)
    requires HandlerOf(rules)(registry, b, IngestAccepted(row)) == Success(after) && id < |after.safety.events|
    ensures TouchedBy(rules, b, after, row, v, id)
  {
    SafetyOfPoint(rules, registry, b, row, v, after);
    var r := b.rows[row];
    var sample, thresholds := SampleOf(r.envelope.value.payload.telemetry), rules.thresholds(r.organization);
    var hits := SafetyEngine.RuleHits(sample, thresholds).hits;
    var ctx := SafetyEngine.PointContext(r.organization, v, r.envelope.value.occurredAt);
    SafetyEngine.HitsAreTheFiringRules(sample, thresholds);
    SafetyEngine.HitsOfPointTouch(b.safety, ctx, hits, |hits|);
    assert SafetyEngine.Touched(b.safety, after.safety, ctx, hits, |hits|, id);
    var kind := after.safety.events[id].key.kind;
    assert SafetyEngine.ListedAmong(hits, |hits|, kind)
      <==> SafetyEngine.Lists(SafetyEngine.RuleHits(sample, thresholds), kind);
  }

  /** A position of a registered vehicle fails, without a fault of its own, exactly when a rule fires for it
      whose threshold is zero. */
  lemma PositionFailsIff(rules: Rules, registry: Registry, b: Business, row: nat, v: nat)
    requires PositionOf(registry, b, row, v)
    ensures HandlerOf(rules)(registry, b, IngestAccepted(row)).Failure?
       <==> exists kind :: RuleFires(rules, b.rows[row], kind)
                           && SafetyEngine.ThresholdOf(kind, rules.thresholds(b.rows[row].organization)) == 0.0
  {
    var r := b.rows[row];
    var sample, thresholds := SampleOf(r.envelope.value.payload.telemetry), rules.thresholds(r.organization);
    SafetyEngine.EvaluationFailsIff(sample, thresholds);
    forall kind ensures RuleFires(rules, r, kind) <==> SafetyEngine.Fires(kind, sample, thresholds) {}
  }

  /** The effect of a position: exactly one point, the one its message reports, on the trips of the vehicle
      it is registered as; for every rule that fires one occurrence more of that vehicle's key, at an event
      within 30 seconds; and nothing else. */
  lemma PositionEffect(rules: Rules, registry: Registry, b: Business, row: nat, v: nat, after: Business)
    requires PositionOf(registry, b, row, v) && SafetyEngine.Valid(b.safety)
    requires HandlerOf(rules)(registry, b, IngestAccepted(row)) == Success(after)
    ensures after.rows == b.rows[row := b.rows[row].(status := Processed)] && after.notified == b.notified
    ensures OnePointOn(b, after, row, v)
    ensures forall key {:trigger Occurrences(after.safety, key)} ::
              Occurrences(after.safety, key)
              == Occurrences(b.safety, key)
                 + (if key.organization == b.rows[row].organization && key.vehicle == v
                       && RuleFires(rules, b.rows[row], key.kind) then 1 else 0)
    ensures forall id {:trigger TouchedBy(rules, b, after, row, v, id)} :: 0 <= id < |after.safety.events| ==>
      TouchedBy(rules, b, after, row, v, id)
  {
    PointOfPosition(rules, registry, b, row, v, after);
    forall key {:trigger Occurrences(after.safety, key)}
      ensures Occurrences(after.safety, key)
           == Occurrences(b.safety, key)
              + (if key.organization == b.rows[row].organization && key.vehicle == v
                    && RuleFires(rules, b.rows[row], key.kind) then 1 else 0)
    {
      OccurrencesOfPosition(rules, registry, b, row, v, after, key);
    }
    forall id | 0 <= id < |after.safety.events| ensures TouchedBy(rules, b, after, row, v, id) {
      EventsOfPosition(rules, registry, b, row, v, after, id);
    }
  }

  // ---------------------------------------------------------------- everything else

  /** What every other message does: a row that is not a position is processed and one of an unregistered
      vehicle quarantined; a payload that does not parse, or a row without a message of its own, fails; a
      stored safety event is notified of; a replay, a missing row and an unknown type change nothing. */
  lemma OtherEffects(rules: Rules, registry: Registry, b: Business, kind: Kind)
    requires kind.IngestAccepted? ==> forall v :: !PositionOf(registry, b, kind.row, v)
    ensures var handling := HandlerOf(rules)(registry, b, kind);
            match kind
            case Unknown => handling == Success(b)
            case SafetyCreated(event) => handling == Success(b.(notified := b.notified + [event]))
            case IngestAccepted(row) =>
              if row >= |b.rows| || !b.rows[row].status.Accepted? then handling == Success(b)
              else
                match b.rows[row].envelope
                case None => handling == Failure
                case Some(e) =>
                  handling == match e.payload
                              case InvalidPosition(_) => Failure
                              case NotAPosition =>
                                Success(b.(rows := b.rows[row := b.rows[row].(status := Processed)]))
                              case ValidPosition(_) =>
                                Success(b.(rows := b.rows[row := b.rows[row].(status := Quarantined(UnknownVehicle))]))
  {
    if kind.IngestAccepted? && kind.row < |b.rows| && b.rows[kind.row].status.Accepted?
       && b.rows[kind.row].envelope.Some? && b.rows[kind.row].envelope.value.payload.ValidPosition? {
      var name := VehicleName(b.rows[kind.row].organization, b.rows[kind.row].envelope.value.vehicle);
      if name in registry { assert PositionOf(registry, b, kind.row, registry[name]); }
    }
  }
}
