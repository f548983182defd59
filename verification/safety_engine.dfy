/** The safety-event engine: rule hits of one telemetry sample, and their deduplication into
    stored events by a 30-second window around the events already stored. */
module SafetyEngine {
  import opened Options

  // ---------------------------------------------------------------- rules

  datatype EventKind = HarshBraking | HarshAcceleration | HarshCornering | Speeding

  datatype Severity = Low | Medium | High | Critical

  datatype Sample = Sample(speedKph: Option<real>, acceleration: Option<real>, lateral: Option<real>)

  datatype Thresholds = Thresholds(braking: real, acceleration: real, cornering: real,
                                   speeding: real, sustainedSpeeding: real)

  datatype RuleHit = RuleHit(kind: EventKind, severity: Severity, measured: real, threshold: real)

  /** The rules divide by the threshold of every rule that fires. */
  datatype Evaluation = Hits(hits: seq<RuleHit>) | DivisionByZero

  function Magnitude(x: real): real {
    if x < 0.0 then -x else x
  }

  function MagnitudeSeverity(ratio: real): Severity {
    if ratio >= 2.0 then Critical else if ratio >= 1.6 then High else if ratio >= 1.25 then Medium else Low
  }

  predicate Fires(kind: EventKind, s: Sample, t: Thresholds) {
    match kind
    case HarshBraking => s.acceleration.Some? && s.acceleration.value <= -t.braking
    case HarshAcceleration => s.acceleration.Some? && s.acceleration.value >= t.acceleration
    case HarshCornering => s.lateral.Some? && Magnitude(s.lateral.value) >= t.cornering
    case Speeding => s.speedKph.Some? && s.speedKph.value > t.speeding
  }

  function ThresholdOf(kind: EventKind, t: Thresholds): real {
    match kind
    case HarshBraking => t.braking
    case HarshAcceleration => t.acceleration
    case HarshCornering => t.cornering
    case Speeding => t.speeding
  }

  function HitOf(kind: EventKind, s: Sample, t: Thresholds): RuleHit
    requires Fires(kind, s, t) && ThresholdOf(kind, t) != 0.0
  {
    match kind
    case HarshBraking =>
      var m := Magnitude(s.acceleration.value);
      RuleHit(kind, MagnitudeSeverity(m / t.braking), m, t.braking)
    case HarshAcceleration =>
      RuleHit(kind, MagnitudeSeverity(s.acceleration.value / t.acceleration), s.acceleration.value, t.acceleration)
    case HarshCornering =>
      var m := Magnitude(s.lateral.value);
      RuleHit(kind, MagnitudeSeverity(m / t.cornering), m, t.cornering)
    case Speeding =>
      RuleHit(kind, if s.speedKph.value >= t.sustainedSpeeding then High else Medium, s.speedKph.value, t.speeding)
  }

  /** The evaluation after one more rule. */
  function AddRule(before: Evaluation, kind: EventKind, s: Sample, t: Thresholds): Evaluation {
    if before.DivisionByZero? || !Fires(kind, s, t) then before
    else if ThresholdOf(kind, t) == 0.0 then DivisionByZero
    else Hits(before.hits + [HitOf(kind, s, t)])
  }

  function RuleHits(s: Sample, t: Thresholds): Evaluation {
    var braking := AddRule(Hits([]), HarshBraking, s, t);
    var acceleration := AddRule(braking, HarshAcceleration, s, t);
    var cornering := AddRule(acceleration, HarshCornering, s, t);
    AddRule(cornering, Speeding, s, t)
  }

  method EvaluatePoint(s: Sample, t: Thresholds) returns (r: Evaluation)
    ensures r == RuleHits(s, t)
  {
    var hits: seq<RuleHit> := [];
    if s.acceleration.Some? && s.acceleration.value <= -t.braking {
      if t.braking == 0.0 { return DivisionByZero; }
      var magnitude := Magnitude(s.acceleration.value);
      hits := hits + [RuleHit(HarshBraking, MagnitudeSeverity(magnitude / t.braking), magnitude, t.braking)];
    }
    ghost var braking := AddRule(Hits([]), HarshBraking, s, t);
    assert Hits(hits) == braking;
    if s.acceleration.Some? && s.acceleration.value >= t.acceleration {
      if t.acceleration == 0.0 { return DivisionByZero; }
      var a := s.acceleration.value;
      hits := hits + [RuleHit(HarshAcceleration, MagnitudeSeverity(a / t.acceleration), a, t.acceleration)];
    }
    ghost var acceleration := AddRule(braking, HarshAcceleration, s, t);
    assert Hits(hits) == acceleration;
    if s.lateral.Some? && Magnitude(s.lateral.value) >= t.cornering {
      if t.cornering == 0.0 { return DivisionByZero; }
      var magnitude := Magnitude(s.lateral.value);
      hits := hits + [RuleHit(HarshCornering, MagnitudeSeverity(magnitude / t.cornering), magnitude, t.cornering)];
    }
    assert Hits(hits) == AddRule(acceleration, HarshCornering, s, t);
    if s.speedKph.Some? && s.speedKph.value > t.speeding {
      if t.speeding == 0.0 { return DivisionByZero; }
      var severity := if s.speedKph.value >= t.sustainedSpeeding then High else Medium;
      hits := hits + [RuleHit(Speeding, severity, s.speedKph.value, t.speeding)];
    }
    return Hits(hits);
  }

  predicate Lists(e: Evaluation, kind: EventKind) {
    e.Hits? && exists i :: 0 <= i < |e.hits| && e.hits[i].kind == kind
  }

  /** Every hit is that of its rule, for this sample. */
  ghost predicate Explained(e: Evaluation, s: Sample, t: Thresholds) {
    e.Hits? && forall i {:trigger e.hits[i]} :: 0 <= i < |e.hits| ==> HitIsOf(e.hits[i], s, t)
  }

  predicate HitIsOf(h: RuleHit, s: Sample, t: Thresholds) {
    Fires(h.kind, s, t) && ThresholdOf(h.kind, t) != 0.0 && h == HitOf(h.kind, s, t)
  }

  ghost predicate DistinctKinds(e: Evaluation) {
    e.Hits? && OfDistinctKinds(e.hits)
  }

  ghost predicate OfDistinctKinds(hits: seq<RuleHit>) {
    forall i, j :: 0 <= i < j < |hits| ==> hits[i].kind != hits[j].kind
  }

  lemma AddRuleAddsItsKind(before: Evaluation, kind: EventKind, s: Sample, t: Thresholds)
    requires AddRule(before, kind, s, t).Hits? && DistinctKinds(before) && !Lists(before, kind)
    ensures var after := AddRule(before, kind, s, t);
            && DistinctKinds(after) && |after.hits| == |before.hits| + (if Fires(kind, s, t) then 1 else 0)
            && (forall k :: Lists(after, k) <==> Lists(before, k) || (k == kind && Fires(kind, s, t)))
            && (Explained(before, s, t) ==> Explained(after, s, t))
  {
    var after := AddRule(before, kind, s, t);
    forall k ensures Lists(after, k) <==> Lists(before, k) || (k == kind && Fires(kind, s, t)) {
      if Lists(before, k) {
        var i :| 0 <= i < |before.hits| && before.hits[i].kind == k;
        assert after.hits[i].kind == k;
      }
      if Fires(kind, s, t) { assert after.hits[|before.hits|].kind == kind; }
    }
  }

  /** A sample yields exactly one hit for every rule that fires, so at most four, and at most
      three when the braking and acceleration thresholds are positive: braking from minus its
      threshold on, acceleration and lateral acceleration from theirs on, speed above its own. */
  lemma HitsAreTheFiringRules(s: Sample, t: Thresholds)
    requires RuleHits(s, t).Hits?
    ensures var e := RuleHits(s, t);
            && |e.hits| <= 4
            && (t.braking > 0.0 && t.acceleration > 0.0 ==> |e.hits| <= 3)
            && DistinctKinds(e)
            && (forall kind :: Lists(e, kind) <==> Fires(kind, s, t))
            && (Lists(e, HarshBraking) <==> s.acceleration.Some? && s.acceleration.value <= -t.braking)
            && (Lists(e, HarshAcceleration) <==> s.acceleration.Some? && s.acceleration.value >= t.acceleration)
            && (Lists(e, HarshCornering)
                <==> s.lateral.Some? && (s.lateral.value >= t.cornering || -s.lateral.value >= t.cornering))
            && (Lists(e, Speeding) <==> s.speedKph.Some? && s.speedKph.value > t.speeding)
            && Explained(e, s, t)
  {
    var braking := AddRule(Hits([]), HarshBraking, s, t);
    AddRuleAddsItsKind(Hits([]), HarshBraking, s, t);
    var acceleration := AddRule(braking, HarshAcceleration, s, t);
    AddRuleAddsItsKind(braking, HarshAcceleration, s, t);
    var cornering := AddRule(acceleration, HarshCornering, s, t);
    AddRuleAddsItsKind(acceleration, HarshCornering, s, t);
    AddRuleAddsItsKind(cornering, Speeding, s, t);
  }

  /** The order of the rules: braking, acceleration, cornering, speed. */
  function Turn(kind: EventKind): nat {
    match kind
    case HarshBraking => 0
    case HarshAcceleration => 1
    case HarshCornering => 2
    case Speeding => 3
  }

  ghost predicate InTurn(e: Evaluation, next: nat) {
    e.Hits? ==>
      && (forall i, j :: 0 <= i < j < |e.hits| ==> Turn(e.hits[i].kind) < Turn(e.hits[j].kind))
      && (forall i :: 0 <= i < |e.hits| ==> Turn(e.hits[i].kind) < next)
  }

  lemma AddRuleInTurn(before: Evaluation, kind: EventKind, s: Sample, t: Thresholds)
    requires InTurn(before, Turn(kind))
    ensures InTurn(AddRule(before, kind, s, t), Turn(kind) + 1)
  {}

  /** The hits of a sample come in the order of the rules. */
  lemma HitsAreInTurn(s: Sample, t: Thresholds)
    requires RuleHits(s, t).Hits?
    ensures forall i, j :: 0 <= i < j < |RuleHits(s, t).hits| ==>
      Turn(RuleHits(s, t).hits[i].kind) < Turn(RuleHits(s, t).hits[j].kind)
  {
    var braking := AddRule(Hits([]), HarshBraking, s, t);
    var acceleration := AddRule(braking, HarshAcceleration, s, t);
    var cornering := AddRule(acceleration, HarshCornering, s, t);
    AddRuleInTurn(Hits([]), HarshBraking, s, t);
    AddRuleInTurn(braking, HarshAcceleration, s, t);
    AddRuleInTurn(acceleration, HarshCornering, s, t);
    AddRuleInTurn(cornering, Speeding, s, t);
  }

  /** The evaluation fails exactly when a rule fires whose threshold is zero. */
  lemma EvaluationFailsIff(s: Sample, t: Thresholds)
    ensures RuleHits(s, t).DivisionByZero? <==> exists kind :: Fires(kind, s, t) && ThresholdOf(kind, t) == 0.0
  {
    var braking := AddRule(Hits([]), HarshBraking, s, t);
    var acceleration := AddRule(braking, HarshAcceleration, s, t);
    var cornering := AddRule(acceleration, HarshCornering, s, t);
    AddRuleFailsIff(Hits([]), HarshBraking, s, t);
    AddRuleFailsIff(braking, HarshAcceleration, s, t);
    AddRuleFailsIff(acceleration, HarshCornering, s, t);
    AddRuleFailsIff(cornering, Speeding, s, t);
    if exists kind :: Fires(kind, s, t) && ThresholdOf(kind, t) == 0.0 {
      var kind :| Fires(kind, s, t) && ThresholdOf(kind, t) == 0.0;
      match kind
      case HarshBraking =>
      case HarshAcceleration =>
      case HarshCornering =>
      case Speeding =>
    }
  }

  lemma AddRuleFailsIff(before: Evaluation, kind: EventKind, s: Sample, t: Thresholds)
    ensures AddRule(before, kind, s, t).DivisionByZero?
       <==> before.DivisionByZero? || (Fires(kind, s, t) && ThresholdOf(kind, t) == 0.0)
  {}

  /** Concretely: with a cornering threshold of zero every sample that reports a lateral
      acceleration fails, even one of zero, and with it every other hit of the sample. */
  lemma ZeroThresholdFails(s: Sample, t: Thresholds)
    requires s.lateral.Some? && t.cornering == 0.0
    ensures RuleHits(s, t) == DivisionByZero
    ensures RuleHits(Sample(Some(200.0), None, Some(0.0)), Thresholds(3.5, 3.0, 0.0, 120.0, 130.0)) == DivisionByZero
  {
    assert Fires(HarshCornering, s, t) && ThresholdOf(HarshCornering, t) == 0.0;
    EvaluationFailsIff(s, t);
    var quiet, zero := Sample(Some(200.0), None, Some(0.0)), Thresholds(3.5, 3.0, 0.0, 120.0, 130.0);
    assert Fires(HarshCornering, quiet, zero) && ThresholdOf(HarshCornering, zero) == 0.0;
    EvaluationFailsIff(quiet, zero);
  }

  lemma RatioReaches(measured: real, threshold: real, bound: real)
    requires threshold > 0.0
    ensures measured / threshold >= bound <==> measured >= bound * threshold
  {
    var q := measured / threshold;
    assert q * threshold == measured;
    if q >= bound { assert (q - bound) * threshold >= 0.0; }
    if q < bound { assert (bound - q) * threshold > 0.0; }
  }

  /** What a hit reports: the size of the acceleration or the speed, and the threshold of its rule. Hits
      lie past a positive threshold, and the severity says how far: medium from 1.25 times
      the threshold, high from 1.6, critical from twice; speeding is high from the sustained limit
      and medium below it. */
  lemma SeverityIsTheExcess(kind: EventKind, s: Sample, t: Thresholds)
    requires Fires(kind, s, t) && ThresholdOf(kind, t) > 0.0
    ensures var h := HitOf(kind, s, t);
            && h.kind == kind && h.measured >= h.threshold
            && (kind.HarshBraking? ==> h.threshold == t.braking && h.measured == -s.acceleration.value)
            && (kind.HarshAcceleration? ==> h.threshold == t.acceleration && h.measured == s.acceleration.value)
            && (kind.HarshCornering? ==>
                  h.threshold == t.cornering && (h.measured == s.lateral.value || h.measured == -s.lateral.value))
            && (kind.Speeding? ==> h.threshold == t.speeding && h.measured == s.speedKph.value)
            && (kind.Speeding? ==> h.severity == if h.measured >= t.sustainedSpeeding then High else Medium)
            && (!kind.Speeding? ==>
                  && (h.severity.Critical? <==> h.measured >= 2.0 * h.threshold)
                  && (h.severity.High? || h.severity.Critical? <==> h.measured >= 1.6 * h.threshold)
                  && (h.severity.Low? <==> h.measured < 1.25 * h.threshold))
  {
    var h := HitOf(kind, s, t);
    RatioReaches(h.measured, h.threshold, 2.0);
    RatioReaches(h.measured, h.threshold, 1.6);
    RatioReaches(h.measured, h.threshold, 1.25);
  }

  // ---------------------------------------------------------------- stored events

  /** Instants are whole microseconds. */
  const DEDUP_WINDOW: int := 30_000_000

  datatype Key = Key(organization: nat, vehicle: nat, kind: EventKind)

  datatype DedupKey = DedupKey(vehicle: nat, kind: EventKind, millisecond: int)

  datatype SafetyEvent = SafetyEvent(key: Key, occurredAt: int, severity: Severity, dedupKey: DedupKey,
                                     occurrenceCount: nat)

  /** Events are identified by their position; evidence rows and published outbox messages
      name the event they belong to. */
  datatype Store = Store(events: seq<SafetyEvent>, evidence: seq<nat>, published: seq<nat>)

  const EMPTY := Store([], [], [])

  /** int(timestamp * 1000), which truncates toward zero. */
  function Millisecond(t: int): int {
    if t >= 0 then t / 1000 else -((-t) / 1000)
  }

  function DedupKeyOf(key: Key, t: int): DedupKey {
    DedupKey(key.vehicle, key.kind, Millisecond(t))
  }

  predicate Near(t: int, u: int) {
    -DEDUP_WINDOW <= t - u <= DEDUP_WINDOW
  }

  /** The earliest of the first `n` events of `key` in the window around `t`. */
  function Existing(events: seq<SafetyEvent>, n: nat, key: Key, t: int): (r: Option<nat>)
    requires n <= |events|
    ensures r.Some? ==> r.value < n && events[r.value].key == key && Near(events[r.value].occurredAt, t)
    ensures r.Some? ==> forall i :: 0 <= i < n && events[i].key == key && Near(events[i].occurredAt, t) ==>
      events[r.value].occurredAt <= events[i].occurredAt
    ensures r.None? ==> forall i :: 0 <= i < n && events[i].key == key ==> !Near(events[i].occurredAt, t)
  {
    if n == 0 then None
    else
      var before, e := Existing(events, n - 1, key, t), events[n - 1];
      if e.key == key && Near(e.occurredAt, t) && (before.None? || e.occurredAt < events[before.value].occurredAt)
      then Some(n - 1) else before
  }

  /** The row of the first `n` that an insert with this unique key would conflict with. */
  function Conflict(events: seq<SafetyEvent>, n: nat, organization: nat, dedupKey: DedupKey): (r: Option<nat>)
    requires n <= |events|
    ensures r.Some? ==> r.value < n && events[r.value].key.organization == organization
    ensures r.Some? ==> events[r.value].dedupKey == dedupKey
    ensures r.None? ==> forall i :: 0 <= i < n ==>
      events[i].key.organization != organization || events[i].dedupKey != dedupKey
  {
    if n == 0 then None
    else if events[n - 1].key.organization == organization && events[n - 1].dedupKey == dedupKey then Some(n - 1)
    else Conflict(events, n - 1, organization, dedupKey)
  }

  function Bumped(store: Store, id: nat): Store
    requires id < |store.events|
  {
    store.(events := store.events[id := store.events[id].(occurrenceCount := store.events[id].occurrenceCount + 1)])
  }

  function Inserted(store: Store, key: Key, t: int, severity: Severity): Store {
    Store(store.events + [SafetyEvent(key, t, severity, DedupKeyOf(key, t), 1)],
          store.evidence + [|store.events|], store.published + [|store.events|])
  }

  /** One hit of `key` at instant `t`; the second component is the id of its event. */
  function Persisted(store: Store, key: Key, t: int, severity: Severity): (Store, nat) {
    var existing := Existing(store.events, |store.events|, key, t);
    var conflict := Conflict(store.events, |store.events|, key.organization, DedupKeyOf(key, t));
    if existing.Some? then (Bumped(store, existing.value), existing.value)
    else if conflict.Some? then (Bumped(store, conflict.value), conflict.value)
    else (Inserted(store, key, t, severity), |store.events|)
  }

  datatype PointContext = PointContext(organization: nat, vehicle: nat, occurredAt: int)

  function KeyFor(ctx: PointContext, kind: EventKind): Key {
    Key(ctx.organization, ctx.vehicle, kind)
  }

  /** The store after the first `n` hits of one telemetry point. */
  function AfterHits(store: Store, ctx: PointContext, hits: seq<RuleHit>, n: nat): Store
    requires n <= |hits|
  {
    if n == 0 then store
    else Persisted(AfterHits(store, ctx, hits, n - 1), KeyFor(ctx, hits[n - 1].kind), ctx.occurredAt,
                   hits[n - 1].severity).0
  }

  class Engine {
    var events: seq<SafetyEvent>
    var evidence: seq<nat>
    var published: seq<nat>

    ghost function State(): Store
      reads this
    {
      Store(events, evidence, published)
    }

    method Persist(ctx: PointContext, hit: RuleHit) returns (id: nat)
      modifies this
      ensures (State(), id) == Persisted(old(State()), KeyFor(ctx, hit.kind), ctx.occurredAt, hit.severity)
    {
      var key := KeyFor(ctx, hit.kind);
      var existing := Existing(events, |events|, key, ctx.occurredAt);
      if existing.Some? {
        var row := events[existing.value];
        events := events[existing.value := row.(occurrenceCount := row.occurrenceCount + 1)];
        return existing.value;
      }
      var dedupKey := DedupKeyOf(key, ctx.occurredAt);
      var newId := |events|;
      var conflict := Conflict(events, |events|, ctx.organization, dedupKey);
      id := newId;
      if conflict.Some? {
        id := conflict.value;
        events := events[id := events[id].(occurrenceCount := events[id].occurrenceCount + 1)];
      } else {
        events := events + [SafetyEvent(key, ctx.occurredAt, hit.severity, dedupKey, 1)];
      }
      if id != newId {
        return id;
      }
      evidence := evidence + [id];
      published := published + [id];
    }

    method Evaluate(ctx: PointContext, sample: Sample, thresholds: Thresholds)
      returns (ok: bool, eventIds: seq<nat>)
      modifies this
      ensures ok == RuleHits(sample, thresholds).Hits?
      ensures !ok ==> State() == old(State())
      ensures ok ==> var hits := RuleHits(sample, thresholds).hits;
                     State() == AfterHits(old(State()), ctx, hits, |hits|) && |eventIds| == |hits|
    {
      eventIds := [];
      var evaluation := EvaluatePoint(sample, thresholds);
      if evaluation.DivisionByZero? {
        return false, [];
      }
      var hits := evaluation.hits;
      for i := 0 to |hits|
        invariant State() == AfterHits(old(State()), ctx, hits, i)
        invariant |eventIds| == i
      {
        var id := Persist(ctx, hits[i]);
        eventIds := eventIds + [id];
      }
      ok := true;
    }
  }

  // ---------------------------------------------------------------- what every hit keeps

  ghost predicate Valid(store: Store) {
    && store.evidence == seq(|store.events|, i => i)
    && store.published == seq(|store.events|, i => i)
    && (forall i :: 0 <= i < |store.events| ==>
          store.events[i].dedupKey == DedupKeyOf(store.events[i].key, store.events[i].occurredAt))
    && (forall i, j :: 0 <= i < j < |store.events| && store.events[i].key == store.events[j].key ==>
          !Near(store.events[i].occurredAt, store.events[j].occurredAt))
  }

  lemma SameMillisecondIsNear(t: int, u: int)
    requires Millisecond(t) == Millisecond(u)
    ensures Near(t, u)
  {}

  /** When no event lies in the window, no stored row has the exact-instant key: under the lock
      the ON CONFLICT branch is never taken. */
  lemma ConflictIsUnreachable(store: Store, key: Key, t: int)
    requires Valid(store)
    requires Existing(store.events, |store.events|, key, t).None?
    ensures Conflict(store.events, |store.events|, key.organization, DedupKeyOf(key, t)).None?
  {
    var c := Conflict(store.events, |store.events|, key.organization, DedupKeyOf(key, t));
    if c.Some? {
      var e := store.events[c.value];
      SameMillisecondIsNear(e.occurredAt, t);
      assert false;
    }
  }

  lemma PersistedKeepsValid(store: Store, key: Key, t: int, severity: Severity)
    requires Valid(store)
    ensures Valid(Persisted(store, key, t, severity).0)
    ensures |Persisted(store, key, t, severity).0.events| <= |store.events| + 1
    ensures Persisted(store, key, t, severity).1 < |Persisted(store, key, t, severity).0.events|
    ensures var e := Persisted(store, key, t, severity).0.events[Persisted(store, key, t, severity).1];
            e.key == key && Near(e.occurredAt, t)
  {
    if Existing(store.events, |store.events|, key, t).None? {
      ConflictIsUnreachable(store, key, t);
    }
  }

  /** What one hit does: it is counted on an event of its key within 30 seconds of it, or stored as a new
      event with its instant and severity, a piece of evidence and a message. */
  ghost predicate OneHit(before: Store, after: Store, key: Key, t: int, severity: Severity, id: nat) {
    if id < |before.events| then
      && before.events[id].key == key && -30_000_000 <= before.events[id].occurredAt - t <= 30_000_000
      && after == before.(events := before.events[id := before.events[id].(occurrenceCount :=
                                                       before.events[id].occurrenceCount + 1)])
    else
      && |after.events| == |before.events| + 1 == id + 1 && after.events[..id] == before.events
      && after.events[id].key == key && after.events[id].occurredAt == t && after.events[id].severity == severity
      && after.events[id].occurrenceCount == 1
      && after.evidence == before.evidence + [id] && after.published == before.published + [id]
      && forall i :: 0 <= i < id && before.events[i].key == key ==>
           before.events[i].occurredAt < t - 30_000_000 || before.events[i].occurredAt > t + 30_000_000
  }

  lemma PersistedIsOneHit(store: Store, key: Key, t: int, severity: Severity)
    requires Valid(store)
    ensures var (after, id) := Persisted(store, key, t, severity); OneHit(store, after, key, t, severity, id)
  {
    var existing := Existing(store.events, |store.events|, key, t);
    if existing.None? { ConflictIsUnreachable(store, key, t); }
  }

  // ---------------------------------------------------------------- runs of hits

  datatype Hit = Hit(key: Key, at: int, severity: Severity)

  /** The store after the first `n` hits of a run, whichever workers produced them. */
  function Run(hits: seq<Hit>, n: nat): Store
    requires n <= |hits|
  {
    if n == 0 then EMPTY else Persisted(Run(hits, n - 1), hits[n - 1].key, hits[n - 1].at, hits[n - 1].severity).0
  }

  lemma {:induction false} RunIsValid(hits: seq<Hit>, n: nat)
    requires n <= |hits|
    ensures Valid(Run(hits, n)) && |Run(hits, n).events| <= n
  {
    if n > 0 {
      RunIsValid(hits, n - 1);
      PersistedKeepsValid(Run(hits, n - 1), hits[n - 1].key, hits[n - 1].at, hits[n - 1].severity);
    }
  }

  function HitCount(hits: seq<Hit>, n: nat, key: Key): nat
    requires n <= |hits|
  {
    if n == 0 then 0 else HitCount(hits, n - 1, key) + (if hits[n - 1].key == key then 1 else 0)
  }

  /** The occurrence counts of the first `n` events of one key, added up. */
  function CountSum(events: seq<SafetyEvent>, n: nat, key: Key): nat
    requires n <= |events|
  {
    if n == 0 then 0
    else CountSum(events, n - 1, key) + (if events[n - 1].key == key then events[n - 1].occurrenceCount else 0)
  }

  lemma {:induction false} CountSumOfPrefix(events: seq<SafetyEvent>, more: seq<SafetyEvent>, n: nat, key: Key)
    requires n <= |events| <= |more| && forall i :: 0 <= i < n ==> more[i] == events[i]
    ensures CountSum(more, n, key) == CountSum(events, n, key)
  {
    if n > 0 { CountSumOfPrefix(events, more, n - 1, key); }
  }

  lemma {:induction false} CountSumAfterBump(store: Store, id: nat, n: nat, key: Key)
    requires id < |store.events| && n <= |store.events|
    ensures CountSum(Bumped(store, id).events, n, key)
         == CountSum(store.events, n, key) + (if id < n && store.events[id].key == key then 1 else 0)
  {
    if n > 0 { CountSumAfterBump(store, id, n - 1, key); }
  }

  lemma CountSumAfterHit(store: Store, h: Hit, key: Key, after: Store)
    requires Valid(store) && after == Persisted(store, h.key, h.at, h.severity).0
    ensures CountSum(after.events, |after.events|, key)
         == CountSum(store.events, |store.events|, key) + (if h.key == key then 1 else 0)
  {
    var existing := Existing(store.events, |store.events|, h.key, h.at);
    if existing.Some? {
      CountSumAfterBump(store, existing.value, |store.events|, key);
    } else {
      ConflictIsUnreachable(store, h.key, h.at);
      CountSumOfPrefix(store.events, Inserted(store, h.key, h.at, h.severity).events, |store.events|, key);
    }
  }

  /** No hit is lost or counted twice: the counts of the events of a key add up to its hits. */
  lemma {:induction false} HitsAreConserved(hits: seq<Hit>, n: nat, key: Key)
    requires n <= |hits|
    ensures CountSum(Run(hits, n).events, |Run(hits, n).events|, key) == HitCount(hits, n, key)
  {
    if n > 0 {
      HitsAreConserved(hits, n - 1, key);
      RunIsValid(hits, n - 1);
      CountSumAfterHit(Run(hits, n - 1), hits[n - 1], key, Run(hits, n));
    }
  }

  /** Event `id` was inserted by hit `i` and keeps its key, its instant and its severity. */
  ghost predicate InsertedBy(hits: seq<Hit>, i: nat, id: nat, e: SafetyEvent)
    requires i < |hits|
  {
    && |Run(hits, i).events| == id && |Run(hits, i + 1).events| == id + 1
    && e.key == hits[i].key && e.occurredAt == hits[i].at && e.severity == hits[i].severity
  }

  lemma {:induction false} InsertionStays(hits: seq<Hit>, i: nat, id: nat, e: SafetyEvent, later: SafetyEvent)
    requires i < |hits| && InsertedBy(hits, i, id, e)
    requires later.key == e.key && later.occurredAt == e.occurredAt && later.severity == e.severity
    ensures InsertedBy(hits, i, id, later)
  {}

  /** The severity of a stored event is that of the hit that inserted it: later hits only count. */
  lemma {:induction false} SeverityIsThatOfTheFirstHit(hits: seq<Hit>, n: nat, id: nat) returns (i: nat)
    requires n <= |hits| && id < |Run(hits, n).events|
    ensures i < n && InsertedBy(hits, i, id, Run(hits, n).events[id])
  {
    var before, after, h := Run(hits, n - 1), Run(hits, n), hits[n - 1];
    RunIsValid(hits, n - 1);
    PersistedIsOneHit(before, h.key, h.at, h.severity);
    if id < |before.events| {
      i := SeverityIsThatOfTheFirstHit(hits, n - 1, id);
      SameButCounted(before, after, h, Persisted(before, h.key, h.at, h.severity).1, id);
      InsertionStays(hits, i, id, before.events[id], after.events[id]);
    } else {
      i := n - 1;
    }
  }

  lemma SameButCounted(before: Store, after: Store, h: Hit, at: nat, id: nat)
    requires id < |before.events| && OneHit(before, after, h.key, h.at, h.severity, at)
    ensures id < |after.events|
    ensures after.events[id].(occurrenceCount := 0) == before.events[id].(occurrenceCount := 0)
  {
    if at >= |before.events| { assert after.events[..at][id] == before.events[id]; }
  }

  // ---------------------------------------------------------------- the hits of one point

  predicate ListedAmong(hits: seq<RuleHit>, n: nat, kind: EventKind)
    requires n <= |hits|
  {
    exists i :: 0 <= i < n && hits[i].kind == kind
  }

  lemma {:induction false} HitsOfPointKeepValid(store: Store, ctx: PointContext, hits: seq<RuleHit>, n: nat)
    requires n <= |hits| && Valid(store)
    ensures Valid(AfterHits(store, ctx, hits, n))
  {
    if n > 0 {
      HitsOfPointKeepValid(store, ctx, hits, n - 1);
      PersistedKeepsValid(AfterHits(store, ctx, hits, n - 1), KeyFor(ctx, hits[n - 1].kind), ctx.occurredAt,
                          hits[n - 1].severity);
    }
  }

  lemma OneMoreHitCounts(before: Store, ctx: PointContext, hit: RuleHit, key: Key)
    requires Valid(before)
    ensures var after := Persisted(before, KeyFor(ctx, hit.kind), ctx.occurredAt, hit.severity).0;
            CountSum(after.events, |after.events|, key)
            == CountSum(before.events, |before.events|, key) + (if key == KeyFor(ctx, hit.kind) then 1 else 0)
  {
    var h := Hit(KeyFor(ctx, hit.kind), ctx.occurredAt, hit.severity);
    CountSumAfterHit(before, h, key, Persisted(before, h.key, h.at, h.severity).0);
  }

  /** How many of the first `n` hits of a point belong to a key. */
  function HitsOn(ctx: PointContext, hits: seq<RuleHit>, n: nat, key: Key): nat
    requires n <= |hits|
  {
    if n == 0 then 0 else HitsOn(ctx, hits, n - 1, key) + (if key == KeyFor(ctx, hits[n - 1].kind) then 1 else 0)
  }

  lemma {:induction false} HitsOfPointCount(store: Store, ctx: PointContext, hits: seq<RuleHit>, n: nat, key: Key)
    requires n <= |hits| && Valid(store)
    ensures var after := AfterHits(store, ctx, hits, n);
            CountSum(after.events, |after.events|, key)
            == CountSum(store.events, |store.events|, key) + HitsOn(ctx, hits, n, key)
  {
    if n > 0 {
      HitsOfPointCount(store, ctx, hits, n - 1, key);
      HitsOfPointKeepValid(store, ctx, hits, n - 1);
      OneMoreHitCounts(AfterHits(store, ctx, hits, n - 1), ctx, hits[n - 1], key);
    }
  }

  /** A key has one hit of a point when it is a key of the point whose rule hit, and otherwise none. */
  lemma {:induction false} OneHitForEachRule(ctx: PointContext, hits: seq<RuleHit>, n: nat, key: Key)
    requires n <= |hits| && OfDistinctKinds(hits)
    ensures HitsOn(ctx, hits, n, key)
         == if key.organization == ctx.organization && key.vehicle == ctx.vehicle && ListedAmong(hits, n, key.kind)
            then 1 else 0
  {
    if n > 0 {
      OneHitForEachRule(ctx, hits, n - 1, key);
      ListedStep(hits, n - 1, key.kind);
    }
  }

  lemma ListedStep(hits: seq<RuleHit>, n: nat, kind: EventKind)
    requires n < |hits| && OfDistinctKinds(hits)
    ensures ListedAmong(hits, n + 1, kind) <==> ListedAmong(hits, n, kind) || hits[n].kind == kind
    ensures hits[n].kind == kind ==> !ListedAmong(hits, n, kind)
  {}

  /** What may have happened to event `id`: nothing, or it belongs to the point, lies within 30 seconds
      of its instant and was inserted or counted up, by one rule of these that hit. */
  ghost predicate Touched(before: Store, after: Store, ctx: PointContext, hits: seq<RuleHit>, n: nat, id: nat)
    requires n <= |hits| && id < |after.events|
  {
    var e := after.events[id];
    || (id < |before.events| && e == before.events[id])
    || (&& e.key.organization == ctx.organization && e.key.vehicle == ctx.vehicle && ListedAmong(hits, n, e.key.kind)
        && -30_000_000 <= e.occurredAt - ctx.occurredAt <= 30_000_000
        && (if id < |before.events| then e.(occurrenceCount := 0) == before.events[id].(occurrenceCount := 0)
            else e.occurredAt == ctx.occurredAt))
  }

  ghost predicate AllTouched(before: Store, after: Store, ctx: PointContext, hits: seq<RuleHit>, n: nat)
    requires n <= |hits|
  {
    |before.events| <= |after.events|
    && forall id {:trigger Touched(before, after, ctx, hits, n, id)} :: 0 <= id < |after.events| ==>
         Touched(before, after, ctx, hits, n, id)
  }

  lemma TouchedByOneMore(store: Store, before: Store, after: Store, ctx: PointContext, hits: seq<RuleHit>, n: nat,
                         at: nat)
    requires n < |hits| && AllTouched(store, before, ctx, hits, n)
    requires OneHit(before, after, KeyFor(ctx, hits[n].kind), ctx.occurredAt, hits[n].severity, at)
    ensures AllTouched(store, after, ctx, hits, n + 1)
  {
    assert ListedAmong(hits, n + 1, hits[n].kind);
    var more := n + 1;
    forall id | 0 <= id < |after.events|
      ensures Touched(store, after, ctx, hits, more, id)
    {
      if id < |before.events| {
        assert Touched(store, before, ctx, hits, n, id);
        if at >= |before.events| { assert after.events[..at][id] == before.events[id]; }
        ListedLater(hits, n, before.events[id].key.kind);
      }
    }
  }

  lemma ListedLater(hits: seq<RuleHit>, n: nat, kind: EventKind)
    requires n < |hits|
    ensures ListedAmong(hits, n, kind) ==> ListedAmong(hits, n + 1, kind)
  {}

  lemma NextHitTouches(store: Store, before: Store, ctx: PointContext, hits: seq<RuleHit>, n: nat)
    requires n < |hits| && Valid(before) && AllTouched(store, before, ctx, hits, n)
    ensures AllTouched(store, Persisted(before, KeyFor(ctx, hits[n].kind), ctx.occurredAt, hits[n].severity).0, ctx,
                       hits, n + 1)
  {
    var (after, at) := Persisted(before, KeyFor(ctx, hits[n].kind), ctx.occurredAt, hits[n].severity);
    PersistedIsOneHit(before, KeyFor(ctx, hits[n].kind), ctx.occurredAt, hits[n].severity);
    TouchedByOneMore(store, before, after, ctx, hits, n, at);
  }

  lemma {:induction false} HitsOfPointTouch(store: Store, ctx: PointContext, hits: seq<RuleHit>, n: nat)
    requires n <= |hits| && Valid(store)
    ensures AllTouched(store, AfterHits(store, ctx, hits, n), ctx, hits, n)
  {
    if n > 0 {
      HitsOfPointTouch(store, ctx, hits, n - 1);
      HitsOfPointKeepValid(store, ctx, hits, n - 1);
      NextHitTouches(store, AfterHits(store, ctx, hits, n - 1), ctx, hits, n - 1);
    }
  }

  // ---------------------------------------------------------------- nets of instants

  /** The instants of the first `n` events that belong to one key. */
  function InstantsOf(events: seq<SafetyEvent>, n: nat, key: Key): set<int>
    requires n <= |events|
  {
    if n == 0 then {}
    else InstantsOf(events, n - 1, key) + (if events[n - 1].key == key then {events[n - 1].occurredAt} else {})
  }

  function Instants(events: seq<SafetyEvent>, key: Key): set<int> {
    InstantsOf(events, |events|, key)
  }

  lemma {:induction false} InstantsListed(events: seq<SafetyEvent>, n: nat, key: Key, t: int)
    requires n <= |events|
    ensures t in InstantsOf(events, n, key)
      <==> exists i :: 0 <= i < n && events[i].key == key && events[i].occurredAt == t
  {
    if n > 0 { InstantsListed(events, n - 1, key, t); }
  }

  lemma {:induction false} InstantsOfSameRows(events: seq<SafetyEvent>, more: seq<SafetyEvent>, n: nat, key: Key)
    requires n <= |events| <= |more|
    requires forall i :: 0 <= i < n ==> more[i].key == events[i].key && more[i].occurredAt == events[i].occurredAt
    ensures InstantsOf(more, n, key) == InstantsOf(events, n, key)
  {
    if n > 0 { InstantsOfSameRows(events, more, n - 1, key); }
  }

  /** The instants of the first `n` hits of one key, in processing order. */
  function HitInstants(hits: seq<Hit>, n: nat, key: Key): seq<int>
    requires n <= |hits|
  {
    if n == 0 then []
    else
      var earlier := HitInstants(hits, n - 1, key);
      if hits[n - 1].key == key then earlier + [hits[n - 1].at] else earlier
  }

  predicate Covered(net: set<int>, t: int) {
    exists x :: x in net && Near(x, t)
  }

  /** The net built greedily from the first `n` instants: an instant enters unless it is covered. */
  function Net(times: seq<int>, n: nat): set<int>
    requires n <= |times|
  {
    if n == 0 then {}
    else
      var before := Net(times, n - 1);
      if Covered(before, times[n - 1]) then before else before + {times[n - 1]}
  }

  lemma {:induction false} NetOfPrefix(times: seq<int>, more: seq<int>, n: nat)
    requires n <= |times| <= |more| && forall i :: 0 <= i < n ==> more[i] == times[i]
    ensures Net(more, n) == Net(times, n)
  {
    if n > 0 { NetOfPrefix(times, more, n - 1); }
  }

  lemma NetAfterInstant(times: seq<int>, t: int)
    ensures var before := Net(times, |times|);
            Net(times + [t], |times| + 1) == before + (if Covered(before, t) then {} else {t})
  {
    NetOfPrefix(times, times + [t], |times|);
  }

  lemma InstantsAfterHit(store: Store, h: Hit, key: Key)
    requires Valid(store)
    ensures Instants(Persisted(store, h.key, h.at, h.severity).0.events, key)
         == Instants(store.events, key)
            + (if h.key == key && !Covered(Instants(store.events, key), h.at) then {h.at} else {})
  {
    var e, after := store.events, Persisted(store, h.key, h.at, h.severity).0.events;
    var existing := Existing(e, |e|, h.key, h.at);
    if existing.None? { ConflictIsUnreachable(store, h.key, h.at); }
    InstantsOfSameRows(e, after, |e|, key);
    if h.key == key {
      if existing.Some? {
        InstantsListed(e, |e|, key, e[existing.value].occurredAt);
      } else if Covered(Instants(e, key), h.at) {
        var x :| x in Instants(e, key) && Near(x, h.at);
        InstantsListed(e, |e|, key, x);
        assert false;
      }
    }
  }

  /** What one more hit does to the instants of its key's events is what it does to the net. */
  lemma NetStep(store: Store, h: Hit, key: Key, times: seq<int>)
    requires Valid(store)
    requires Instants(store.events, key) == Net(times, |times|)
    ensures var more := if h.key == key then times + [h.at] else times;
            Instants(Persisted(store, h.key, h.at, h.severity).0.events, key) == Net(more, |more|)
  {
    InstantsAfterHit(store, h, key);
    NetAfterInstant(times, h.at);
  }

  /** The events of one key are the net of that key's hits, whatever hits of other keys came between. */
  lemma {:induction false} RunStoresTheNet(hits: seq<Hit>, n: nat, key: Key)
    requires n <= |hits|
    ensures Instants(Run(hits, n).events, key) == Net(HitInstants(hits, n, key), |HitInstants(hits, n, key)|)
  {
    if n > 0 {
      RunStoresTheNet(hits, n - 1, key);
      RunIsValid(hits, n - 1);
      NetStep(Run(hits, n - 1), hits[n - 1], key, HitInstants(hits, n - 1, key));
    }
  }

  function EventCount(events: seq<SafetyEvent>, n: nat, key: Key): nat
    requires n <= |events|
  {
    if n == 0 then 0 else EventCount(events, n - 1, key) + (if events[n - 1].key == key then 1 else 0)
  }

  lemma InstantIsNew(store: Store, n: nat)
    requires Valid(store) && n < |store.events|
    ensures store.events[n].occurredAt !in InstantsOf(store.events, n, store.events[n].key)
  {
    var e := store.events[n];
    InstantsListed(store.events, n, e.key, e.occurredAt);
  }

  lemma {:induction false} EventCountIsNetSize(store: Store, n: nat, key: Key)
    requires Valid(store) && n <= |store.events|
    ensures EventCount(store.events, n, key) == |InstantsOf(store.events, n, key)|
  {
    if n > 0 {
      EventCountIsNetSize(store, n - 1, key);
      InstantIsNew(store, n - 1);
    }
  }

  ghost predicate Separated(net: set<int>) {
    forall x, y :: x in net && y in net && x != y ==> !Near(x, y)
  }

  lemma {:induction false} NetIsMaximal(times: seq<int>, n: nat)
    requires n <= |times|
    ensures Separated(Net(times, n))
    ensures forall x :: x in Net(times, n) ==> x in times[..n]
    ensures forall i :: 0 <= i < n ==> Covered(Net(times, n), times[i])
  {
    if n > 0 {
      NetIsMaximal(times, n - 1);
      assert times[..n] == times[..n - 1] + [times[n - 1]];
      var before, t := Net(times, n - 1), times[n - 1];
      forall i | 0 <= i < n ensures Covered(Net(times, n), times[i]) {
        if i < n - 1 {
          var x :| x in before && Near(x, times[i]);
          assert x in Net(times, n);
        } else if !Covered(before, t) {
          assert t in Net(times, n) && Near(t, t);
        }
      }
    }
  }

  /** The stored events form a maximal net of the hits: events of one key lie more than 30 s
      apart and every hit lies within 30 s of one of them. */
  lemma StoredEventsAreAMaximalNet(hits: seq<Hit>, key: Key)
    ensures Separated(Instants(Run(hits, |hits|).events, key))
    ensures var instants := Instants(Run(hits, |hits|).events, key);
            forall x, y :: x in instants && y in instants && x < y ==> y - x > 30_000_000
    ensures forall i :: 0 <= i < |hits| && hits[i].key == key ==>
      Covered(Instants(Run(hits, |hits|).events, key), hits[i].at)
    ensures forall i :: 0 <= i < |hits| && hits[i].key == key ==>
      exists x :: x in Instants(Run(hits, |hits|).events, key) && -30_000_000 <= x - hits[i].at <= 30_000_000
    ensures EventCount(Run(hits, |hits|).events, |Run(hits, |hits|).events|, key)
      == |Instants(Run(hits, |hits|).events, key)|
  {
    var times, store := HitInstants(hits, |hits|, key), Run(hits, |hits|);
    RunStoresTheNet(hits, |hits|, key);
    NetIsMaximal(times, |times|);
    forall i | 0 <= i < |hits| && hits[i].key == key ensures Covered(Instants(store.events, key), hits[i].at) {
      HitInstantListed(hits, |hits|, key, i);
    }
    RunIsValid(hits, |hits|);
    EventCountIsNetSize(store, |store.events|, key);
  }

  lemma {:induction false} HitInstantListed(hits: seq<Hit>, n: nat, key: Key, i: nat)
    requires i < n <= |hits| && hits[i].key == key
    ensures exists j :: 0 <= j < |HitInstants(hits, n, key)| && HitInstants(hits, n, key)[j] == hits[i].at
  {
    var times := HitInstants(hits, n, key);
    if i == n - 1 {
      assert times[|times| - 1] == hits[i].at;
    } else {
      HitInstantListed(hits, n - 1, key, i);
      var earlier := HitInstants(hits, n - 1, key);
      var j :| 0 <= j < |earlier| && earlier[j] == hits[i].at;
      assert times[j] == hits[i].at;
    }
  }

  // ---------------------------------------------------------------- order robustness

  lemma Pick<T>(s: set<T>) returns (x: T)
    requires s != {}
    ensures x in s
  {
    x :| x in s;
  }

  lemma SeparatedInOtherCells(net: set<int>, centres: set<int>, offset: int, p: int, c: int, q: int)
    requires Separated(net) && p in net && q in net && p != q
    requires InCell(p, c, offset) && InSomeCell(q, centres, offset)
    ensures InSomeCell(q, centres - {c}, offset)
  {
    var d :| d in centres && InCell(q, d, offset);
    assert !Near(p, q);
    assert d in centres - {c};
  }

  /** Every element of `net` lies in a 30-second cell at a fixed offset from some centre: then
      a separated net has at most one element per centre. */
  lemma {:induction false} OnePerCell(net: set<int>, centres: set<int>, offset: int)
    requires Separated(net)
    requires forall p :: p in net ==> InSomeCell(p, centres, offset)
    ensures |net| <= |centres|
    decreases centres
  {
    if net != {} {
      var p := Pick(net);
      assert InSomeCell(p, centres, offset);
      var c :| c in centres && InCell(p, c, offset);
      forall q | q in net - {p} ensures InSomeCell(q, centres - {c}, offset) {
        SeparatedInOtherCells(net, centres, offset, p, c, q);
      }
      OnePerCell(net - {p}, centres - {c}, offset);
    }
  }

  predicate InCell(p: int, c: int, offset: int) {
    c + offset <= p <= c + offset + DEDUP_WINDOW
  }

  predicate InSomeCell(p: int, centres: set<int>, offset: int) {
    exists c :: c in centres && InCell(p, c, offset)
  }

  /** A separated net has at most two elements around each element of a net that covers it. */
  lemma AtMostTwicePerCentre(net: set<int>, centres: set<int>)
    requires Separated(net)
    requires forall p :: p in net ==> Covered(centres, p)
    ensures |net| <= 2 * |centres|
  {
    var above := set p | p in net && InSomeCell(p, centres, 0);
    var below := net - above;
    forall p | p in below ensures InSomeCell(p, centres, -DEDUP_WINDOW) {
      var c :| c in centres && Near(c, p);
      assert !InCell(p, c, 0);
      assert InCell(p, c, -DEDUP_WINDOW);
    }
    OnePerCell(above, centres, 0);
    OnePerCell(below, centres, -DEDUP_WINDOW);
    assert net == above + below;
  }

  ghost predicate InTimeOrder(times: seq<int>) {
    forall i, j :: 0 <= i < j < |times| ==> times[i] <= times[j]
  }

  /** Processed in time order, every hit is covered by an event that is not later than itself. */
  lemma {:induction false} CoveredFromBehind(times: seq<int>, n: nat, i: nat)
    requires i < n <= |times| && InTimeOrder(times)
    ensures InSomeCell(times[i], Net(times, n), 0)
  {
    var before, t := Net(times, n - 1), times[n - 1];
    NetIsMaximal(times, n - 1);
    if i < n - 1 {
      CoveredFromBehind(times, n - 1, i);
      var c :| c in before && InCell(times[i], c, 0);
      assert c in Net(times, n);
    } else if Covered(before, t) {
      var x :| x in before && Near(x, t);
      assert x in times[..n - 1];
      assert InCell(t, x, 0);
    } else {
      assert t in Net(times, n) && InCell(t, t, 0);
    }
  }

  lemma NetIsOrderRobust(times: seq<int>, ordered: seq<int>)
    requires InTimeOrder(ordered)
    requires forall t :: t in times <==> t in ordered
    ensures |Net(times, |times|)| <= |Net(ordered, |ordered|)| <= 2 * |Net(times, |times|)|
  {
    var any, best := Net(times, |times|), Net(ordered, |ordered|);
    NetIsMaximal(times, |times|);
    NetIsMaximal(ordered, |ordered|);
    assert times[..|times|] == times && ordered[..|ordered|] == ordered;
    forall p | p in any ensures InSomeCell(p, best, 0) {
      assert p in ordered;
      var i :| 0 <= i < |ordered| && ordered[i] == p;
      CoveredFromBehind(ordered, |ordered|, i);
    }
    OnePerCell(any, best, 0);
    forall p | p in best ensures Covered(any, p) {
      assert p in times;
      var i :| 0 <= i < |times| && times[i] == p;
    }
    AtMostTwicePerCentre(best, any);
  }

  /** The number of events stored for a key from the same hit instants: time order stores the
      most, and at most twice as many as any other order. */
  lemma DeduplicationIsOrderRobust(hits: seq<Hit>, ordered: seq<Hit>, key: Key)
    requires InTimeOrder(HitInstants(ordered, |ordered|, key))
    requires forall t :: t in HitInstants(hits, |hits|, key) <==> t in HitInstants(ordered, |ordered|, key)
    ensures var any, best := Run(hits, |hits|).events, Run(ordered, |ordered|).events;
            EventCount(any, |any|, key) <= EventCount(best, |best|, key) <= 2 * EventCount(any, |any|, key)
  {
    StoredEventsAreAMaximalNet(hits, key);
    StoredEventsAreAMaximalNet(ordered, key);
    RunStoresTheNet(hits, |hits|, key);
    RunStoresTheNet(ordered, |ordered|, key);
    NetIsOrderRobust(HitInstants(hits, |hits|, key), HitInstants(ordered, |ordered|, key));
  }

  /** The factor of two is reached: three hits, the middle one first. */
  lemma FactorTwoIsReached()
    ensures var middleFirst, inOrder := [40_000_000, 20_000_000, 60_000_000], [20_000_000, 40_000_000, 60_000_000];
            |Net(middleFirst, 3)| == 1 && |Net(inOrder, 3)| == 2
  {
    var middleFirst, inOrder := [40_000_000, 20_000_000, 60_000_000], [20_000_000, 40_000_000, 60_000_000];
    assert Net(middleFirst, 1) == {40_000_000};
    assert Near(40_000_000, 20_000_000) && Near(40_000_000, 60_000_000);
    assert Net(middleFirst, 2) == {40_000_000} && Net(middleFirst, 3) == {40_000_000};
    assert Net(inOrder, 1) == {20_000_000};
    assert Near(20_000_000, 40_000_000) && Net(inOrder, 2) == {20_000_000};
    assert Net(inOrder, 3) == {20_000_000, 60_000_000};
  }
}
