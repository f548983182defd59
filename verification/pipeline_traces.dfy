/** Where every telemetry point and every counted safety occurrence of a run comes from. */
module PipelineTraces {
  import opened BatchIsolation
  import opened ExactlyOnce
  import opened Ingestion
  import opened Options
  import opened Outbox
  import opened OutboxWorker
  import opened PipelineEffects
  import opened PipelineRuns
  import SafetyEngine
  import Trips

  // ---------------------------------------------------------------- what is traced

  /** The vehicle ids under which vehicles were ever known to a worker. */
  type Registrations = iset<(VehicleName, nat)>

  ghost predicate Covers(known: Registrations, registry: Registry) {
    forall name :: name in registry ==> (name, registry[name]) in known
  }

  /** A point reports a processed row, on a vehicle that the row's vehicle was registered as. */
  ghost predicate PointOk(known: Registrations, rows: seq<IngestRow>, v: nat, p: Trips.TelemetryPoint) {
    && p.origin < |rows| && rows[p.origin].status.Processed? && Reports(p, p.origin, rows[p.origin])
    && (VehicleName(rows[p.origin].organization, rows[p.origin].envelope.value.vehicle), v) in known
  }

  ghost predicate PointsOk(known: Registrations, rows: seq<IngestRow>, v: nat, points: seq<Trips.TelemetryPoint>) {
    forall i {:trigger points[i]} :: 0 <= i < |points| ==> PointOk(known, rows, v, points[i])
  }

  ghost predicate AllPointsOk(known: Registrations, b: Business) {
    forall v {:trigger b.fleet[v]} :: v in b.fleet ==> PointsOk(known, b.rows, v, b.fleet[v].points)
  }

  /** Row `r` has its point on the vehicle of the key, and the rule of the key fires for it. */
  predicate FiredOn(rules: Rules, b: Business, key: SafetyEngine.Key, r: nat)
    requires r < |b.rows|
  {
    && b.rows[r].organization == key.organization && RuleFires(rules, b.rows[r], key.kind)
    && PointsFrom(LogOf(b.fleet, key.vehicle).points, r) == 1
  }

  /** How many of the first `n` rows. */
  function FiredRows(rules: Rules, b: Business, key: SafetyEngine.Key, n: nat): nat
    requires n <= |b.rows|
  {
    if n == 0 then 0 else FiredRows(rules, b, key, n - 1) + (if FiredOn(rules, b, key, n - 1) then 1 else 0)
  }

  ghost predicate CountOk(rules: Rules, b: Business, key: SafetyEngine.Key) {
    Occurrences(b.safety, key) == FiredRows(rules, b, key, |b.rows|)
  }

  ghost predicate Traced(rules: Rules, known: Registrations, b: Business) {
    && AllPointsOk(known, b)
    && forall key {:trigger CountOk(rules, b, key)} :: CountOk(rules, b, key)
  }

  // ---------------------------------------------------------------- rows that change

  /** Rows are added and change their status alone; a processed row stays processed. */
  ghost predicate Keeps(before: seq<IngestRow>, after: seq<IngestRow>) {
    |before| <= |after| && forall r {:trigger after[r]} :: 0 <= r < |before| ==> KeepsRow(before[r], after[r])
  }

  predicate KeepsRow(before: IngestRow, after: IngestRow) {
    && after.organization == before.organization && after.envelope == before.envelope
    && (before.status.Processed? ==> after.status.Processed?)
  }

  lemma PointStaysOk(known: Registrations, more: Registrations, rows: seq<IngestRow>, after: seq<IngestRow>, v: nat,
                     p: Trips.TelemetryPoint)
    requires PointOk(known, rows, v, p) && known <= more && Keeps(rows, after)
    ensures PointOk(more, after, v, p)
  {
    assert KeepsRow(rows[p.origin], after[p.origin]);
  }

  lemma PointsStayOk(known: Registrations, more: Registrations, rows: seq<IngestRow>, after: seq<IngestRow>, v: nat,
                     points: seq<Trips.TelemetryPoint>)
    requires PointsOk(known, rows, v, points) && known <= more && Keeps(rows, after)
    ensures PointsOk(more, after, v, points)
  {
    forall i {:trigger points[i]} | 0 <= i < |points| ensures PointOk(more, after, v, points[i]) {
      PointStaysOk(known, more, rows, after, v, points[i]);
    }
  }

  lemma {:induction false} FiredRowsSame(rules: Rules, b: Business, after: Business, key: SafetyEngine.Key, n: nat)
    requires n <= |b.rows| && n <= |after.rows|
    requires forall r :: 0 <= r < n ==> FiredOn(rules, after, key, r) == FiredOn(rules, b, key, r)
    ensures FiredRows(rules, after, key, n) == FiredRows(rules, b, key, n)
  {
    if n > 0 { FiredRowsSame(rules, b, after, key, n - 1); }
  }

  /** Only row `row` may fire that did not before. */
  lemma {:induction false} FiredRowsOneMore(rules: Rules, b: Business, after: Business, key: SafetyEngine.Key, n: nat,
                                            row: nat)
    requires row < n <= |b.rows| && n <= |after.rows| && !FiredOn(rules, b, key, row)
    requires forall r :: 0 <= r < n && r != row ==> FiredOn(rules, after, key, r) == FiredOn(rules, b, key, r)
    ensures FiredRows(rules, after, key, n)
         == FiredRows(rules, b, key, n) + (if FiredOn(rules, after, key, row) then 1 else 0)
    decreases n
  {
    if row == n - 1 {
      FiredRowsSame(rules, b, after, key, n - 1);
    } else {
      FiredRowsOneMore(rules, b, after, key, n - 1, row);
    }
  }

  lemma {:induction false} NoneFiredAmongNew(rules: Rules, b: Business, key: SafetyEngine.Key, from: nat, n: nat)
    requires from <= n <= |b.rows|
    requires forall r :: from <= r < n ==> PointsFrom(LogOf(b.fleet, key.vehicle).points, r) == 0
    ensures FiredRows(rules, b, key, n) == FiredRows(rules, b, key, from)
    decreases n
  {
    if from < n { NoneFiredAmongNew(rules, b, key, from, n - 1); }
  }

  lemma NoPointOfOtherRows(b: Business, v: nat, r: nat)
    requires AllPlaced(b.rows, b.fleet) && !IsPointRow(b.rows, r)
    ensures PointsFrom(LogOf(b.fleet, v).points, r) == 0
  {
    assert Placed(b.rows, b.fleet, r);
  }

  /** New rows and new statuses alone keep everything traced. */
  lemma RowsKeepTraced(rules: Rules, known: Registrations, b: Business, after: Business)
    requires AllPlaced(b.rows, b.fleet) && Traced(rules, known, b) && Keeps(b.rows, after.rows)
    requires after.fleet == b.fleet && after.safety == b.safety
    ensures Traced(rules, known, after)
  {
    forall v {:trigger after.fleet[v]} | v in after.fleet
      ensures PointsOk(known, after.rows, v, after.fleet[v].points)
    {
      PointsStayOk(known, known, b.rows, after.rows, v, b.fleet[v].points);
    }
    forall key ensures CountOk(rules, after, key) {
      assert CountOk(rules, b, key);
      forall r | 0 <= r < |b.rows| ensures FiredOn(rules, after, key, r) == FiredOn(rules, b, key, r) {
        assert KeepsRow(b.rows[r], after.rows[r]);
      }
      FiredRowsSame(rules, b, after, key, |b.rows|);
      forall r: nat | |b.rows| <= r < |after.rows| ensures PointsFrom(LogOf(after.fleet, key.vehicle).points, r) == 0 {
        NoPointOfOtherRows(b, key.vehicle, r);
      }
      NoneFiredAmongNew(rules, after, key, |b.rows|, |after.rows|);
    }
  }

  // ---------------------------------------------------------------- a position

  lemma PointOfRow(known: Registrations, registry: Registry, b: Business, row: nat, v: nat, rows: seq<IngestRow>,
                   p: Trips.TelemetryPoint)
    requires PositionOf(registry, b, row, v) && Covers(known, registry) && Reports(p, row, b.rows[row])
    requires rows == b.rows[row := b.rows[row].(status := Processed)]
    ensures PointOk(known, rows, v, p)
  {}

  lemma PositionPointsOk(known: Registrations, registry: Registry, b: Business, row: nat, v: nat, after: Business,
                         u: nat)
    requires PositionOf(registry, b, row, v) && Covers(known, registry) && AllPointsOk(known, b)
    requires after.rows == b.rows[row := b.rows[row].(status := Processed)] && OnePointOn(b, after, row, v)
    requires u in after.fleet
    ensures PointsOk(known, after.rows, u, after.fleet[u].points)
  {
    assert Keeps(b.rows, after.rows);
    var earlier := LogOf(b.fleet, u).points;
    PointsStayOk(known, known, b.rows, after.rows, u, earlier);
    if u == v {
      var p :| Reports(p, row, b.rows[row]) && after.fleet[v].points == LogOf(b.fleet, v).points + [p];
      PointOfRow(known, registry, b, row, v, after.rows, p);
    } else {
      assert after.fleet[u] == b.fleet[u];
    }
  }

  lemma PointsFromAfter(b: Business, after: Business, row: nat, v: nat, u: nat, r: nat)
    requires row < |b.rows| && OnePointOn(b, after, row, v)
    ensures PointsFrom(LogOf(after.fleet, u).points, r)
         == PointsFrom(LogOf(b.fleet, u).points, r) + (if u == v && r == row then 1 else 0)
  {
    if u == v {
      var p :| Reports(p, row, b.rows[row]) && after.fleet[v].points == LogOf(b.fleet, v).points + [p];
      OnePointMore(LogOf(b.fleet, v).points, p, r);
    } else if u in after.fleet {
      assert after.fleet[u] == b.fleet[u];
    }
  }

  lemma PositionCountOk(rules: Rules, registry: Registry, b: Business, row: nat, v: nat, after: Business,
                        key: SafetyEngine.Key)
    requires PositionOf(registry, b, row, v) && AllPlaced(b.rows, b.fleet) && CountOk(rules, b, key)
    requires after.rows == b.rows[row := b.rows[row].(status := Processed)] && OnePointOn(b, after, row, v)
    requires Occurrences(after.safety, key)
          == Occurrences(b.safety, key)
             + (if key.organization == b.rows[row].organization && key.vehicle == v
                   && RuleFires(rules, b.rows[row], key.kind) then 1 else 0)
    ensures CountOk(rules, after, key)
  {
    NoPointOfOtherRows(b, key.vehicle, row);
    forall r | 0 <= r < |b.rows| && r != row ensures FiredOn(rules, after, key, r) == FiredOn(rules, b, key, r) {
      PointsFromAfter(b, after, row, v, key.vehicle, r);
    }
    PointsFromAfter(b, after, row, v, key.vehicle, row);
    FiredRowsOneMore(rules, b, after, key, |b.rows|, row);
  }

  lemma PositionKeepsTraced(rules: Rules, known: Registrations, registry: Registry, b: Business, row: nat, v: nat,
                            after: Business)
    requires PositionOf(registry, b, row, v) && Covers(known, registry)
    requires BusinessOk(rules, b) && Traced(rules, known, b)
    requires HandlerOf(rules)(registry, b, IngestAccepted(row)) == Success(after)
    ensures Traced(rules, known, after)
  {
    PointOfPosition(rules, registry, b, row, v, after);
    forall u {:trigger after.fleet[u]} | u in after.fleet
      ensures PointsOk(known, after.rows, u, after.fleet[u].points)
    {
      PositionPointsOk(known, registry, b, row, v, after, u);
    }
    forall key ensures CountOk(rules, after, key) {
      assert CountOk(rules, b, key);
      OccurrencesOfPosition(rules, registry, b, row, v, after, key);
      PositionCountOk(rules, registry, b, row, v, after, key);
    }
  }

  // ---------------------------------------------------------------- steps and runs

  lemma HandlerKeepsTraced(rules: Rules, known: Registrations, registry: Registry, b: Business, kind: Kind,
                           after: Business)
    requires Covers(known, registry) && BusinessOk(rules, b) && Traced(rules, known, b)
    requires HandlerOf(rules)(registry, b, kind) == Success(after)
    ensures Traced(rules, known, after)
  {
    if kind.IngestAccepted? && exists v :: PositionOf(registry, b, kind.row, v) {
      var v :| PositionOf(registry, b, kind.row, v);
      PositionKeepsTraced(rules, known, registry, b, kind.row, v, after);
    } else {
      OtherEffects(rules, registry, b, kind);
      assert Keeps(b.rows, after.rows);
      RowsKeepTraced(rules, known, b, after);
    }
  }

  lemma NextDispatchKeepsTraced(rules: Rules, handler: Handler, known: Registrations, sys: System, b: Batch, k: nat,
                                before: Business, after: Business)
    requires handler == HandlerOf(rules) && Covers(known, b.registry)
    requires Claims(b, sys.outbox) && k < |b.ids| && BusinessOk(rules, before) && Traced(rules, known, before)
    requires before == AfterDispatches(handler, sys, b, k).business
    requires after == AfterDispatches(handler, sys, b, k + 1).business
    ensures Traced(rules, known, after)
  {
    BusinessStep(handler, sys, b, k);
    if Succeeds(handler, sys, b, k) {
      HandlerKeepsTraced(rules, known, b.registry, before, sys.outbox[b.ids[k]].kind, after);
    }
  }

  lemma {:induction false} DispatchesKeepTraced(rules: Rules, handler: Handler, known: Registrations, sys: System,
                                                b: Batch, n: nat)
    requires handler == HandlerOf(rules) && Covers(known, b.registry)
    requires SystemOk(rules, sys) && Claims(b, sys.outbox) && n <= |b.ids| && Traced(rules, known, sys.business)
    ensures Traced(rules, known, AfterDispatches(handler, sys, b, n).business)
  {
    if n > 0 {
      DispatchesKeepTraced(rules, handler, known, sys, b, n - 1);
      DispatchesKeep(rules, handler, sys, b, n - 1);
      NextDispatchKeepsTraced(rules, handler, known, sys, b, n - 1, AfterDispatches(handler, sys, b, n - 1).business,
                              AfterDispatches(handler, sys, b, n).business);
    }
  }

  lemma IngestKeepsTraced(rules: Rules, known: Registrations, sys: System, src: DataSource, raws: seq<Raw>,
                          registry: Registry, now: int)
    requires BusinessOk(rules, sys.business) && Traced(rules, known, sys.business)
    ensures Traced(rules, known, AfterIngest(sys, src, raws, registry, now).business)
  {
    BatchAppends(Intake(sys.business.rows, sys.outbox), src, raws, |raws|, KnownTo(registry, src.organization), now);
    var after := AfterIngest(sys, src, raws, registry, now);
    assert Keeps(sys.business.rows, after.business.rows) by {
      forall r {:trigger after.business.rows[r]} | 0 <= r < |sys.business.rows|
        ensures KeepsRow(sys.business.rows[r], after.business.rows[r])
      {
        assert after.business.rows[r] == sys.business.rows[r];
      }
    }
    RowsKeepTraced(rules, known, sys.business, after.business);
  }

  lemma SweepKeepsTraced(rules: Rules, known: Registrations, b: Business, now: int)
    requires Traced(rules, known, b)
    ensures Traced(rules, known, AfterSweep(b, now))
  {
    var after := AfterSweep(b, now);
    forall v {:trigger after.fleet[v]} | v in after.fleet
      ensures PointsOk(known, after.rows, v, after.fleet[v].points)
    {
      assert after.fleet[v].points == b.fleet[v].points;
    }
    forall key ensures CountOk(rules, after, key) {
      assert CountOk(rules, b, key);
      assert LogOf(after.fleet, key.vehicle).points == LogOf(b.fleet, key.vehicle).points;
      FiredRowsSame(rules, b, after, key, |b.rows|);
    }
  }

  /** Some worker batch among the first `n` steps found this vehicle registered under this id. */
  ghost predicate RegisteredBy(steps: seq<Step>, n: nat, name: VehicleName, v: nat)
    requires n <= |steps|
  {
    exists j {:trigger steps[j]} :: 0 <= j < n && steps[j].Work? && name in steps[j].batch.registry
                                    && steps[j].batch.registry[name] == v
  }

  ghost function KnownAfter(steps: seq<Step>, n: nat): Registrations
    requires n <= |steps|
  {
    iset name, v | RegisteredBy(steps, n, name, v) :: (name, v)
  }

  lemma MoreIsKnown(steps: seq<Step>, n: nat)
    requires n < |steps|
    ensures KnownAfter(steps, n) <= KnownAfter(steps, n + 1)
    ensures steps[n].Work? ==> Covers(KnownAfter(steps, n + 1), steps[n].batch.registry)
  {
    forall name, v | RegisteredBy(steps, n, name, v) ensures RegisteredBy(steps, n + 1, name, v) {}
    if steps[n].Work? {
      forall name | name in steps[n].batch.registry
        ensures RegisteredBy(steps, n + 1, name, steps[n].batch.registry[name])
      {}
    }
  }

  lemma MoreKnownKeepsTraced(rules: Rules, known: Registrations, more: Registrations, b: Business)
    requires Traced(rules, known, b) && known <= more
    ensures Traced(rules, more, b)
  {
    forall v {:trigger b.fleet[v]} | v in b.fleet ensures PointsOk(more, b.rows, v, b.fleet[v].points) {
      PointsStayOk(known, more, b.rows, b.rows, v, b.fleet[v].points);
    }
  }

  lemma StepKeepsTraced(rules: Rules, known: Registrations, sys: System, s: Step)
    requires SystemOk(rules, sys) && Enabled(sys, s) && Traced(rules, known, sys.business)
    requires s.Work? ==> Covers(known, s.batch.registry)
    ensures Traced(rules, known, Next(rules, sys, s).business)
  {
    match s {
      case Ingest(src, raws, registry, at) => IngestKeepsTraced(rules, known, sys, src, raws, registry, at);
      case Work(b) => DispatchesKeepTraced(rules, HandlerOf(rules), known, sys, b, |b.ids|);
      case Lost =>
      case Requeue(id, at) =>
      case SweepTrips(at) => SweepKeepsTraced(rules, known, sys.business, at);
    }
  }

  lemma StartIsTraced(rules: Rules, known: Registrations)
    ensures Traced(rules, known, START.business)
  {
    forall key ensures CountOk(rules, START.business, key) {}
  }

  lemma {:induction false} RunIsTraced(rules: Rules, steps: seq<Step>, n: nat)
    requires n <= |steps| && EnabledRun(rules, steps, n)
    ensures Traced(rules, KnownAfter(steps, n), Run(rules, steps, n).business)
  {
    if n == 0 {
      StartIsTraced(rules, KnownAfter(steps, n));
    } else {
      RunIsTraced(rules, steps, n - 1);
      RunIsOk(rules, steps, n - 1);
      MoreIsKnown(steps, n - 1);
      var before := Run(rules, steps, n - 1);
      MoreKnownKeepsTraced(rules, KnownAfter(steps, n - 1), KnownAfter(steps, n), before.business);
      StepKeepsTraced(rules, KnownAfter(steps, n), before, steps[n - 1]);
    }
  }

  // ---------------------------------------------------------------- what holds in every run

  lemma {:induction false} APointOfTheRow(points: seq<Trips.TelemetryPoint>, row: nat) returns (i: nat)
    requires PointsFrom(points, row) > 0
    ensures i < |points| && points[i].origin == row
  {
    i := |points| - 1;
    if points[i].origin != row { i := APointOfTheRow(points[..i], row); }
  }

  /** Exactly once, and in the right place: in every run a processed position row has one telemetry point,
      with the instant, the position and the speed of its message, on the trips of one vehicle, under whose
      id a worker batch of the run found the row's vehicle registered; every other row has none. */
  lemma PointsAreTraced(rules: Rules, steps: seq<Step>, row: nat)
    requires EnabledRun(rules, steps, |steps|)
    ensures var b := Run(rules, steps, |steps|).business;
            && (!IsPointRow(b.rows, row) ==> Absent(b.fleet, row))
            && (IsPointRow(b.rows, row) ==>
                  exists v, i ::
                    && OnlyOn(b.fleet, row, v) && 0 <= i < |b.fleet[v].points|
                    && Reports(b.fleet[v].points[i], row, b.rows[row])
                    && RegisteredBy(steps, |steps|,
                                    VehicleName(b.rows[row].organization, b.rows[row].envelope.value.vehicle), v))
  {
    RunIsTraced(rules, steps, |steps|);
    RunIsOk(rules, steps, |steps|);
    var b := Run(rules, steps, |steps|).business;
    assert Placed(b.rows, b.fleet, row);
    if IsPointRow(b.rows, row) {
      var v :| OnlyOn(b.fleet, row, v);
      var i := APointOfTheRow(b.fleet[v].points, row);
      assert PointsOk(KnownAfter(steps, |steps|), b.rows, v, b.fleet[v].points);
      assert PointOk(KnownAfter(steps, |steps|), b.rows, v, b.fleet[v].points[i]);
    }
  }

  /** No occurrence is lost, invented or booked elsewhere: in every run the occurrences counted for a key,
      added up over its events, are as many as the rows of its organization that have their point on its
      vehicle and for which its rule fires. */
  lemma OccurrencesAreTraced(rules: Rules, steps: seq<Step>, key: SafetyEngine.Key)
    requires EnabledRun(rules, steps, |steps|)
    ensures var b := Run(rules, steps, |steps|).business;
            Occurrences(b.safety, key) == FiredRows(rules, b, key, |b.rows|)
  {
    RunIsTraced(rules, steps, |steps|);
    assert CountOk(rules, Run(rules, steps, |steps|).business, key);
  }

  // ---------------------------------------------------------------- notifications

  ghost predicate NoticeOk(outbox: seq<OutboxEvent>, notified: seq<nat>, i: nat)
    requires i < |outbox|
  {
    outbox[i].kind.SafetyCreated? && outbox[i].status.Done? ==> outbox[i].kind.event in notified
  }

  ghost predicate HasNotice(outbox: seq<OutboxEvent>, event: nat) {
    exists i :: 0 <= i < |outbox| && outbox[i].kind == SafetyCreated(event)
  }

  /** Done messages of safety events were notified of, and nothing else was. */
  ghost predicate NoticesOk(outbox: seq<OutboxEvent>, notified: seq<nat>) {
    && (forall i {:trigger NoticeOk(outbox, notified, i)} :: 0 <= i < |outbox| ==> NoticeOk(outbox, notified, i))
    && (forall event {:trigger HasNotice(outbox, event)} :: event in notified ==> HasNotice(outbox, event))
  }

  lemma HasNoticeByKinds(before: seq<OutboxEvent>, after: seq<OutboxEvent>, event: nat)
    requires SameKinds(before, after) && HasNotice(before, event)
    ensures HasNotice(after, event)
  {
    var i :| 0 <= i < |before| && before[i].kind == SafetyCreated(event);
    assert after[i].kind == SafetyCreated(event);
  }

  /** Messages of the same kinds, of which only those are done that were, or whose event is notified of. */
  lemma NoticesStayOk(before: seq<OutboxEvent>, notified: seq<nat>, after: seq<OutboxEvent>, more: seq<nat>)
    requires NoticesOk(before, notified) && SameKinds(before, after)
    requires forall event :: event in notified ==> event in more
    requires forall event :: event in more ==> event in notified || HasNotice(before, event)
    requires forall i {:trigger after[i]} :: 0 <= i < |after| && after[i].status.Done? ==>
               (i < |before| && before[i].status.Done?) || NoticeOk(after, more, i)
    ensures NoticesOk(after, more)
  {
    forall i | 0 <= i < |after| ensures NoticeOk(after, more, i) {
      if i < |before| && before[i].status.Done? {
        assert before[i].kind == after[i].kind;
        assert NoticeOk(before, notified, i);
      }
    }
    forall event | event in more ensures HasNotice(after, event) {
      HasNoticeByKinds(before, after, event);
    }
  }

  lemma DispatchKeepsNotices(rules: Rules, handler: Handler, registry: Registry, sys: System, id: nat, trial: Trial,
                             now: int)
    requires handler == HandlerOf(rules) && id < |sys.outbox| && NoticesOk(sys.outbox, sys.business.notified)
    requires handler(registry, sys.business, sys.outbox[id].kind).Success? ==>
               handler(registry, sys.business, sys.outbox[id].kind).after.notified
               == sys.business.notified
                  + (if sys.outbox[id].kind.SafetyCreated? then [sys.outbox[id].kind.event] else [])
    ensures var after := AfterDispatch(handler, registry, sys, id, trial, now);
            NoticesOk(after.outbox, after.business.notified)
  {
    var after := AfterDispatch(handler, registry, sys, id, trial, now);
    assert sys.outbox[id].kind.SafetyCreated? ==> HasNotice(sys.outbox, sys.outbox[id].kind.event);
    NoticesStayOk(sys.outbox, sys.business.notified, after.outbox, after.business.notified);
  }

  lemma NotifiedByHandler(rules: Rules, registry: Registry, b: Business, kind: Kind)
    requires HandlerOf(rules)(registry, b, kind).Success?
    ensures HandlerOf(rules)(registry, b, kind).after.notified
         == b.notified + (if kind.SafetyCreated? then [kind.event] else [])
  {
    if kind.IngestAccepted? && exists v :: PositionOf(registry, b, kind.row, v) {
      var v :| PositionOf(registry, b, kind.row, v);
      PointOfPosition(rules, registry, b, kind.row, v, HandlerOf(rules)(registry, b, kind).after);
    } else {
      OtherEffects(rules, registry, b, kind);
    }
  }

  lemma {:induction false} DispatchesKeepNotices(rules: Rules, handler: Handler, sys: System, b: Batch, n: nat)
    requires handler == HandlerOf(rules) && NoticesOk(sys.outbox, sys.business.notified)
    requires Claims(b, sys.outbox) && n <= |b.ids|
    ensures var after := AfterDispatches(handler, sys, b, n);
            NoticesOk(after.outbox, after.business.notified)
  {
    if n == 0 {
      var claimed := AllClaimed(sys.outbox, b.ids, |b.ids|);
      forall i | 0 <= i < |sys.outbox| ensures claimed[i].kind == sys.outbox[i].kind
        && (claimed[i].status.Done? ==> sys.outbox[i].status.Done?)
      {
        ClaimedRow(sys.outbox, b.ids, |b.ids|, i);
      }
      NoticesStayOk(sys.outbox, sys.business.notified, claimed, sys.business.notified);
    } else {
      DispatchesKeepNotices(rules, handler, sys, b, n - 1);
      var before := AfterDispatches(handler, sys, b, n - 1);
      var kind := before.outbox[b.ids[n - 1]].kind;
      if handler(b.registry, before.business, kind).Success? {
        NotifiedByHandler(rules, b.registry, before.business, kind);
      }
      DispatchKeepsNotices(rules, handler, b.registry, before, b.ids[n - 1], b.trials[n - 1], b.now);
    }
  }

  lemma IngestKeepsNotices(sys: System, src: DataSource, raws: seq<Raw>, registry: Registry, now: int)
    requires NoticesOk(sys.outbox, sys.business.notified)
    ensures var after := AfterIngest(sys, src, raws, registry, now);
            NoticesOk(after.outbox, after.business.notified)
  {
    var known, intake := KnownTo(registry, src.organization), Intake(sys.business.rows, sys.outbox);
    AcceptedRowsAreAnnounced(intake, src, raws, |raws|, known, now);
    var after := AfterIngest(sys, src, raws, registry, now);
    NoticesStayOk(sys.outbox, sys.business.notified, after.outbox, after.business.notified);
  }

  /** In every run, a message of a safety event is only done when the event was notified of, and only
      events that have a message were. */
  lemma {:induction false} DoneEventsWereNotified(rules: Rules, steps: seq<Step>, n: nat)
    requires n <= |steps| && EnabledRun(rules, steps, n)
    ensures NoticesOk(Run(rules, steps, n).outbox, Run(rules, steps, n).business.notified)
  {
    if n > 0 {
      DoneEventsWereNotified(rules, steps, n - 1);
      var before := Run(rules, steps, n - 1);
      match steps[n - 1] {
        case Ingest(src, raws, registry, at) => IngestKeepsNotices(before, src, raws, registry, at);
        case Work(b) => DispatchesKeepNotices(rules, HandlerOf(rules), before, b, |b.ids|);
        case Lost =>
        case Requeue(id, at) =>
          NoticesStayOk(before.outbox, before.business.notified, Run(rules, steps, n).outbox, before.business.notified);
        case SweepTrips(at) =>
      }
    }
  }
}
