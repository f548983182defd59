/** The outbox drains: every dispatch lowers a measure that only new events and messages put back
    by an operator raise, and no event is dispatched more than eight times. */
module OutboxDrain {
  import opened BatchIsolation
  import opened ExactlyOnce
  import opened Ingestion
  import opened Outbox
  import opened OutboxWorker
  import opened PipelineRuns

  const INGEST_WEIGHT := 40
  const OTHER_WEIGHT := 8

  function FullWeight(kind: Kind): nat {
    if kind.IngestAccepted? then INGEST_WEIGHT else OTHER_WEIGHT
  }

  /** The dispatches still to come of an event and of the messages it may give rise to, at most. */
  function Weight(e: OutboxEvent): nat {
    if (e.status.Pending? || e.status.Processing?) && e.attempts < MAX_ATTEMPTS
    then FullWeight(e.kind) - e.attempts
    else 0
  }

  function Measure(outbox: seq<OutboxEvent>, n: nat): nat
    requires n <= |outbox|
  {
    if n == 0 then 0 else Measure(outbox, n - 1) + Weight(outbox[n - 1])
  }

  /** Nothing is left to do exactly when every message is done or a dead letter. */
  lemma {:induction false} DrainedIff(rows: seq<IngestRow>, outbox: seq<OutboxEvent>, n: nat)
    requires n <= |outbox| && MessagesOk(rows, outbox)
    ensures Measure(outbox, n) == 0
      <==> forall i :: 0 <= i < n ==> outbox[i].status.Done? || outbox[i].status.DeadLetter?
  {
    if n > 0 {
      DrainedIff(rows, outbox, n - 1);
      assert MessageOk(rows, outbox[n - 1]);
    }
  }

  lemma {:induction false} MeasureByWeights(outbox: seq<OutboxEvent>, more: seq<OutboxEvent>, n: nat)
    requires n <= |outbox| && n <= |more| && forall i :: 0 <= i < n ==> Weight(more[i]) == Weight(outbox[i])
    ensures Measure(more, n) == Measure(outbox, n)
  {
    if n > 0 { MeasureByWeights(outbox, more, n - 1); }
  }

  lemma {:induction false} MeasureAfterUpdate(outbox: seq<OutboxEvent>, id: nat, e: OutboxEvent, n: nat)
    requires id < |outbox| && n <= |outbox|
    ensures Measure(outbox[id := e], n) + (if id < n then Weight(outbox[id]) else 0)
         == Measure(outbox, n) + (if id < n then Weight(e) else 0)
  {
    if n > 0 { MeasureAfterUpdate(outbox, id, e, n - 1); }
  }

  lemma {:induction false} MeasureOfAppended(outbox: seq<OutboxEvent>, more: seq<OutboxEvent>, weight: nat, n: nat)
    requires n <= |more| && forall i :: 0 <= i < |more| ==> Weight(more[i]) == weight
    ensures Measure(outbox + more, |outbox| + n) == Measure(outbox, |outbox|) + weight * n
  {
    if n == 0 {
      MeasureByWeights(outbox, outbox + more, |outbox|);
    } else {
      MeasureOfAppended(outbox, more, weight, n - 1);
      assert (outbox + more)[|outbox| + n - 1] == more[n - 1];
      OneMoreTime(weight, n);
    }
  }

  lemma OneMoreTime(weight: nat, n: nat)
    requires n > 0
    ensures weight * (n - 1) + weight == weight * n
  {}

  // ---------------------------------------------------------------- one batch

  /** A claim changes no weight. */
  lemma ClaimKeepsMeasure(outbox: seq<OutboxEvent>, ids: seq<nat>)
    requires forall k :: 0 <= k < |ids| ==>
      ids[k] < |outbox| && (outbox[ids[k]].status.Pending? || outbox[ids[k]].status.Processing?)
    ensures Measure(AllClaimed(outbox, ids, |ids|), |outbox|) == Measure(outbox, |outbox|)
  {
    var after := AllClaimed(outbox, ids, |ids|);
    forall i | 0 <= i < |outbox| ensures Weight(after[i]) == Weight(outbox[i]) {
      ClaimedRow(outbox, ids, |ids|, i);
    }
    MeasureByWeights(outbox, after, |outbox|);
  }

  /** A success removes the event's weight, which covers the messages it adds. */
  lemma SuccessLowers(outbox: seq<OutboxEvent>, id: nat, events: seq<nat>, now: int)
    requires id < |outbox| && outbox[id].status.Processing? && outbox[id].attempts < MAX_ATTEMPTS
    requires |events| <= if outbox[id].kind.IngestAccepted? then 4 else 0
    ensures var after := outbox[id := outbox[id].(status := Done)] + Messages(events, now);
            Measure(after, |after|) < Measure(outbox, |outbox|)
  {
    var done := outbox[id := outbox[id].(status := Done)];
    MeasureAfterUpdate(outbox, id, outbox[id].(status := Done), |outbox|);
    MeasureOfAppended(done, Messages(events, now), OTHER_WEIGHT, |events|);
  }

  /** A failure costs one attempt. */
  lemma FailureLowers(outbox: seq<OutboxEvent>, id: nat, at: int)
    requires id < |outbox| && outbox[id].status.Processing? && outbox[id].attempts < MAX_ATTEMPTS
    ensures Measure(outbox[id := Failed(outbox[id], at)], |outbox|) < Measure(outbox, |outbox|)
  {
    MeasureAfterUpdate(outbox, id, Failed(outbox[id], at), |outbox|);
  }

  lemma DispatchLowers(rules: Rules, handler: Handler, registry: Registry, sys: System, id: nat, trial: Trial, now: int)
    requires id < |sys.outbox| && sys.outbox[id].status.Processing? && sys.outbox[id].attempts < MAX_ATTEMPTS
    requires var handling := handler(registry, sys.business, sys.outbox[id].kind);
             handling.Success? ==> GoodStep(rules, sys.business, sys.outbox[id].kind, handling.after)
    ensures var after := AfterDispatch(handler, registry, sys, id, trial, now).outbox;
            Measure(after, |after|) < Measure(sys.outbox, |sys.outbox|)
  {
    match Attempt(handler, registry, sys.business, sys.outbox[id].kind, trial.fault) {
      case Success(after) => SuccessLowers(sys.outbox, id, NewlyPublished(sys.business, after), now);
      case Failure => FailureLowers(sys.outbox, id, trial.at);
    }
  }

  lemma NextDispatchLowers(rules: Rules, handler: Handler, sys: System, b: Batch, k: nat, before: System)
    requires handler == HandlerOf(rules)
    requires SystemOk(rules, sys) && Claims(b, sys.outbox) && k < |b.ids|
    requires before == AfterDispatches(handler, sys, b, k)
    ensures var after := AfterDispatch(handler, b.registry, before, b.ids[k], b.trials[k], b.now).outbox;
            Measure(after, |after|) < Measure(before.outbox, |before.outbox|)
  {
    DispatchesKeep(rules, handler, sys, b, k);
    ClaimedRowWaits(handler, sys, b, k);
    assert MessageOk(before.business.rows, before.outbox[b.ids[k]]);
    HandlerIsGood(rules, b.registry, before.business, before.outbox[b.ids[k]].kind);
    DispatchLowers(rules, handler, b.registry, before, b.ids[k], b.trials[k], b.now);
  }

  ghost predicate LowersAt(handler: Handler, sys: System, b: Batch, k: nat)
    requires Fits(b, sys.outbox) && k < |b.ids|
  {
    var before, after := AfterDispatches(handler, sys, b, k).outbox, AfterDispatches(handler, sys, b, k + 1).outbox;
    Measure(after, |after|) < Measure(before, |before|)
  }

  lemma {:induction false} DispatchesLower(handler: Handler, sys: System, b: Batch, n: nat)
    requires Claims(b, sys.outbox) && n <= |b.ids|
    requires forall k :: 0 <= k < |b.ids| ==> LowersAt(handler, sys, b, k)
    ensures var after := AfterDispatches(handler, sys, b, n).outbox;
            Measure(after, |after|) + n <= Measure(sys.outbox, |sys.outbox|)
  {
    if n == 0 {
      ClaimKeepsMeasure(sys.outbox, b.ids);
    } else {
      DispatchesLower(handler, sys, b, n - 1);
      assert LowersAt(handler, sys, b, n - 1);
    }
  }

  /** Every committed batch lowers the measure by at least the number of events it dispatched. */
  lemma BatchLowers(rules: Rules, sys: System, b: Batch)
    requires SystemOk(rules, sys) && Claims(b, sys.outbox)
    ensures var after := AfterBatch(HandlerOf(rules), sys, b).outbox;
            Measure(after, |after|) + |b.ids| <= Measure(sys.outbox, |sys.outbox|)
  {
    var handler := HandlerOf(rules);
    forall k | 0 <= k < |b.ids| ensures LowersAt(handler, sys, b, k) {
      NextDispatchLowers(rules, handler, sys, b, k, AfterDispatches(handler, sys, b, k));
    }
    DispatchesLower(handler, sys, b, |b.ids|);
  }

  // ---------------------------------------------------------------- whole runs

  /** The dispatches of the steps from `m` up to `n`. */
  function Dispatched(steps: seq<Step>, m: nat, n: nat): nat
    requires m <= n <= |steps|
  {
    if m == n then 0 else Dispatched(steps, m, n - 1) + (if steps[n - 1].Work? then |steps[n - 1].batch.ids| else 0)
  }

  /** The events submitted and the messages put back in the steps from `m` up to `n`. */
  function Arrivals(steps: seq<Step>, m: nat, n: nat): nat
    requires m <= n <= |steps|
  {
    if m == n then 0
    else Arrivals(steps, m, n - 1)
         + (match steps[n - 1]
            case Ingest(_, raws, _, _) => |raws|
            case Requeue(_, _) => 1
            case _ => 0)
  }

  lemma {:induction false} AcceptedAtMostAll(outcomes: seq<Outcome>, kind: Outcome -> bool, n: nat)
    requires n <= |outcomes|
    ensures HowMany(outcomes, kind, n) <= n
  {
    if n > 0 { AcceptedAtMostAll(outcomes, kind, n - 1); }
  }

  lemma IngestRaises(sys: System, src: DataSource, raws: seq<Raw>, registry: Registry, now: int)
    ensures var after := AfterIngest(sys, src, raws, registry, now).outbox;
            Measure(after, |after|) <= Measure(sys.outbox, |sys.outbox|) + INGEST_WEIGHT * |raws|
  {
    var known := KnownTo(registry, src.organization);
    if AllStorable(src, raws, |raws|, known, now) {
      var intake := Intake(sys.business.rows, sys.outbox);
      var after := Ingestion.AfterEvents(intake, src, raws, |raws|, known, now);
      AcceptedRowsAreAnnounced(intake, src, raws, |raws|, known, now);
      var ids := AcceptedRows(after.rows, |intake.rows|, |after.rows|);
      AcceptedAtMostAll(Outcomes(intake, src, raws, |raws|, known, now), (o: Outcome) => o.IsAccepted?, |raws|);
      assert |ids| <= |raws|;
      MeasureOfAppended(sys.outbox, Announcements(ids, now), INGEST_WEIGHT, |ids|);
    }
  }

  lemma StepMeasure(rules: Rules, steps: seq<Step>, n: nat)
    requires n < |steps| && EnabledRun(rules, steps, n + 1) && EnabledRun(rules, steps, n)
    ensures var before, after := Run(rules, steps, n).outbox, Run(rules, steps, n + 1).outbox;
            Measure(after, |after|) + Dispatched(steps, n, n + 1)
            <= Measure(before, |before|) + INGEST_WEIGHT * Arrivals(steps, n, n + 1)
  {
    var sys := Run(rules, steps, n);
    RunIsOk(rules, steps, n);
    match steps[n] {
      case Ingest(src, raws, registry, at) => IngestRaises(sys, src, raws, registry, at);
      case Work(b) => BatchLowers(rules, sys, b);
      case Requeue(id, at) =>
        MeasureAfterUpdate(sys.outbox, id, sys.outbox[id].(status := Pending, attempts := 0, nextAttemptAt := at),
                           |sys.outbox|);
      case _ =>
    }
  }

  lemma {:induction false} SumsExtend(steps: seq<Step>, m: nat, n: nat)
    requires m <= n < |steps|
    ensures Dispatched(steps, m, n + 1) == Dispatched(steps, m, n) + Dispatched(steps, n, n + 1)
    ensures Arrivals(steps, m, n + 1) == Arrivals(steps, m, n) + Arrivals(steps, n, n + 1)
  {
    assert Dispatched(steps, n, n) == 0 && Arrivals(steps, n, n) == 0;
  }

  lemma {:induction false} EnabledPrefix(rules: Rules, steps: seq<Step>, m: nat, n: nat)
    requires m <= n <= |steps| && EnabledRun(rules, steps, n)
    ensures EnabledRun(rules, steps, m)
    decreases n
  {
    if m < n { EnabledPrefix(rules, steps, m, n - 1); }
  }

  /** The outbox drains: over any stretch of any run, the dispatches number at most what the
      measure was plus 40 for every event submitted and every message put back meanwhile. Without
      either, at most Measure-many dispatches are left, and then every message is settled. */
  lemma {:induction false} OutboxDrains(rules: Rules, steps: seq<Step>, m: nat, n: nat)
    requires m <= n <= |steps| && EnabledRun(rules, steps, n) && EnabledRun(rules, steps, m)
    ensures var before, after := Run(rules, steps, m).outbox, Run(rules, steps, n).outbox;
            Measure(after, |after|) + Dispatched(steps, m, n)
            <= Measure(before, |before|) + INGEST_WEIGHT * Arrivals(steps, m, n)
    decreases n
  {
    if m < n {
      OutboxDrains(rules, steps, m, n - 1);
      StepMeasure(rules, steps, n - 1);
      SumsExtend(steps, m, n - 1);
      Distribute(INGEST_WEIGHT, Arrivals(steps, m, n - 1), Arrivals(steps, n - 1, n));
    }
  }

  lemma Distribute(w: nat, x: nat, y: nat)
    ensures w * (x + y) == w * x + w * y
  {}

  // ---------------------------------------------------------------- attempts of one event

  /** How often the steps from `m` up to `n` dispatch message `id`. */
  ghost function TimesDispatched(steps: seq<Step>, m: nat, n: nat, id: nat): nat
    requires m <= n <= |steps|
  {
    if m == n then 0
    else TimesDispatched(steps, m, n - 1, id)
         + (if steps[n - 1].Work? && Among(steps[n - 1].batch.ids, |steps[n - 1].batch.ids|, id) then 1 else 0)
  }

  /** The dispatches a message shows: its failed attempts, and the one that got it done. */
  function Tried(outbox: seq<OutboxEvent>, id: nat): nat {
    if id < |outbox| then outbox[id].attempts + (if outbox[id].status.Done? then 1 else 0) else 0
  }

  lemma WorkTries(rules: Rules, sys: System, b: Batch, id: nat)
    requires SystemOk(rules, sys) && NoneProcessing(sys.outbox) && Claims(b, sys.outbox)
    ensures Tried(AfterBatch(HandlerOf(rules), sys, b).outbox, id)
         == Tried(sys.outbox, id) + (if Among(b.ids, |b.ids|, id) then 1 else 0)
  {
    var handler := HandlerOf(rules);
    if id < |sys.outbox| {
      BatchRows(handler, sys, b, id);
      if Among(b.ids, |b.ids|, id) {
        var k :| 0 <= k < |b.ids| && b.ids[k] == id;
        assert Due(sys.outbox[b.ids[k]], b.now);
      }
    } else if id < |AfterBatch(handler, sys, b).outbox| {
      AppendedAreFresh(handler, sys, b, |b.ids|, id);
    }
  }

  lemma IngestTries(sys: System, src: DataSource, raws: seq<Raw>, registry: Registry, now: int, id: nat)
    ensures Tried(AfterIngest(sys, src, raws, registry, now).outbox, id) == Tried(sys.outbox, id)
  {
    var known := KnownTo(registry, src.organization);
    AcceptedRowsAreAnnounced(Intake(sys.business.rows, sys.outbox), src, raws, |raws|, known, now);
  }

  predicate NotPutBack(steps: seq<Step>, m: nat, n: nat, id: nat)
    requires m <= n <= |steps|
  {
    forall k :: m <= k < n ==> !(steps[k].Requeue? && steps[k].id == id)
  }

  lemma StepTries(rules: Rules, sys: System, s: Step, id: nat)
    requires SystemOk(rules, sys) && NoneProcessing(sys.outbox) && Enabled(sys, s)
    requires !(s.Requeue? && s.id == id)
    ensures Tried(Next(rules, sys, s).outbox, id)
         == Tried(sys.outbox, id) + (if s.Work? && Among(s.batch.ids, |s.batch.ids|, id) then 1 else 0)
  {
    match s {
      case Ingest(src, raws, registry, at) => IngestTries(sys, src, raws, registry, at, id);
      case Work(b) => WorkTries(rules, sys, b, id);
      case _ =>
    }
  }

  /** Every message accounts for its dispatches. */
  lemma {:induction false} DispatchesAreCounted(rules: Rules, steps: seq<Step>, m: nat, n: nat, id: nat)
    requires m <= n <= |steps| && EnabledRun(rules, steps, n) && EnabledRun(rules, steps, m)
      && NotPutBack(steps, m, n, id)
    ensures TimesDispatched(steps, m, n, id) + Tried(Run(rules, steps, m).outbox, id)
      == Tried(Run(rules, steps, n).outbox, id)
    decreases n
  {
    if m < n {
      DispatchesAreCounted(rules, steps, m, n - 1, id);
      RunIsOk(rules, steps, n - 1);
      StepTries(rules, Run(rules, steps, n - 1), steps[n - 1], id);
    }
  }

  /** Between two times it is put back, no message is dispatched more than eight times in
      committed batches. */
  lemma AtMostEightDispatches(rules: Rules, steps: seq<Step>, m: nat, n: nat, id: nat)
    requires m <= n <= |steps| && EnabledRun(rules, steps, n) && NotPutBack(steps, m, n, id)
    ensures TimesDispatched(steps, m, n, id) <= MAX_ATTEMPTS
  {
    EnabledPrefix(rules, steps, m, n);
    DispatchesAreCounted(rules, steps, m, n, id);
    RunIsOk(rules, steps, n);
    var sys := Run(rules, steps, n);
    if id < |sys.outbox| { assert MessageOk(sys.business.rows, sys.outbox[id]); }
  }
}
