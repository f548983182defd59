/** What a worker batch does to the business state and to the outbox rows, event by event. */
module BatchIsolation {
  import opened Outbox
  import opened OutboxWorker

  // ---------------------------------------------------------------- outbox rows

  ghost predicate Among(ids: seq<nat>, n: nat, id: nat)
    requires n <= |ids|
  {
    exists k :: 0 <= k < n && ids[k] == id
  }

  lemma {:induction false} ClaimedRow(outbox: seq<OutboxEvent>, ids: seq<nat>, n: nat, i: nat)
    requires n <= |ids| && (forall k :: 0 <= k < |ids| ==> ids[k] < |outbox|) && i < |outbox|
    ensures AllClaimed(outbox, ids, n)[i] == if Among(ids, n, i) then outbox[i].(status := Processing) else outbox[i]
  {
    if n > 0 {
      ClaimedRow(outbox, ids, n - 1, i);
      if i == ids[n - 1] {
        assert Among(ids, n, i);
      } else {
        assert Among(ids, n, i) <==> Among(ids, n - 1, i);
      }
    }
  }

  lemma DispatchRow(handler: Handler, registry: Registry, sys: System, id: nat, trial: Trial, now: int, i: nat)
    requires id < |sys.outbox| && i < |sys.outbox|
    ensures var e := sys.outbox[i];
            AfterDispatch(handler, registry, sys, id, trial, now).outbox[i]
            == if i != id then e
               else if Attempt(handler, registry, sys.business, e.kind, trial.fault).Success? then e.(status := Done)
               else Failed(e, trial.at)
  {}

  /** Before its own dispatch a row is only claimed, if that. */
  lemma {:induction false} WaitingRow(handler: Handler, sys: System, b: Batch, n: nat, i: nat)
    requires Fits(b, sys.outbox) && n <= |b.ids| && i < |sys.outbox| && !Among(b.ids, n, i)
    ensures AfterDispatches(handler, sys, b, n).outbox[i] == AllClaimed(sys.outbox, b.ids, |b.ids|)[i]
  {
    if n > 0 {
      assert !Among(b.ids, n - 1, i) && b.ids[n - 1] != i;
      WaitingRow(handler, sys, b, n - 1, i);
      DispatchRow(handler, b.registry, AfterDispatches(handler, sys, b, n - 1), b.ids[n - 1], b.trials[n - 1], b.now,
                  i);
    }
  }

  /** The row of a claimed event as its dispatch finds it. */
  lemma ClaimedRowWaits(handler: Handler, sys: System, b: Batch, k: nat)
    requires Claims(b, sys.outbox) && k < |b.ids|
    ensures AfterDispatches(handler, sys, b, k).outbox[b.ids[k]] == sys.outbox[b.ids[k]].(status := Processing)
  {
    WaitingRow(handler, sys, b, k, b.ids[k]);
    ClaimedRow(sys.outbox, b.ids, |b.ids|, b.ids[k]);
    assert Among(b.ids, |b.ids|, b.ids[k]);
  }

  /** A dispatched row is done or marked for retry, and stays so for the rest of the batch. */
  lemma {:induction false} SettledRow(handler: Handler, sys: System, b: Batch, n: nat, k: nat)
    requires Claims(b, sys.outbox) && k < n <= |b.ids|
    ensures AfterDispatches(handler, sys, b, n).outbox[b.ids[k]]
         == if Succeeds(handler, sys, b, k) then sys.outbox[b.ids[k]].(status := Done)
            else Failed(sys.outbox[b.ids[k]], b.trials[k].at)
    decreases n
  {
    DispatchRow(handler, b.registry, AfterDispatches(handler, sys, b, n - 1), b.ids[n - 1], b.trials[n - 1], b.now,
                b.ids[k]);
    if k < n - 1 {
      SettledRow(handler, sys, b, n - 1, k);
    } else {
      ClaimedRowWaits(handler, sys, b, k);
    }
  }

  /** A committed batch touches exactly the rows it claimed: a success is done, and a failure
      differs from before in its attempts, its status and the instant of its next attempt. */
  lemma BatchRows(handler: Handler, sys: System, b: Batch, i: nat)
    requires Claims(b, sys.outbox) && i < |sys.outbox|
    ensures !Among(b.ids, |b.ids|, i) ==> AfterBatch(handler, sys, b).outbox[i] == sys.outbox[i]
    ensures forall k :: 0 <= k < |b.ids| && b.ids[k] == i ==>
      AfterBatch(handler, sys, b).outbox[i]
      == if Succeeds(handler, sys, b, k) then sys.outbox[i].(status := Done) else Failed(sys.outbox[i], b.trials[k].at)
  {
    if Among(b.ids, |b.ids|, i) {
      forall k | 0 <= k < |b.ids| && b.ids[k] == i
        ensures AfterBatch(handler, sys, b).outbox[i]
             == if Succeeds(handler, sys, b, k) then sys.outbox[i].(status := Done)
               else Failed(sys.outbox[i], b.trials[k].at)
      {
        SettledRow(handler, sys, b, |b.ids|, k);
      }
    } else {
      WaitingRow(handler, sys, b, |b.ids|, i);
      ClaimedRow(sys.outbox, b.ids, |b.ids|, i);
    }
  }

  // ---------------------------------------------------------------- business state

  /** The handlers of the first `n` kinds, one after the other, none of them failing. */
  function HandledAll(handler: Handler, registry: Registry, start: Business, kinds: seq<Kind>, n: nat): Handling
    requires n <= |kinds|
  {
    if n == 0 then Success(start)
    else
      match HandledAll(handler, registry, start, kinds, n - 1)
      case Success(before) => handler(registry, before, kinds[n - 1])
      case Failure => Failure
  }

  lemma {:induction false} HandledAllOfPrefix(handler: Handler, registry: Registry, start: Business, kinds: seq<Kind>,
                                              more: seq<Kind>, n: nat)
    requires n <= |kinds| && n <= |more| && forall i :: 0 <= i < n ==> more[i] == kinds[i]
    ensures HandledAll(handler, registry, start, more, n) == HandledAll(handler, registry, start, kinds, n)
  {
    if n > 0 { HandledAllOfPrefix(handler, registry, start, kinds, more, n - 1); }
  }

  /** The kinds of the successful events among the first `n` of the batch, in order. */
  function SucceededKinds(handler: Handler, sys: System, b: Batch, n: nat): seq<Kind>
    requires Fits(b, sys.outbox) && n <= |b.ids|
  {
    if n == 0 then []
    else
      var before := SucceededKinds(handler, sys, b, n - 1);
      if Succeeds(handler, sys, b, n - 1) then before + [sys.outbox[b.ids[n - 1]].kind] else before
  }

  lemma FoldStep(handler: Handler, registry: Registry, start: Business, kinds: seq<Kind>, before: Business,
                 ok: bool, kind: Kind, more: seq<Kind>, after: Business)
    requires HandledAll(handler, registry, start, kinds, |kinds|) == Success(before)
    requires more == if ok then kinds + [kind] else kinds
    requires if ok then handler(registry, before, kind) == Success(after) else after == before
    ensures HandledAll(handler, registry, start, more, |more|) == Success(after)
  {
    HandledAllOfPrefix(handler, registry, start, kinds, more, |kinds|);
  }

  /** A dispatch succeeds exactly when no fault strikes it and its handler does. */
  lemma SucceedsIff(handler: Handler, sys: System, b: Batch, k: nat)
    requires Claims(b, sys.outbox) && k < |b.ids|
    ensures Succeeds(handler, sys, b, k)
       <==> b.trials[k].fault.NoFault?
            && handler(b.registry, AfterDispatches(handler, sys, b, k).business, sys.outbox[b.ids[k]].kind).Success?
  {
    ClaimedRowWaits(handler, sys, b, k);
  }

  /** One dispatch of a batch: a success is the handler's result, a failure leaves the business state. */
  lemma BusinessStep(handler: Handler, sys: System, b: Batch, k: nat)
    requires Claims(b, sys.outbox) && k < |b.ids|
    ensures var before := AfterDispatches(handler, sys, b, k).business;
            var after := AfterDispatches(handler, sys, b, k + 1).business;
            if Succeeds(handler, sys, b, k)
            then handler(b.registry, before, sys.outbox[b.ids[k]].kind) == Success(after)
            else after == before
  {
    ClaimedRowWaits(handler, sys, b, k);
  }

  /** The successful handlers of the first `n` events, folded over the state before, give `after`. */
  ghost predicate FoldsTo(handler: Handler, sys: System, b: Batch, kinds: seq<Kind>, after: Business) {
    HandledAll(handler, b.registry, sys.business, kinds, |kinds|) == Success(after)
  }

  lemma NextFold(handler: Handler, sys: System, b: Batch, k: nat, kinds: seq<Kind>, more: seq<Kind>,
                 before: Business, after: Business)
    requires Claims(b, sys.outbox) && k < |b.ids|
    requires before == AfterDispatches(handler, sys, b, k).business
    requires after == AfterDispatches(handler, sys, b, k + 1).business
    requires more == if Succeeds(handler, sys, b, k) then kinds + [sys.outbox[b.ids[k]].kind] else kinds
    requires FoldsTo(handler, sys, b, kinds, before)
    ensures FoldsTo(handler, sys, b, more, after)
  {
    BusinessStep(handler, sys, b, k);
    FoldStep(handler, b.registry, sys.business, kinds, before, Succeeds(handler, sys, b, k),
             sys.outbox[b.ids[k]].kind, more, after);
  }

  lemma {:induction false} BusinessIsFold(handler: Handler, sys: System, b: Batch, n: nat, kinds: seq<Kind>,
                                          after: Business)
    requires Claims(b, sys.outbox) && n <= |b.ids|
    requires kinds == SucceededKinds(handler, sys, b, n) && after == AfterDispatches(handler, sys, b, n).business
    ensures FoldsTo(handler, sys, b, kinds, after)
  {
    if n > 0 {
      var fewer := SucceededKinds(handler, sys, b, n - 1);
      var before := AfterDispatches(handler, sys, b, n - 1).business;
      BusinessIsFold(handler, sys, b, n - 1, fewer, before);
      NextFold(handler, sys, b, n - 1, fewer, kinds, before, after);
    }
  }

  /** Poison isolation: the business state after a batch is that of its successful handlers alone,
      applied in order to the state before, as if the failing events had not been there. */
  lemma PoisonIsIsolated(handler: Handler, sys: System, b: Batch)
    requires Claims(b, sys.outbox)
    ensures var kinds := SucceededKinds(handler, sys, b, |b.ids|);
            HandledAll(handler, b.registry, sys.business, kinds, |kinds|)
            == Success(AfterBatch(handler, sys, b).business)
  {
    BusinessIsFold(handler, sys, b, |b.ids|, SucceededKinds(handler, sys, b, |b.ids|),
                   AfterBatch(handler, sys, b).business);
  }

  /** A batch of events that all fail, whatever the reason, changes nothing but their retry fields. */
  lemma {:induction false} AllPoison(handler: Handler, sys: System, b: Batch, n: nat)
    requires Fits(b, sys.outbox) && n <= |b.ids| && forall k :: 0 <= k < |b.ids| ==> !Succeeds(handler, sys, b, k)
    ensures AfterDispatches(handler, sys, b, n).business == sys.business
    ensures |AfterDispatches(handler, sys, b, n).outbox| == |sys.outbox|
  {
    if n > 0 {
      AllPoison(handler, sys, b, n - 1);
      assert !Succeeds(handler, sys, b, n - 1);
    }
  }
}
