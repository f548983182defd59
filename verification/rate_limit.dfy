/** Sliding-window rate limiting: the arithmetic of a decision, the in-memory limiter that
    prunes old counters and the Redis limiter that lets them expire. Both limiters are
    compared with one that remembers every hit it ever saw. */
module RateLimit {

  const MAX_TRACKED_KEYS := 50_000

  type Window = w: int | w > 0 witness 1

  datatype Decision = Decision(allowed: bool, remaining: int, retryAfterSeconds: int)

  /** One call of a limiter; `now` is the clock reading in seconds. */
  datatype Request = Request(key: string, limit: int, window: Window, now: real)

  // ---------------------------------------------------------------- arithmetic

  function WindowIndex(now: real, window: Window): int {
    (now / window as real).Floor
  }

  /** The share of the current window that has already passed. */
  function Elapsed(now: real, window: Window): (e: real)
    ensures 0.0 <= e < 1.0
  {
    now / window as real - WindowIndex(now, window) as real
  }

  /** What a limiter knows when it decides: the hits of the current window, this one
      included, and those of the previous window. */
  datatype Counts = Counts(current: int, previous: int)

  function SlidingEstimate(counts: Counts, elapsed: real): real {
    counts.current as real + counts.previous as real * (1.0 - elapsed)
  }

  predicate Within(counts: Counts, elapsed: real, limit: int) {
    SlidingEstimate(counts, elapsed) <= limit as real
  }

  function Truncate(r: real): int {
    if r < 0.0 then -((-r).Floor) else r.Floor
  }

  /** Decision for a weighted hit count that includes the current request. */
  function Decide(estimate: real, limit: int, now: real, window: Window): (d: Decision)
    ensures 1 <= d.retryAfterSeconds <= window
    ensures 0 <= d.remaining
    ensures d.allowed <==> estimate <= limit as real
    ensures !d.allowed ==> d.remaining == 0
  {
    var retryAfter := window - Truncate(now) % window;
    var left := Truncate(limit as real - estimate);
    Decision(estimate <= limit as real, if left < 0 then 0 else left, if retryAfter < 1 then 1 else retryAfter)
  }

  lemma WindowIndexBounds(now: real, window: Window)
    ensures WindowIndex(now, window) as real * window as real <= now
    ensures now < (WindowIndex(now, window) as real + 1.0) * window as real
  {
    var w, q := window as real, now / window as real;
    assert q * w == now;
    ScaleLess(w, WindowIndex(now, window) as real, q);
    ScaleStrict(w, q, WindowIndex(now, window) as real + 1.0);
  }

  lemma WindowIndexMonotone(t: real, u: real, window: Window)
    requires t <= u
    ensures WindowIndex(t, window) <= WindowIndex(u, window)
  {
    var w := window as real;
    assert u / w - t / w == (u - t) / w >= 0.0;
  }

  lemma ScaleLess(p: real, e: real, f: real)
    requires 0.0 <= p && e <= f
    ensures p * e <= p * f
  {}

  lemma ScaleStrict(p: real, e: real, f: real)
    requires 0.0 < p && e < f
    ensures p * e < p * f
  {
    assert p * (f - e) > 0.0;
  }

  /** An instant between two window boundaries is in the window between them. */
  lemma WindowIndexOf(now: real, window: Window, index: int)
    requires index as real * window as real <= now < (index + 1) as real * window as real
    ensures WindowIndex(now, window) == index
  {
    var w, q := window as real, now / window as real;
    assert q * w == now;
    if q < index as real { ScaleStrict(w, q, index as real); }
    if q >= (index + 1) as real { ScaleLess(w, (index + 1) as real, q); }
  }

  lemma WholeWindows(seconds: int, window: Window)
    requires seconds >= 0
    ensures var index := seconds / window;
            && index * window <= seconds < (index + 1) * window
            && seconds - seconds % window == index * window
            && (index * window) as real == index as real * window as real
            && ((index + 1) * window) as real == (index + 1) as real * window as real
  {}

  /** The retry delay is exact: the least whole number of seconds after which the window number
      has gone up. */
  lemma RetryReachesTheNextWindow(estimate: real, limit: int, now: real, window: Window)
    requires now >= 0.0
    ensures var wait := Decide(estimate, limit, now, window).retryAfterSeconds;
            && WindowIndex(now + wait as real, window) == WindowIndex(now, window) + 1
            && WindowIndex(now + (wait - 1) as real, window) == WindowIndex(now, window)
  {
    var f := now.Floor;
    var index := f / window;
    WholeWindows(f, window);
    var wait := window - f % window;
    assert f + wait == (index + 1) * window;
    NextWholeWindow(index, window);
    WindowIndexOf(now, window, index);
    WindowIndexOf(now + (wait - 1) as real, window, index);
    WindowIndexOf(now + wait as real, window, index + 1);
  }

  lemma NextWholeWindow(index: int, window: Window)
    ensures ((index + 2) * window) as real == (index + 2) as real * window as real
    ensures (index + 2) * window == (index + 1) * window + window
  {}

  /** What a limiter answers to a request when it has read these counts. */
  function Answer(counts: Counts, r: Request): Decision {
    Decide(SlidingEstimate(counts, Elapsed(r.now, r.window)), r.limit, r.now, r.window)
  }

  /** What remains is exact: so many more hits at the same instant are allowed, and no more. */
  lemma RemainingIsExact(counts: Counts, r: Request, more: nat)
    requires Answer(counts, r).allowed
    ensures Answer(Counts(counts.current + more, counts.previous), r).allowed <==> more <= Answer(counts, r).remaining
  {
    var left := r.limit as real - SlidingEstimate(counts, Elapsed(r.now, r.window));
    assert SlidingEstimate(Counts(counts.current + more, counts.previous), Elapsed(r.now, r.window))
        == SlidingEstimate(counts, Elapsed(r.now, r.window)) + more as real;
    assert more as real <= left <==> more <= left.Floor;
  }

  /** A hit is allowed exactly when the hits of its window, and those of the previous window in the
      proportion of the time that is left of its own, come to at most the limit. */
  lemma AllowedIff(counts: Counts, r: Request)
    ensures var start, w := WindowIndex(r.now, r.window) as real * r.window as real, r.window as real;
            Answer(counts, r).allowed
            <==> counts.current as real * w + counts.previous as real * (start + w - r.now) <= r.limit as real * w
  {
    var e, w := Elapsed(r.now, r.window), r.window as real;
    var c, p, limit := counts.current as real, counts.previous as real, r.limit as real;
    var left := WindowIndex(r.now, r.window) as real * w + w - r.now;
    ElapsedIsExact(r.now, r.window);
    assert left == (1.0 - e) * w;
    InWholeWindows(c, p, 1.0 - e, w, limit);
  }

  /** The elapsed share is the time since the start of the window. */
  lemma ElapsedIsExact(now: real, window: Window)
    ensures (WindowIndex(now, window) as real + Elapsed(now, window)) * window as real == now
  {
    var w, q := window as real, now / window as real;
    assert q * w == now && WindowIndex(now, window) as real + Elapsed(now, window) == q;
  }

  lemma InWholeWindows(c: real, p: real, left: real, w: real, limit: real)
    requires w > 0.0
    ensures c + p * left <= limit <==> c * w + p * (left * w) <= limit * w
  {
    var all := c + p * left;
    assert w * all == c * w + p * (left * w);
    if all <= limit { ScaleLess(w, all, limit); } else { ScaleStrict(w, limit, all); }
  }

  /** No hit is refused while the hits of both windows together are within the limit, and every
      hit is refused that exceeds the limit in its own window. */
  lemma RefusedBetween(counts: Counts, r: Request)
    requires counts.previous >= 0
    ensures counts.current + counts.previous <= r.limit ==> Answer(counts, r).allowed
    ensures counts.current > r.limit ==> !Answer(counts, r).allowed
  {
    Weighed(counts.previous as real, Elapsed(r.now, r.window));
  }

  lemma Weighed(p: real, e: real)
    requires 0.0 <= e < 1.0 && p >= 0.0
    ensures 0.0 <= p * (1.0 - e) <= p
  {
    assert p * (1.0 - e) == p - p * e && p * e >= 0.0;
    ScaleLess(p, 0.0, 1.0 - e);
  }

  // ---------------------------------------------------------------- a limiter that never forgets

  /** A hit as the counters see it: how far its own window has run, and the number of the
      window every key is in at that instant. */
  datatype Mark = Mark(key: string, limit: int, window: Window, now: real, elapsed: real, current: string -> int)
  {
    function Index(): int { current(key) }
  }

  function MarkOf(r: Request, windowOf: string -> Window): Mark {
    Mark(r.key, r.limit, r.window, r.now, Elapsed(r.now, r.window), key => WindowIndex(r.now, windowOf(key)))
  }

  function MarksOf(requests: seq<Request>, windowOf: string -> Window): seq<Mark> {
    seq(|requests|, i requires 0 <= i < |requests| => MarkOf(requests[i], windowOf))
  }

  /** Requests on a clock that never runs backwards, every key with a fixed window length. */
  ghost predicate WellTimed(requests: seq<Request>, windowOf: string -> Window) {
    && (forall i :: 0 <= i < |requests| ==> requests[i].window == windowOf(requests[i].key))
    && (forall i, j :: 0 <= i < j < |requests| ==> requests[i].now <= requests[j].now)
  }

  ghost predicate NotAfter(m: Mark, later: Mark) {
    forall key :: m.current(key) <= later.current(key)
  }

  ghost predicate Ordered(marks: seq<Mark>) {
    && (forall i :: 0 <= i < |marks| ==> 0.0 <= marks[i].elapsed < 1.0)
    && (forall i, j {:trigger NotAfter(marks[i], marks[j])} :: 0 <= i < j < |marks| ==> NotAfter(marks[i], marks[j]))
  }

  lemma MarksAreOrdered(requests: seq<Request>, windowOf: string -> Window)
    requires WellTimed(requests, windowOf)
    ensures Ordered(MarksOf(requests, windowOf))
  {
    var marks := MarksOf(requests, windowOf);
    forall i, j | 0 <= i < j < |marks| ensures NotAfter(marks[i], marks[j]) {
      forall key ensures marks[i].current(key) <= marks[j].current(key) {
        WindowIndexMonotone(requests[i].now, requests[j].now, windowOf(key));
      }
    }
  }

  /** How many of the first `n` hits fell on `key` in window `index`. */
  function HitsIn(marks: seq<Mark>, n: nat, key: string, index: int): nat
    requires n <= |marks|
  {
    if n == 0 then 0
    else HitsIn(marks, n - 1, key, index)
         + (if marks[n - 1].key == key && marks[n - 1].Index() == index then 1 else 0)
  }

  /** The counts for hit `i`, read off the complete history of earlier hits. */
  function HistoryCounts(marks: seq<Mark>, i: nat): Counts
    requires i < |marks|
  {
    var m := marks[i];
    Counts(HitsIn(marks, i, m.key, m.Index()) + 1, HitsIn(marks, i, m.key, m.Index() - 1))
  }

  // ---------------------------------------------------------------- burst bound

  /** Is `m` a hit on `key` in window `index`, or in the first share `e` of the next one? */
  predicate InSpan(m: Mark, key: string, index: int, e: real) {
    m.key == key && (m.Index() == index || (m.Index() == index + 1 && m.elapsed < e))
  }

  /** Does hit `i` fall in the span, and did the limiter allow it? */
  predicate AllowedAt(marks: seq<Mark>, i: nat, key: string, index: int, e: real)
    requires i < |marks|
  {
    InSpan(marks[i], key, index, e) && Within(HistoryCounts(marks, i), marks[i].elapsed, marks[i].limit)
  }

  function AllowedInSpan(marks: seq<Mark>, n: nat, key: string, index: int, e: real): nat
    requires n <= |marks|
  {
    if n == 0 then 0
    else AllowedInSpan(marks, n - 1, key, index, e) + (if AllowedAt(marks, n - 1, key, index, e) then 1 else 0)
  }

  ghost predicate OneLimit(marks: seq<Mark>, key: string, limit: int) {
    forall i :: 0 <= i < |marks| && marks[i].key == key ==> marks[i].limit == limit
  }

  lemma {:induction false} NothingFromALaterWindow(marks: seq<Mark>, n: nat, key: string, index: int)
    requires n <= |marks|
    requires forall i :: 0 <= i < n ==> marks[i].current(key) <= index
    ensures HitsIn(marks, n, key, index + 1) == 0
  {
    if n > 0 { NothingFromALaterWindow(marks, n - 1, key, index); }
  }

  /** An allowed hit was itself within the limit of its own window. */
  lemma AllowedWithinCount(marks: seq<Mark>, i: nat, key: string, index: int, e: real)
    requires i < |marks| && 0.0 <= marks[i].elapsed < 1.0
    requires AllowedAt(marks, i, key, index, e)
    ensures HitsIn(marks, i, key, marks[i].Index()) + 1 <= marks[i].limit
  {
    ScaleLess(HitsIn(marks, i, key, marks[i].Index() - 1) as real, 0.0, 1.0 - marks[i].elapsed);
  }

  /** The first window holds at most `limit` allowed hits, all of them counted; every other
      allowed hit of the span was counted in the second window. */
  lemma {:induction false} SplitAtBoundary(marks: seq<Mark>, n: nat, key: string, limit: nat, index: int, e: real)
    requires n <= |marks| && Ordered(marks) && OneLimit(marks, key, limit)
    requires 0.0 <= e
    ensures AllowedInSpan(marks, n, key, index, 0.0) <= HitsIn(marks, n, key, index)
    ensures AllowedInSpan(marks, n, key, index, 0.0) <= limit
    ensures AllowedInSpan(marks, n, key, index, e)
         <= AllowedInSpan(marks, n, key, index, 0.0) + HitsIn(marks, n, key, index + 1)
  {
    if n > 0 {
      SplitAtBoundary(marks, n - 1, key, limit, index, e);
      if AllowedAt(marks, n - 1, key, index, 0.0) {
        AllowedWithinCount(marks, n - 1, key, index, 0.0);
      }
    }
  }

  lemma ShareOfLimit(first: real, share: real, e: real, limit: real)
    requires 0.0 <= first <= limit && 0.0 <= share <= e
    ensures share * first <= limit * e
  {
    ScaleLess(share, first, limit);
    ScaleLess(limit, share, e);
    assert share * limit == limit * share;
  }

  lemma SecondWindowArithmetic(first: real, p: real, c: real, share: real, e: real, limit: real)
    requires 0.0 <= first <= p && first <= limit
    requires 0.0 <= share <= e <= 1.0
    requires c + p * (1.0 - share) <= limit
    ensures first + c <= limit * (1.0 + e)
  {
    ShareOfLimit(first, share, e, limit);
    ScaleLess(1.0 - share, first, p);
    assert (1.0 - share) * first == first - share * first;
    assert (1.0 - share) * p == p * (1.0 - share);
    assert limit * (1.0 + e) == limit + limit * e;
  }

  lemma WithinSplit(first: nat, counts: Counts, share: real, e: real, limit: nat)
    requires first <= counts.previous && first <= limit
    requires 0.0 <= share <= e <= 1.0
    requires Within(counts, share, limit)
    ensures (first + counts.current) as real <= limit as real * (1.0 + e)
  {
    SecondWindowArithmetic(first as real, counts.previous as real, counts.current as real, share, e, limit as real);
  }

  /** A hit allowed in the second window: the whole span so far is within the bound. */
  lemma SecondWindowHit(marks: seq<Mark>, i: nat, key: string, limit: nat, index: int, e: real)
    requires i < |marks| && Ordered(marks) && OneLimit(marks, key, limit)
    requires 0.0 <= e <= 1.0
    requires AllowedAt(marks, i, key, index, e) && marks[i].Index() == index + 1
    ensures (AllowedInSpan(marks, i, key, index, e) + 1) as real <= limit as real * (1.0 + e)
  {
    SplitAtBoundary(marks, i, key, limit, index, e);
    WithinSplit(AllowedInSpan(marks, i, key, index, 0.0), HistoryCounts(marks, i), marks[i].elapsed, e, limit);
  }

  /** A hit allowed in the first window: no hit of the second window came before it. */
  lemma FirstWindowHit(marks: seq<Mark>, i: nat, key: string, limit: nat, index: int, e: real)
    requires i < |marks| && Ordered(marks) && OneLimit(marks, key, limit)
    requires 0.0 <= e
    requires AllowedAt(marks, i, key, index, e) && marks[i].Index() == index
    ensures AllowedInSpan(marks, i, key, index, e) + 1 <= limit
  {
    SplitAtBoundary(marks, i, key, limit, index, e);
    forall j | 0 <= j < i ensures marks[j].current(key) <= index {
      assert NotAfter(marks[j], marks[i]);
    }
    NothingFromALaterWindow(marks, i, key, index);
    AllowedWithinCount(marks, i, key, index, e);
  }

  lemma {:induction false} BurstWithin(marks: seq<Mark>, n: nat, key: string, limit: nat, index: int, e: real,
                                       bound: real)
    requires n <= |marks| && Ordered(marks) && OneLimit(marks, key, limit)
    requires 0.0 <= e && limit as real <= bound
    requires forall i :: 0 <= i < n && AllowedAt(marks, i, key, index, e) && marks[i].Index() == index + 1 ==>
      (AllowedInSpan(marks, i, key, index, e) + 1) as real <= bound
    ensures AllowedInSpan(marks, n, key, index, e) as real <= bound
  {
    if n > 0 {
      BurstWithin(marks, n - 1, key, limit, index, e, bound);
      if AllowedAt(marks, n - 1, key, index, e) && marks[n - 1].Index() == index {
        FirstWindowHit(marks, n - 1, key, limit, index, e);
      }
    }
  }

  lemma NotScaledDown(p: real, e: real)
    requires 0.0 <= p && 0.0 <= e
    ensures p <= p * (1.0 + e)
  {
    assert p * (1.0 + e) == p + p * e;
  }

  /** Of the hits of one key in a whole window and in the first share `e` of the next
      window, at most limit * (1 + e) are allowed. */
  lemma BurstBound(marks: seq<Mark>, n: nat, key: string, limit: nat, index: int, e: real)
    requires n <= |marks| && Ordered(marks) && OneLimit(marks, key, limit)
    requires 0.0 <= e <= 1.0
    ensures AllowedInSpan(marks, n, key, index, e) as real <= limit as real * (1.0 + e)
  {
    var bound := limit as real * (1.0 + e);
    NotScaledDown(limit as real, e);
    forall i | 0 <= i < n && AllowedAt(marks, i, key, index, e) && marks[i].Index() == index + 1
      ensures (AllowedInSpan(marks, i, key, index, e) + 1) as real <= bound
    {
      SecondWindowHit(marks, i, key, limit, index, e);
    }
    BurstWithin(marks, n, key, limit, index, e, bound);
  }

  /** The answers of a limiter that never forgets to the requests of a run. */
  function HistoryAnswers(requests: seq<Request>, windowOf: string -> Window): seq<Decision> {
    seq(|requests|, i requires 0 <= i < |requests| =>
      Answer(HistoryCounts(MarksOf(requests, windowOf), i), requests[i]))
  }

  /** Of the first `n` answers, those that allow a hit on `key` within `window` seconds from `lo`. */
  function AllowedInInterval(requests: seq<Request>, answers: seq<Decision>, n: nat, key: string, lo: real,
                             window: Window): nat
    requires n <= |requests| == |answers|
  {
    if n == 0 then 0
    else
      var r := requests[n - 1];
      AllowedInInterval(requests, answers, n - 1, key, lo, window)
      + (if r.key == key && lo <= r.now < lo + window as real && answers[n - 1].allowed then 1 else 0)
  }

  lemma OneWindowLater(lo: real, now: real, window: Window)
    requires lo <= now < lo + window as real
    ensures WindowIndex(now, window) == WindowIndex(lo, window)
         || (WindowIndex(now, window) == WindowIndex(lo, window) + 1 && Elapsed(now, window) < Elapsed(lo, window))
  {
    var w := window as real;
    var p, q := lo / w, now / w;
    assert p * w == lo && q * w == now;
    if q < p { ScaleLess(w, q, p); }
    if q >= p + 1.0 { ScaleLess(w, p + 1.0, q); }
    assert p <= q < p + 1.0;
  }

  /** The answers allow what the complete history allows. */
  ghost predicate ByHistory(answers: seq<Decision>, marks: seq<Mark>) {
    && |answers| == |marks|
    && forall i {:trigger answers[i]} :: 0 <= i < |marks| ==>
         (answers[i].allowed <==> Within(HistoryCounts(marks, i), marks[i].elapsed, marks[i].limit))
  }

  lemma HistoryAnswersByHistory(requests: seq<Request>, windowOf: string -> Window)
    ensures ByHistory(HistoryAnswers(requests, windowOf), MarksOf(requests, windowOf))
  {}

  /** Every hit on `key` within `window` seconds from `lo` lies in the span. */
  ghost predicate Covered(requests: seq<Request>, marks: seq<Mark>, key: string, lo: real, window: Window, index: int,
                          e: real)
  {
    && |requests| == |marks|
    && forall i {:trigger marks[i]} :: 0 <= i < |marks| ==>
         requests[i].key == key && lo <= requests[i].now < lo + window as real ==> InSpan(marks[i], key, index, e)
  }

  lemma IntervalIsCovered(requests: seq<Request>, windowOf: string -> Window, key: string, lo: real)
    requires WellTimed(requests, windowOf)
    ensures Covered(requests, MarksOf(requests, windowOf), key, lo, windowOf(key), WindowIndex(lo, windowOf(key)),
                    Elapsed(lo, windowOf(key)))
  {
    var marks := MarksOf(requests, windowOf);
    forall i | 0 <= i < |marks| && requests[i].key == key && lo <= requests[i].now < lo + windowOf(key) as real
      ensures InSpan(marks[i], key, WindowIndex(lo, windowOf(key)), Elapsed(lo, windowOf(key)))
    {
      OneWindowLater(lo, requests[i].now, windowOf(key));
    }
  }

  lemma {:induction false} IntervalWithinSpan(requests: seq<Request>, marks: seq<Mark>, answers: seq<Decision>, n: nat,
                                              key: string, lo: real, window: Window, index: int, e: real)
    requires n <= |requests| && ByHistory(answers, marks) && Covered(requests, marks, key, lo, window, index, e)
    ensures AllowedInInterval(requests, answers, n, key, lo, window) <= AllowedInSpan(marks, n, key, index, e)
  {
    if n > 0 {
      IntervalWithinSpan(requests, marks, answers, n - 1, key, lo, window, index, e);
      assert marks[n - 1] == marks[n - 1] && answers[n - 1] == answers[n - 1];
    }
  }

  lemma LessThanTwice(limit: nat, f: real)
    requires f < 1.0 && limit > 0
    ensures limit as real * (1.0 + f) < (2 * limit) as real
  {
    ScaleStrict(limit as real, 1.0 + f, 2.0);
  }

  lemma MarksKeepTheLimit(requests: seq<Request>, windowOf: string -> Window, key: string, limit: int)
    requires forall i :: 0 <= i < |requests| && requests[i].key == key ==> requests[i].limit == limit
    ensures OneLimit(MarksOf(requests, windowOf), key, limit)
  {}

  lemma CoveredBurstBound(requests: seq<Request>, marks: seq<Mark>, answers: seq<Decision>, key: string, limit: nat,
                          lo: real, window: Window, index: int, f: real)
    requires ByHistory(answers, marks) && Covered(requests, marks, key, lo, window, index, f)
    requires Ordered(marks) && OneLimit(marks, key, limit) && 0.0 <= f < 1.0
    ensures AllowedInInterval(requests, answers, |requests|, key, lo, window) as real <= limit as real * (1.0 + f)
    ensures limit > 0 ==> AllowedInInterval(requests, answers, |requests|, key, lo, window) < 2 * limit
  {
    IntervalWithinSpan(requests, marks, answers, |requests|, key, lo, window, index, f);
    BurstBound(marks, |marks|, key, limit, index, f);
    if limit > 0 { LessThanTwice(limit, f); }
  }

  /** The burst bound as a caller meets it: an interval of one window length that starts at
      share f of a window sees at most limit * (1 + f) allowed hits, fewer than two limits. */
  lemma IntervalBurstBound(requests: seq<Request>, windowOf: string -> Window, answers: seq<Decision>, key: string,
                           limit: nat, lo: real, f: real)
    requires WellTimed(requests, windowOf) && ByHistory(answers, MarksOf(requests, windowOf))
    requires forall i :: 0 <= i < |requests| && requests[i].key == key ==> requests[i].limit == limit
    requires f == Elapsed(lo, windowOf(key))
    ensures AllowedInInterval(requests, answers, |requests|, key, lo, windowOf(key)) as real
         <= limit as real * (1.0 + f)
    ensures limit > 0 ==> AllowedInInterval(requests, answers, |requests|, key, lo, windowOf(key)) < 2 * limit
  {
    MarksAreOrdered(requests, windowOf);
    MarksKeepTheLimit(requests, windowOf, key, limit);
    IntervalIsCovered(requests, windowOf, key, lo);
    CoveredBurstBound(requests, MarksOf(requests, windowOf), answers, key, limit, lo, windowOf(key),
                      WindowIndex(lo, windowOf(key)), f);
  }

  // ---------------------------------------------------------------- in-memory limiter

  type Counters = map<(string, int), int>

  function CountOf(counters: Counters, key: string, index: int): int {
    if (key, index) in counters then counters[(key, index)] else 0
  }

  /** The table a hit in window `index` counts in: pruned first when it has grown too large. */
  function Table(counters: Counters, index: int): Counters {
    if |counters| > MAX_TRACKED_KEYS then map k | k in counters && k.1 >= index - 1 :: counters[k] else counters
  }

  function Counted(counters: Counters, key: string, index: int): Counters {
    var table := Table(counters, index);
    table[(key, index) := CountOf(table, key, index) + 1]
  }

  function TableCounts(table: Counters, key: string, index: int): Counts {
    Counts(CountOf(table, key, index) + 1, CountOf(table, key, index - 1))
  }

  class InMemoryRateLimiter {
    var counters: Counters

    constructor ()
      ensures counters == map[]
    {
      counters := map[];
    }

    method Hit(key: string, limit: int, window: Window, now: real) returns (decision: Decision)
      modifies this
      ensures counters == Counted(old(counters), key, WindowIndex(now, window))
      ensures var index := WindowIndex(now, window);
              decision == Answer(TableCounts(Table(old(counters), index), key, index), Request(key, limit, window, now))
    {
      var index := WindowIndex(now, window);
      if |counters| > MAX_TRACKED_KEYS {
        counters := map k | k in counters && k.1 >= index - 1 :: counters[k];
      }
      var count := (if (key, index) in counters then counters[(key, index)] else 0) + 1;
      counters := counters[(key, index) := count];
      var previous := if (key, index - 1) in counters then counters[(key, index - 1)] else 0;
      var estimate := SlidingEstimate(Counts(count, previous), Elapsed(now, window));
      decision := Decide(estimate, limit, now, window);
    }
  }

  /** The table after the first `n` hits of a run that starts with an empty limiter. */
  function TableAfter(marks: seq<Mark>, n: nat): Counters
    requires n <= |marks|
  {
    if n == 0 then map[] else Counted(TableAfter(marks, n - 1), marks[n - 1].key, marks[n - 1].Index())
  }

  /** Pruning for the hit `m` drops no counter that its own key may still read. */
  ghost predicate PruneKeepsLive(counters: Counters, m: Mark) {
    forall k <- counters :: k.1 >= m.current(k.0) - 1 ==> k.1 >= m.Index() - 1
  }

  /** If hit `i` prunes, it keeps the live counters. */
  ghost predicate HarmlessAt(marks: seq<Mark>, i: nat)
    requires i < |marks|
  {
    |TableAfter(marks, i)| > MAX_TRACKED_KEYS ==> PruneKeepsLive(TableAfter(marks, i), marks[i])
  }

  ghost predicate PrunesKeepLive(marks: seq<Mark>) {
    forall i :: 0 <= i < |marks| ==> HarmlessAt(marks, i)
  }

  /** At instant `m` the table holds the true count of every window that can still be read. */
  ghost predicate Agrees(counters: Counters, marks: seq<Mark>, n: nat, m: Mark)
    requires n <= |marks|
  {
    forall key, index :: index >= m.current(key) - 1 ==> CountOf(counters, key, index) == HitsIn(marks, n, key, index)
  }

  /** What a hit does to a counter that can still be read. */
  lemma CountedReadBack(counters: Counters, m: Mark, key: string, index: int)
    requires |counters| > MAX_TRACKED_KEYS ==> PruneKeepsLive(counters, m)
    requires index >= m.current(key) - 1
    ensures CountOf(Table(counters, m.Index()), key, index) == CountOf(counters, key, index)
    ensures CountOf(Counted(counters, m.key, m.Index()), key, index)
         == CountOf(counters, key, index) + (if key == m.key && index == m.Index() then 1 else 0)
  {
    if (key, index) in counters && |counters| > MAX_TRACKED_KEYS {
      assert (key, index).1 >= m.current((key, index).0) - 1;
    }
  }

  lemma {:induction false} TableAgreesWithHistory(marks: seq<Mark>, n: nat)
    requires n < |marks| && Ordered(marks) && PrunesKeepLive(marks)
    ensures Agrees(TableAfter(marks, n), marks, n, marks[n])
  {
    if n > 0 {
      TableAgreesWithHistory(marks, n - 1);
      assert HarmlessAt(marks, n - 1) && NotAfter(marks[n - 1], marks[n]);
      forall key, index | index >= marks[n].current(key) - 1
        ensures CountOf(TableAfter(marks, n), key, index) == HitsIn(marks, n, key, index)
      {
        assert marks[n - 1].current(key) <= marks[n].current(key);
        CountedReadBack(TableAfter(marks, n - 1), marks[n - 1], key, index);
      }
    }
  }

  /** While no prune drops a live counter, the pruned limiter reads the true counts for every
      hit of any run, so it decides like the limiter that never forgets. */
  lemma PrunedRefinesHistory(marks: seq<Mark>, i: nat)
    requires i < |marks| && Ordered(marks) && PrunesKeepLive(marks)
    ensures TableCounts(Table(TableAfter(marks, i), marks[i].Index()), marks[i].key, marks[i].Index())
         == HistoryCounts(marks, i)
  {
    var m, table := marks[i], TableAfter(marks, i);
    TableAgreesWithHistory(marks, i);
    assert HarmlessAt(marks, i);
    CountedReadBack(table, m, m.key, m.Index());
    CountedReadBack(table, m, m.key, m.Index() - 1);
  }

  /** With one window length for all keys every prune keeps the live counters, so any run of
      requests is decided as by the limiter that never forgets. */
  lemma OneWindowRefinesHistory(requests: seq<Request>, windowOf: string -> Window, i: nat)
    requires i < |requests| && WellTimed(requests, windowOf)
    requires forall key, key' :: windowOf(key) == windowOf(key')
    ensures var marks, index := MarksOf(requests, windowOf), WindowIndex(requests[i].now, requests[i].window);
            marks[i].Index() == index
            && TableCounts(Table(TableAfter(marks, i), index), requests[i].key, index) == HistoryCounts(marks, i)
  {
    var marks := MarksOf(requests, windowOf);
    MarksAreOrdered(requests, windowOf);
    forall j | 0 <= j < |marks| ensures HarmlessAt(marks, j) {
      forall k <- TableAfter(marks, j) ensures marks[j].current(k.0) == marks[j].Index() {
        assert windowOf(k.0) == windowOf(requests[j].key);
      }
    }
    PrunedRefinesHistory(marks, i);
  }

  /** Is a hit on `key` at the instant of `m` allowed by the table that `m` pruned exactly
      when it is allowed by the table before pruning? */
  ghost predicate SameAnswer(counters: Counters, m: Mark, key: string, limit: int, elapsed: real) {
    var pruned := map k | k in counters && k.1 >= m.Index() - 1 :: counters[k];
    Within(TableCounts(pruned, key, m.current(key)), elapsed, limit)
    <==> Within(TableCounts(counters, key, m.current(key)), elapsed, limit)
  }

  /** A prune is invisible exactly when it drops no live counter: otherwise some hit at the
      same instant, with some limit, is allowed that should have been refused. */
  lemma PruneInvisibleIff(counters: Counters, m: Mark, elapsed: real)
    requires 0.0 <= elapsed < 1.0
    requires forall k <- counters :: counters[k] > 0 && k.1 <= m.current(k.0)
    ensures PruneKeepsLive(counters, m) <==> forall key, limit :: SameAnswer(counters, m, key, limit, elapsed)
  {
    if PruneKeepsLive(counters, m) {
      forall key, limit ensures SameAnswer(counters, m, key, limit, elapsed) {
        KeptCountersAreSeen(counters, m, key);
      }
    } else {
      var k :| k in counters && k.1 >= m.current(k.0) - 1 && k.1 < m.Index() - 1;
      DroppedCounterIsMissed(counters, m, k, elapsed);
    }
  }

  lemma KeptCountersAreSeen(counters: Counters, m: Mark, key: string)
    requires PruneKeepsLive(counters, m)
    ensures TableCounts(map k | k in counters && k.1 >= m.Index() - 1 :: counters[k], key, m.current(key))
         == TableCounts(counters, key, m.current(key))
  {
    var index := m.current(key);
    if (key, index) in counters { assert (key, index).1 >= m.current((key, index).0) - 1; }
    if (key, index - 1) in counters { assert (key, index - 1).1 >= m.current((key, index - 1).0) - 1; }
  }

  lemma MoreCountedIsRefused(current: int, extra: int, previous: int, elapsed: real)
    requires extra >= 0 && previous >= 0 && extra + previous > 0
    requires 0.0 <= elapsed < 1.0
    ensures Within(Counts(current, 0), elapsed, current)
    ensures !Within(Counts(current + extra, previous), elapsed, current)
  {
    ScaleLess(previous as real, 0.0, 1.0 - elapsed);
    if previous > 0 { ScaleStrict(previous as real, 0.0, 1.0 - elapsed); }
  }

  lemma DroppedCounterIsMissed(counters: Counters, m: Mark, k: (string, int), elapsed: real)
    requires 0.0 <= elapsed < 1.0
    requires forall c <- counters :: counters[c] > 0
    requires k in counters && m.current(k.0) - 1 <= k.1 <= m.current(k.0)
    requires k.1 < m.Index() - 1
    ensures exists limit :: !SameAnswer(counters, m, k.0, limit, elapsed)
  {
    var key, index := k.0, m.current(k.0);
    var pruned := map c | c in counters && c.1 >= m.Index() - 1 :: counters[c];
    assert k == (key, index) || k == (key, index - 1);
    var seen, all := TableCounts(pruned, key, index), TableCounts(counters, key, index);
    assert seen.previous == 0;
    MoreCountedIsRefused(seen.current, all.current - seen.current, all.previous, elapsed);
    assert !SameAnswer(counters, m, key, seen.current, elapsed);
  }

  /** A minute-window hit that prunes drops every live hour-window counter: the window numbers of
      different lengths are compared with each other. */
  lemma MinutePruneDropsHours(counters: Counters, r: Request, windowOf: string -> Window, k: (string, int))
    requires r.window == windowOf(r.key) == 60 && r.now >= 3600.0
    requires k in counters && windowOf(k.0) == 3600
    requires WindowIndex(r.now, 3600) - 1 <= k.1 <= WindowIndex(r.now, 3600)
    ensures !PruneKeepsLive(counters, MarkOf(r, windowOf))
  {
    assert r.now / 3600.0 + 3.0 <= r.now / 60.0;
    assert k.1 < MarkOf(r, windowOf).Index() - 1;
  }

  // ---------------------------------------------------------------- mixed window lengths

  /** What the in-memory limiter answers to the requests of a run, read off its table as it stands
      before each hit. */
  function MemoryAnswers(requests: seq<Request>, windowOf: string -> Window): seq<Decision> {
    var marks := MarksOf(requests, windowOf);
    seq(|requests|, i requires 0 <= i < |requests| =>
      Answer(TableCounts(Table(TableAfter(marks, i), marks[i].Index()), marks[i].key, marks[i].Index()), requests[i]))
  }

  /** Does the in-memory limiter allow the same hits of a run as the complete history does? */
  ghost predicate JudgedByHistory(requests: seq<Request>, windowOf: string -> Window) {
    forall i :: 0 <= i < |requests| ==>
      MemoryAnswers(requests, windowOf)[i].allowed == HistoryAnswers(requests, windowOf)[i].allowed
  }

  /** Keys longer than `fast` and `slow` together, one for every number. */
  function FillKey(fast: string, slow: string, j: nat): (key: string)
    ensures |key| == |fast| + |slow| + j + 1
  {
    fast + slow + seq(j + 1, _ => 'x')
  }

  /** The first `n` hits fall on as many keys. */
  ghost predicate Fills(marks: seq<Mark>, n: nat, fast: string, slow: string)
    requires n <= |marks|
  {
    forall j {:trigger marks[j]} :: 0 <= j < n ==> marks[j].key == FillKey(fast, slow, j)
  }

  lemma NewCounter(counters: Counters, key: string, index: int)
    requires (key, index) !in counters && |counters| <= MAX_TRACKED_KEYS
    ensures Counted(counters, key, index) == counters[(key, index) := 1]
    ensures |Counted(counters, key, index)| == |counters| + 1
  {
    assert counters[(key, index) := 1].Keys == counters.Keys + {(key, index)};
  }

  /** A prune for a far larger window number forgets every counter of another key. */
  lemma PruneForgets(counters: Counters, key: string, index: int, other: string, lost: int)
    requires |counters| > MAX_TRACKED_KEYS && other != key && lost < index - 1
    ensures CountOf(Counted(counters, key, index), other, lost) == 0
  {}

  /** A table that has not been pruned yet holds one counter for each of them. */
  lemma {:induction false} FilledTable(marks: seq<Mark>, n: nat, fast: string, slow: string)
    requires n <= |marks| && n <= MAX_TRACKED_KEYS && Fills(marks, n, fast, slow)
    ensures |TableAfter(marks, n)| == n
    ensures forall k <- TableAfter(marks, n) :: |fast| + |slow| < |k.0| <= |fast| + |slow| + n
  {
    if n > 0 {
      FilledTable(marks, n - 1, fast, slow);
      var m := marks[n - 1];
      assert |m.key| == |fast| + |slow| + n;
      NewCounter(TableAfter(marks, n - 1), m.key, m.Index());
    }
  }

  lemma {:induction false} NoHitsYet(marks: seq<Mark>, n: nat, fast: string, slow: string, index: int)
    requires n <= |marks| && Fills(marks, n, fast, slow)
    ensures HitsIn(marks, n, slow, index) == 0
  {
    if n > 0 {
      NoHitsYet(marks, n - 1, fast, slow, index);
      assert |marks[n - 1].key| > |slow|;
    }
  }

  /** A full table, a hit on `slow` in window `y`, a hit on `fast` whose window number `x` is
      larger by more than one, and `slow` again: its first hit is forgotten. */
  ghost predicate Overruns(marks: seq<Mark>, fast: string, slow: string, x: int, y: int) {
    var n := MAX_TRACKED_KEYS;
    && |marks| == n + 3 && fast != slow && y < x - 1
    && Fills(marks, n, fast, slow)
    && marks[n].key == slow && marks[n].Index() == y
    && marks[n + 1].key == fast && marks[n + 1].Index() == x
    && marks[n + 2].key == slow && marks[n + 2].Index() == y
  }

  lemma FirstHitIsForgotten(marks: seq<Mark>, fast: string, slow: string, x: int, y: int)
    requires Overruns(marks, fast, slow, x, y)
    ensures CountOf(TableAfter(marks, MAX_TRACKED_KEYS + 2), slow, y) == 0
    ensures CountOf(TableAfter(marks, MAX_TRACKED_KEYS + 2), slow, y - 1) == 0
  {
    var n := MAX_TRACKED_KEYS;
    FilledTable(marks, n, fast, slow);
    NewCounter(TableAfter(marks, n), slow, y);
    var full := TableAfter(marks, n + 1);
    assert |full| > MAX_TRACKED_KEYS;
    PruneForgets(full, fast, x, slow, y);
    PruneForgets(full, fast, x, slow, y - 1);
    assert TableAfter(marks, n + 2) == Counted(full, fast, x);
  }

  lemma HistoryRemembers(marks: seq<Mark>, fast: string, slow: string, x: int, y: int)
    requires Overruns(marks, fast, slow, x, y)
    ensures HistoryCounts(marks, MAX_TRACKED_KEYS + 2) == Counts(2, 0)
  {
    var n := MAX_TRACKED_KEYS;
    NoHitsYet(marks, n, fast, slow, y);
    NoHitsYet(marks, n, fast, slow, y - 1);
    assert HitsIn(marks, n + 1, slow, y) == 1 && HitsIn(marks, n + 1, slow, y - 1) == 0;
    assert HitsIn(marks, n + 2, slow, y) == 1 && HitsIn(marks, n + 2, slow, y - 1) == 0;
  }

  lemma UncountedStaysUncounted(counters: Counters, key: string, index: int)
    requires CountOf(counters, key, index) == 0 && CountOf(counters, key, index - 1) == 0
    ensures TableCounts(Table(counters, index), key, index) == Counts(1, 0)
  {}

  lemma OverrunIsMisjudged(marks: seq<Mark>, fast: string, slow: string, x: int, y: int, last: Request)
    requires Overruns(marks, fast, slow, x, y) && last.limit == 1
    ensures Answer(TableCounts(Table(TableAfter(marks, MAX_TRACKED_KEYS + 2), y), slow, y), last).allowed
    ensures !Answer(HistoryCounts(marks, MAX_TRACKED_KEYS + 2), last).allowed
  {
    FirstHitIsForgotten(marks, fast, slow, x, y);
    UncountedStaysUncounted(TableAfter(marks, MAX_TRACKED_KEYS + 2), slow, y);
    HistoryRemembers(marks, fast, slow, x, y);
    RefusedBetween(Counts(1, 0), last);
    RefusedBetween(Counts(2, 0), last);
  }

  /** At one instant, and all with limit 1: hits on 50,000 keys, then on `slow`, `fast` and `slow`. */
  function MixedRun(windowOf: string -> Window, fast: string, slow: string, now: real): (r: seq<Request>)
    ensures |r| == 50_003
  {
    seq(MAX_TRACKED_KEYS, j requires 0 <= j < MAX_TRACKED_KEYS =>
      Request(FillKey(fast, slow, j), 1, windowOf(FillKey(fast, slow, j)), now))
    + [Request(slow, 1, windowOf(slow), now), Request(fast, 1, windowOf(fast), now),
       Request(slow, 1, windowOf(slow), now)]
  }

  lemma MixedRunOverruns(windowOf: string -> Window, fast: string, slow: string, now: real)
    requires WindowIndex(now, windowOf(slow)) < WindowIndex(now, windowOf(fast)) - 1
    ensures Overruns(MarksOf(MixedRun(windowOf, fast, slow, now), windowOf), fast, slow,
                     WindowIndex(now, windowOf(fast)), WindowIndex(now, windowOf(slow)))
  {
    var run := MixedRun(windowOf, fast, slow, now);
    var marks := MarksOf(run, windowOf);
    forall j {:trigger marks[j]} | 0 <= j < MAX_TRACKED_KEYS ensures marks[j].key == FillKey(fast, slow, j) {
      assert run[j].key == FillKey(fast, slow, j);
    }
  }

  /** Two window lengths are enough: at any instant at which their window numbers are far enough
      apart there is a run from the empty limiter whose last hit is allowed by the pruned limiter
      and refused by one that never forgets. */
  lemma MixedWindowsMisjudge(windowOf: string -> Window, fast: string, slow: string, now: real)
    requires WindowIndex(now, windowOf(slow)) < WindowIndex(now, windowOf(fast)) - 1
    ensures WellTimed(MixedRun(windowOf, fast, slow, now), windowOf)
    ensures MemoryAnswers(MixedRun(windowOf, fast, slow, now), windowOf)[50_002].allowed
    ensures !HistoryAnswers(MixedRun(windowOf, fast, slow, now), windowOf)[50_002].allowed
  {
    var run := MixedRun(windowOf, fast, slow, now);
    MixedRunOverruns(windowOf, fast, slow, now);
    OverrunIsMisjudged(MarksOf(run, windowOf), fast, slow, WindowIndex(now, windowOf(fast)),
                       WindowIndex(now, windowOf(slow)), run[50_002]);
  }

  lemma StartOfWindow(index: int, window: Window)
    ensures WindowIndex((index * window) as real, window) == index
  {
    assert ((index + 1) * window) as real == (index + 1) as real * window as real;
    WindowIndexOf((index * window) as real, window, index);
  }

  /** Different lengths come far enough apart. */
  lemma NumbersComeApart(a: Window, b: Window) returns (now: real)
    requires a < b
    ensures WindowIndex(now, b) < WindowIndex(now, a) - 1
  {
    now := (2 * a * b) as real;
    StartOfWindow(2 * a, b);
    StartOfWindow(2 * b, a);
    assert 2 * a * b == 2 * b * a;
  }

  /** With the window lengths of the login and the invitation limits, at any instant later than an
      hour after the epoch: a minute-window hit makes the limiter forget an hour-window hit of the
      same instant, and allow one too many. */
  lemma HourlyCountersAreForgotten(windowOf: string -> Window, minute: string, hour: string, now: real)
    requires windowOf(minute) == 60 && windowOf(hour) == 3600 && now >= 3600.0
    ensures WellTimed(MixedRun(windowOf, minute, hour, now), windowOf)
    ensures var last := MixedRun(windowOf, minute, hour, now)[50_002];
            last.key == hour && last.limit == 1
    ensures MemoryAnswers(MixedRun(windowOf, minute, hour, now), windowOf)[50_002].allowed
    ensures !HistoryAnswers(MixedRun(windowOf, minute, hour, now), windowOf)[50_002].allowed
  {
    assert now / 3600.0 + 3.0 <= now / 60.0;
    MixedWindowsMisjudge(windowOf, minute, hour, now);
  }

  /** With one window length the in-memory limiter gives the very answers of the complete history. */
  lemma MemoryAgrees(requests: seq<Request>, windowOf: string -> Window)
    requires WellTimed(requests, windowOf) && forall key, key' :: windowOf(key) == windowOf(key')
    ensures MemoryAnswers(requests, windowOf) == HistoryAnswers(requests, windowOf)
  {
    forall i | 0 <= i < |requests|
      ensures MemoryAnswers(requests, windowOf)[i] == HistoryAnswers(requests, windowOf)[i]
    {
      OneWindowRefinesHistory(requests, windowOf, i);
    }
  }

  /** The exact condition: the in-memory limiter allows the hits of every well-timed run that the
      limiter that never forgets allows exactly when all keys share one window length. */
  lemma OneWindowIff(windowOf: string -> Window)
    ensures (forall requests {:trigger JudgedByHistory(requests, windowOf)} ::
               WellTimed(requests, windowOf) ==> JudgedByHistory(requests, windowOf))
       <==> (forall key, key' :: windowOf(key) == windowOf(key'))
  {
    if forall key, key' :: windowOf(key) == windowOf(key') {
      forall requests | WellTimed(requests, windowOf) ensures JudgedByHistory(requests, windowOf) {
        MemoryAgrees(requests, windowOf);
      }
    } else {
      var fast, slow :| windowOf(fast) < windowOf(slow);
      var now := NumbersComeApart(windowOf(fast), windowOf(slow));
      MixedWindowsMisjudge(windowOf, fast, slow, now);
      assert !JudgedByHistory(MixedRun(windowOf, fast, slow, now), windowOf);
    }
  }

  // ---------------------------------------------------------------- Redis limiter

  datatype Entry = Entry(count: int, expiresAt: real)
  type Keyspace = map<(string, int), Entry>

  function VisibleCount(store: Keyspace, key: string, index: int, now: real): int {
    if (key, index) in store && now < store[(key, index)].expiresAt then store[(key, index)].count else 0
  }

  /** INCR, then EXPIRE with NX: an existing time to live is kept. */
  function Increment(store: Keyspace, key: string, index: int, window: Window, now: real): Keyspace {
    var k := (key, index);
    if k in store && now < store[k].expiresAt
    then store[k := store[k].(count := store[k].count + 1)]
    else store[k := Entry(1, now + (2 * window + 1) as real)]
  }

  function StoreCounts(store: Keyspace, key: string, index: int, now: real): Counts {
    Counts(VisibleCount(store, key, index, now) + 1, VisibleCount(store, key, index - 1, now))
  }

  class RedisRateLimiter {
    var store: Keyspace

    constructor ()
      ensures store == map[]
    {
      store := map[];
    }

    /** `outage` says whether the Redis call failed; the limiter then fails open. */
    method Hit(key: string, limit: int, window: Window, now: real, outage: bool) returns (decision: Decision)
      modifies this
      ensures outage ==> store == old(store) && decision == Decision(true, limit, 0)
      ensures !outage ==> store == Increment(old(store), key, WindowIndex(now, window), window, now)
      ensures !outage ==>
        decision == Answer(StoreCounts(old(store), key, WindowIndex(now, window), now),
                           Request(key, limit, window, now))
    {
      if outage {
        return Decision(true, limit, 0);
      }
      var index := WindowIndex(now, window);
      var k := (key, index);
      var count := 1;
      if k in store && now < store[k].expiresAt {
        count := store[k].count + 1;
        store := store[k := store[k].(count := count)];
      } else {
        store := store[k := Entry(count, now + (2 * window + 1) as real)];
      }
      var previous := VisibleCount(store, key, index - 1, now);
      decision := Decide(SlidingEstimate(Counts(count, previous), Elapsed(now, window)), limit, now, window);
    }
  }

  /** The keyspace after the first `n` hits of a run that starts empty. */
  function StoreAfter(marks: seq<Mark>, n: nat): Keyspace
    requires n <= |marks|
  {
    if n == 0 then map[]
    else var m := marks[n - 1]; Increment(StoreAfter(marks, n - 1), m.key, m.Index(), m.window, m.now)
  }

  /** If the window of `m` is still read at `later`, a counter made by `m` has not expired. */
  ghost predicate InTime(m: Mark, later: Mark) {
    later.current(m.key) - 1 <= m.Index() ==> later.now < m.now + (2 * m.window + 1) as real
  }

  ghost predicate Timely(marks: seq<Mark>) {
    forall i, j {:trigger InTime(marks[i], marks[j])} :: 0 <= i <= j < |marks| ==> InTime(marks[i], marks[j])
  }

  lemma NotReadAfterExpiry(t: real, u: real, window: Window)
    requires WindowIndex(u, window) - 1 <= WindowIndex(t, window)
    ensures u < t + (2 * window + 1) as real
  {
    WindowIndexBounds(t, window);
    WindowIndexBounds(u, window);
    ScaleLess(window as real, WindowIndex(u, window) as real + 1.0, WindowIndex(t, window) as real + 2.0);
  }

  lemma MarksAreTimely(requests: seq<Request>, windowOf: string -> Window)
    requires WellTimed(requests, windowOf)
    ensures Timely(MarksOf(requests, windowOf))
  {
    var marks := MarksOf(requests, windowOf);
    forall i, j | 0 <= i <= j < |marks| ensures InTime(marks[i], marks[j]) {
      if marks[j].current(marks[i].key) - 1 <= marks[i].Index() {
        NotReadAfterExpiry(requests[i].now, requests[j].now, requests[i].window);
      }
    }
  }

  /** The counter `k` was created by some hit of its window and expires as that hit said. */
  ghost predicate CreatedBy(marks: seq<Mark>, i: nat, k: (string, int), entry: Entry)
    requires i < |marks|
  {
    && marks[i].key == k.0 && marks[i].Index() == k.1
    && entry.expiresAt == marks[i].now + (2 * marks[i].window + 1) as real
  }

  lemma {:induction false} EveryCounterHasACreator(marks: seq<Mark>, n: nat, k: (string, int))
    requires n <= |marks| && k in StoreAfter(marks, n)
    ensures exists i :: 0 <= i < n && CreatedBy(marks, i, k, StoreAfter(marks, n)[k])
  {
    if n > 0 {
      var before := StoreAfter(marks, n - 1);
      if k in before {
        EveryCounterHasACreator(marks, n - 1, k);
        var i :| 0 <= i < n - 1 && CreatedBy(marks, i, k, before[k]);
        if before[k].expiresAt == StoreAfter(marks, n)[k].expiresAt {
          assert CreatedBy(marks, i, k, StoreAfter(marks, n)[k]);
        } else {
          assert CreatedBy(marks, n - 1, k, StoreAfter(marks, n)[k]);
        }
      } else {
        assert CreatedBy(marks, n - 1, k, StoreAfter(marks, n)[k]);
      }
    }
  }

  /** A counter that hit `j` may read has not expired by then. */
  lemma StillVisible(marks: seq<Mark>, n: nat, j: nat, k: (string, int))
    requires n <= j < |marks| && Timely(marks)
    requires k in StoreAfter(marks, n) && marks[j].current(k.0) - 1 <= k.1
    ensures marks[j].now < StoreAfter(marks, n)[k].expiresAt
  {
    EveryCounterHasACreator(marks, n, k);
    var i :| 0 <= i < n && CreatedBy(marks, i, k, StoreAfter(marks, n)[k]);
    assert InTime(marks[i], marks[j]);
  }

  /** One increment read back later, while neither entry has expired. */
  lemma IncrementReadBack(store: Keyspace, m: Mark, key: string, index: int, later: real)
    requires (key, index) in store ==> m.now < store[(key, index)].expiresAt
    requires var after := Increment(store, m.key, m.Index(), m.window, m.now);
             (key, index) in after ==> later < after[(key, index)].expiresAt
    ensures VisibleCount(Increment(store, m.key, m.Index(), m.window, m.now), key, index, later)
         == VisibleCount(store, key, index, m.now) + (if key == m.key && index == m.Index() then 1 else 0)
  {}

  lemma {:induction false} StoreAgreesWithHistory(marks: seq<Mark>, n: nat, j: nat, key: string, index: int)
    requires n <= j < |marks| && Ordered(marks) && Timely(marks)
    requires marks[j].current(key) - 1 <= index
    ensures VisibleCount(StoreAfter(marks, n), key, index, marks[j].now) == HitsIn(marks, n, key, index)
  {
    if n > 0 {
      assert n - 1 < j ==> NotAfter(marks[n - 1], marks[j]);
      StoreAgreesWithHistory(marks, n - 1, n - 1, key, index);
      if (key, index) in StoreAfter(marks, n) {
        StillVisible(marks, n, j, (key, index));
      }
      if (key, index) in StoreAfter(marks, n - 1) {
        StillVisible(marks, n - 1, n - 1, (key, index));
      }
      IncrementReadBack(StoreAfter(marks, n - 1), marks[n - 1], key, index, marks[j].now);
    }
  }

  lemma TrueReadsGiveTrueCounts(store: Keyspace, marks: seq<Mark>, i: nat)
    requires i < |marks|
    requires forall index :: marks[i].Index() - 1 <= index ==>
      VisibleCount(store, marks[i].key, index, marks[i].now) == HitsIn(marks, i, marks[i].key, index)
    ensures StoreCounts(store, marks[i].key, marks[i].Index(), marks[i].now) == HistoryCounts(marks, i)
  {}

  /** Expiry never drops a counter that is still to be read: every hit that reaches Redis reads
      the true counts, so it is decided as by the limiter that never forgets. */
  lemma ExpiringRefinesHistory(requests: seq<Request>, windowOf: string -> Window, i: nat)
    requires i < |requests| && WellTimed(requests, windowOf)
    ensures var marks := MarksOf(requests, windowOf);
            StoreCounts(StoreAfter(marks, i), marks[i].key, marks[i].Index(), marks[i].now) == HistoryCounts(marks, i)
  {
    MarksAreOrdered(requests, windowOf);
    MarksAreTimely(requests, windowOf);
    var marks := MarksOf(requests, windowOf);
    var store, m := StoreAfter(marks, i), marks[i];
    forall index | m.Index() - 1 <= index
      ensures VisibleCount(store, m.key, index, m.now) == HitsIn(marks, i, m.key, index)
    {
      StoreAgreesWithHistory(marks, i, i, m.key, index);
    }
    TrueReadsGiveTrueCounts(store, marks, i);
  }

  /** What the Redis limiter answers to the requests of a run that all reach it. */
  function RedisAnswers(requests: seq<Request>, windowOf: string -> Window): seq<Decision> {
    var marks := MarksOf(requests, windowOf);
    seq(|requests|, i requires 0 <= i < |requests| =>
      Answer(StoreCounts(StoreAfter(marks, i), marks[i].key, marks[i].Index(), marks[i].now), requests[i]))
  }

  /** The Redis limiter gives the very answers of the complete history, whatever the windows. */
  lemma RedisAgrees(requests: seq<Request>, windowOf: string -> Window)
    requires WellTimed(requests, windowOf)
    ensures RedisAnswers(requests, windowOf) == HistoryAnswers(requests, windowOf)
  {
    forall i | 0 <= i < |requests|
      ensures RedisAnswers(requests, windowOf)[i] == HistoryAnswers(requests, windowOf)[i]
    {
      ExpiringRefinesHistory(requests, windowOf, i);
    }
  }

  /** A counter lives for two windows and a second from its first hit on, and no longer, however
      often it is hit meanwhile. */
  lemma CounterLifetime(store: Keyspace, key: string, index: int, window: Window, first: real, again: real, t: real)
    requires VisibleCount(store, key, index, first) == 0
      && ((key, index) in store ==> first >= store[(key, index)].expiresAt)
    requires first <= again < first + 2.0 * window as real + 1.0
    ensures var twice := Increment(Increment(store, key, index, window, first), key, index, window, again);
            VisibleCount(twice, key, index, t) == if t < first + 2.0 * window as real + 1.0 then 2 else 0
  {}

  /** The burst bound for the answers that the limiters return: that of Redis in every run, that in
      memory when all keys share one window length. */
  lemma LimitersBoundBursts(requests: seq<Request>, windowOf: string -> Window, answers: seq<Decision>, key: string,
                            limit: nat, lo: real, f: real)
    requires || answers == RedisAnswers(requests, windowOf)
             || (answers == MemoryAnswers(requests, windowOf) && forall k, k' :: windowOf(k) == windowOf(k'))
    requires WellTimed(requests, windowOf)
    requires forall i :: 0 <= i < |requests| && requests[i].key == key ==> requests[i].limit == limit
    requires f == Elapsed(lo, windowOf(key))
    ensures AllowedInInterval(requests, answers, |requests|, key, lo, windowOf(key)) as real
         <= limit as real * (1.0 + f)
    ensures limit > 0 ==> AllowedInInterval(requests, answers, |requests|, key, lo, windowOf(key)) < 2 * limit
  {
    if answers == RedisAnswers(requests, windowOf) {
      RedisAgrees(requests, windowOf);
    } else {
      MemoryAgrees(requests, windowOf);
    }
    HistoryAnswersByHistory(requests, windowOf);
    IntervalBurstBound(requests, windowOf, answers, key, limit, lo, f);
  }
}
