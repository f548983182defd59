/** Road risks of a tenant: recent harsh events grouped by greedy clustering around first
    points, and the rebuild that replaces the tenant's cluster rows. Instants are whole
    microseconds. */
module RoadRisk {
  import opened Geography
  import opened Options
  import opened SafetyEngine

  const CLUSTER_RADIUS_KM := 0.15
  const MIN_CLUSTER_SIZE := 3
  const LOOKBACK := 30 * 24 * 3600 * 1_000_000
  const EVENT_CLUSTER := "event_cluster"

  datatype Point = Point(position: Position, severity: string, occurredAt: int)

  type Cluster = c: seq<Point> | c != [] witness [Point(Position(0.0, 0.0), "", 0)]

  // ---------------------------------------------------------------- clustering

  predicate Close(metric: Metric, p: Point, c: Cluster) {
    metric(p.position, c[0].position) <= CLUSTER_RADIUS_KM
  }

  /** The first of the clusters from `k` on whose first point is close. */
  function FirstClose(metric: Metric, clusters: seq<Cluster>, p: Point, k: nat): (r: Option<nat>)
    requires k <= |clusters|
    ensures r.Some? ==> k <= r.value < |clusters| && Close(metric, p, clusters[r.value])
    ensures forall i :: k <= i < (if r.Some? then r.value else |clusters|) ==> !Close(metric, p, clusters[i])
    decreases |clusters| - k
  {
    if k == |clusters| then None
    else if Close(metric, p, clusters[k]) then Some(k)
    else FirstClose(metric, clusters, p, k + 1)
  }

  function Placed(metric: Metric, clusters: seq<Cluster>, p: Point): seq<Cluster> {
    var home := FirstClose(metric, clusters, p, 0);
    if home.Some? then clusters[home.value := clusters[home.value] + [p]] else clusters + [[p]]
  }

  /** The clusters of the first `n` points. */
  function Clusters(metric: Metric, points: seq<Point>, n: nat): seq<Cluster>
    requires n <= |points|
  {
    if n == 0 then [] else Placed(metric, Clusters(metric, points, n - 1), points[n - 1])
  }

  method FindClusters(metric: Metric, points: seq<Point>) returns (clusters: seq<Cluster>)
    ensures clusters == Clusters(metric, points, |points|)
  {
    clusters := [];
    for i := 0 to |points|
      invariant clusters == Clusters(metric, points, i)
    {
      var point, placed, k := points[i], false, 0;
      ghost var before := clusters;
      while k < |clusters| && !placed
        invariant k <= |before|
        invariant !placed ==>
          clusters == before && FirstClose(metric, before, point, 0) == FirstClose(metric, before, point, k)
        invariant placed ==> clusters == Placed(metric, before, point)
        decreases |clusters| - k, !placed
      {
        if metric(point.position, clusters[k][0].position) <= CLUSTER_RADIUS_KM {
          clusters := clusters[k := clusters[k] + [point]];
          placed := true;
        } else {
          k := k + 1;
        }
      }
      if !placed {
        clusters := clusters + [[point]];
      }
    }
  }

  /** Points lie within the radius of their cluster's first point, and outside the radius of
      the first point of every earlier cluster. */
  ghost predicate FirstFit(metric: Metric, clusters: seq<Cluster>) {
    && (forall k, m :: 0 <= k < |clusters| && 0 < m < |clusters[k]| ==> Close(metric, clusters[k][m], clusters[k]))
    && (forall i, k, m :: 0 <= i < k < |clusters| && 0 <= m < |clusters[k]| ==>
        !Close(metric, clusters[k][m], clusters[i]))
  }

  /** How often a point occurs among the first `n`. */
  function Occurrences(points: seq<Point>, n: nat, q: Point): nat
    requires n <= |points|
  {
    if n == 0 then 0 else Occurrences(points, n - 1, q) + (if points[n - 1] == q then 1 else 0)
  }

  /** How often a point occurs in the first `n` clusters. */
  function Times(clusters: seq<Cluster>, n: nat, q: Point): nat
    requires n <= |clusters|
  {
    if n == 0 then 0 else Times(clusters, n - 1, q) + Occurrences(clusters[n - 1], |clusters[n - 1]|, q)
  }

  /** How many points the first `n` clusters hold. */
  function Members(clusters: seq<Cluster>, n: nat): nat
    requires n <= |clusters|
  {
    if n == 0 then 0 else Members(clusters, n - 1) + |clusters[n - 1]|
  }

  lemma {:induction false} SameClusters(clusters: seq<Cluster>, more: seq<Cluster>, n: nat, q: Point)
    requires n <= |clusters| && n <= |more| && forall k :: 0 <= k < n ==> more[k] == clusters[k]
    ensures Times(more, n, q) == Times(clusters, n, q) && Members(more, n) == Members(clusters, n)
  {
    if n > 0 { SameClusters(clusters, more, n - 1, q); }
  }

  lemma {:induction false} SamePoints(points: seq<Point>, more: seq<Point>, n: nat, q: Point)
    requires n <= |points| && n <= |more| && forall k :: 0 <= k < n ==> more[k] == points[k]
    ensures Occurrences(more, n, q) == Occurrences(points, n, q)
  {
    if n > 0 { SamePoints(points, more, n - 1, q); }
  }

  lemma {:induction false} AfterJoining(clusters: seq<Cluster>, n: nat, home: nat, p: Point, q: Point)
    requires home < |clusters| && n <= |clusters|
    ensures var after := clusters[home := clusters[home] + [p]];
            && Times(after, n, q) == Times(clusters, n, q) + (if home < n && p == q then 1 else 0)
            && Members(after, n) == Members(clusters, n) + (if home < n then 1 else 0)
  {
    if n > 0 {
      AfterJoining(clusters, n - 1, home, p, q);
      SamePoints(clusters[n - 1], clusters[n - 1] + [p], |clusters[n - 1]|, q);
    }
  }

  lemma AfterStarting(clusters: seq<Cluster>, p: Point, q: Point)
    ensures var after := clusters + [[p]];
            && Times(after, |clusters| + 1, q) == Times(clusters, |clusters|, q) + (if p == q then 1 else 0)
            && Members(after, |clusters| + 1) == Members(clusters, |clusters|) + 1
  {
    var after := clusters + [[p]];
    SameClusters(clusters, after, |clusters|, q);
    assert after[|clusters|] == [p];
    assert Occurrences([p], 1, q) == Occurrences([p], 0, q) + (if p == q then 1 else 0);
  }

  lemma AfterPlacing(metric: Metric, clusters: seq<Cluster>, p: Point, q: Point)
    ensures var after := Placed(metric, clusters, p);
            && Times(after, |after|, q) == Times(clusters, |clusters|, q) + (if p == q then 1 else 0)
            && Members(after, |after|) == Members(clusters, |clusters|) + 1
  {
    var home := FirstClose(metric, clusters, p, 0);
    if home.Some? {
      AfterJoining(clusters, |clusters|, home.value, p, q);
    } else {
      AfterStarting(clusters, p, q);
    }
  }

  lemma PlacingKeepsFirstFit(metric: Metric, clusters: seq<Cluster>, p: Point)
    requires FirstFit(metric, clusters)
    ensures FirstFit(metric, Placed(metric, clusters, p))
  {
    var home, after := FirstClose(metric, clusters, p, 0), Placed(metric, clusters, p);
    assert forall k :: 0 <= k < |clusters| ==> after[k][0] == clusters[k][0];
    forall k, m | 0 <= k < |after| && 0 < m < |after[k]| ensures Close(metric, after[k][m], after[k]) {
      if k < |clusters| && m < |clusters[k]| {
        assert after[k][m] == clusters[k][m];
        assert Close(metric, clusters[k][m], clusters[k]);
      }
    }
    forall i, k, m | 0 <= i < k < |after| && 0 <= m < |after[k]| ensures !Close(metric, after[k][m], after[i]) {
      if k < |clusters| && m < |clusters[k]| {
        assert after[k][m] == clusters[k][m];
        assert !Close(metric, clusters[k][m], clusters[i]);
      }
    }
  }

  lemma {:induction false} NoneLostNoneTwice(metric: Metric, points: seq<Point>, n: nat, q: Point)
    requires n <= |points|
    ensures var clusters := Clusters(metric, points, n);
            Times(clusters, |clusters|, q) == Occurrences(points, n, q) && Members(clusters, |clusters|) == n
  {
    if n > 0 {
      NoneLostNoneTwice(metric, points, n - 1, q);
      AfterPlacing(metric, Clusters(metric, points, n - 1), points[n - 1], q);
    }
  }

  lemma {:induction false} ClustersFirstFit(metric: Metric, points: seq<Point>, n: nat)
    requires n <= |points|
    ensures FirstFit(metric, Clusters(metric, points, n))
  {
    if n > 0 {
      ClustersFirstFit(metric, points, n - 1);
      PlacingKeepsFirstFit(metric, Clusters(metric, points, n - 1), points[n - 1]);
    }
  }

  /** Greedy clustering partitions its input: every point occurs in the clusters exactly as often
      as in the input, within 150 m of its cluster's first point and of no earlier one, so first
      points are pairwise farther apart than that. */
  lemma ClustersPartition(metric: Metric, points: seq<Point>)
    ensures var clusters := Clusters(metric, points, |points|);
            && (forall q :: Times(clusters, |clusters|, q) == Occurrences(points, |points|, q))
            && Members(clusters, |clusters|) == |points|
            && (forall k, m :: 0 <= k < |clusters| && 0 < m < |clusters[k]| ==>
                  metric(clusters[k][m].position, clusters[k][0].position) <= 0.15)
            && (forall i, k, m :: 0 <= i < k < |clusters| && 0 <= m < |clusters[k]| ==>
                  metric(clusters[k][m].position, clusters[i][0].position) > 0.15)
  {
    var clusters := Clusters(metric, points, |points|);
    forall q ensures Times(clusters, |clusters|, q) == Occurrences(points, |points|, q) {
      NoneLostNoneTwice(metric, points, |points|, q);
    }
    MembersAreThePoints(metric, points, |points|);
    ClustersFirstFit(metric, points, |points|);
    forall k, m | 0 <= k < |clusters| && 0 < m < |clusters[k]|
      ensures metric(clusters[k][m].position, clusters[k][0].position) <= 0.15
    {
      assert Close(metric, clusters[k][m], clusters[k]);
    }
    forall i, k, m | 0 <= i < k < |clusters| && 0 <= m < |clusters[k]|
      ensures metric(clusters[k][m].position, clusters[i][0].position) > 0.15
    {
      assert !Close(metric, clusters[k][m], clusters[i]);
    }
  }

  lemma MembersAreThePoints(metric: Metric, points: seq<Point>, n: nat)
    requires n <= |points|
    ensures Members(Clusters(metric, points, n), |Clusters(metric, points, n)|) == n
  {
    NoneLostNoneTwice(metric, points, n, Point(Position(0.0, 0.0), "", 0));
  }

  // ---------------------------------------------------------------- one clustering only

  /** The points of the first `n` whose first close centre is centre `k`, in input order. */
  function Homed(metric: Metric, points: seq<Point>, n: nat, clusters: seq<Cluster>, k: nat): seq<Point>
    requires n <= |points|
  {
    if n == 0 then []
    else
      var before := Homed(metric, points, n - 1, clusters, k);
      if FirstClose(metric, clusters, points[n - 1], 0) == Some(k) then before + [points[n - 1]] else before
  }

  lemma {:induction false} FirstCloseByCentres(metric: Metric, clusters: seq<Cluster>, more: seq<Cluster>, p: Point,
                                               k: nat)
    requires k <= |clusters| <= |more| && forall i :: 0 <= i < |clusters| ==> more[i][0] == clusters[i][0]
    requires FirstClose(metric, clusters, p, k).Some?
    ensures FirstClose(metric, more, p, k) == FirstClose(metric, clusters, p, k)
    decreases |clusters| - k
  {
    if k < |clusters| && !Close(metric, p, clusters[k]) { FirstCloseByCentres(metric, clusters, more, p, k + 1); }
  }

  lemma {:induction false} FirstCloseToItself(metric: Metric, clusters: seq<Cluster>, p: Point, k: nat)
    requires k <= |clusters| && FirstClose(metric, clusters, p, k).None?
    requires metric(p.position, p.position) <= CLUSTER_RADIUS_KM
    ensures FirstClose(metric, clusters + [[p]], p, k) == Some(|clusters|)
    decreases |clusters| - k
  {
    if k < |clusters| { FirstCloseToItself(metric, clusters, p, k + 1); }
  }

  /** Every point has a home among the clusters, and the clusters are the points by their homes. */
  ghost predicate AreHomes(metric: Metric, points: seq<Point>, n: nat, clusters: seq<Cluster>)
    requires n <= |points|
  {
    && (forall i :: 0 <= i < n ==> FirstClose(metric, clusters, points[i], 0).Some?)
    && (forall k :: 0 <= k < |clusters| ==> clusters[k] == Homed(metric, points, n, clusters, k))
  }

  lemma {:induction false} HomedByCentres(metric: Metric, points: seq<Point>, n: nat,
                                          clusters: seq<Cluster>, more: seq<Cluster>, k: nat)
    requires n <= |points| && |clusters| <= |more|
    requires forall i :: 0 <= i < |clusters| ==> more[i][0] == clusters[i][0]
    requires forall i :: 0 <= i < n ==> FirstClose(metric, clusters, points[i], 0).Some?
    ensures Homed(metric, points, n, more, k) == Homed(metric, points, n, clusters, k)
    ensures forall i :: 0 <= i < n ==> FirstClose(metric, more, points[i], 0).Some?
    ensures k >= |clusters| ==> Homed(metric, points, n, more, k) == []
  {
    if n > 0 {
      HomedByCentres(metric, points, n - 1, clusters, more, k);
      FirstCloseByCentres(metric, clusters, more, points[n - 1], 0);
    }
  }

  lemma PlacingHomes(metric: Metric, points: seq<Point>, n: nat, clusters: seq<Cluster>, after: seq<Cluster>)
    requires n < |points| && AreHomes(metric, points, n, clusters) && after == Placed(metric, clusters, points[n])
    requires metric(points[n].position, points[n].position) <= CLUSTER_RADIUS_KM
    ensures AreHomes(metric, points, n + 1, after)
  {
    var p := points[n];
    var home := FirstClose(metric, clusters, p, 0);
    HomedByCentres(metric, points, n, clusters, after, 0);
    if home.Some? {
      FirstCloseByCentres(metric, clusters, after, p, 0);
    } else {
      FirstCloseToItself(metric, clusters, p, 0);
    }
    forall k | 0 <= k < |after| ensures after[k] == Homed(metric, points, n + 1, after, k) {
      HomedByCentres(metric, points, n, clusters, after, k);
    }
  }

  /** When a point is close to itself, the clusters are fixed by their first points alone: each
      cluster lists, in input order, exactly the points whose first close centre is its own. */
  lemma {:induction false} ClustersAreHomes(metric: Metric, points: seq<Point>, n: nat)
    requires n <= |points|
    requires forall i :: 0 <= i < n ==> metric(points[i].position, points[i].position) <= CLUSTER_RADIUS_KM
    ensures AreHomes(metric, points, n, Clusters(metric, points, n))
  {
    if n > 0 {
      ClustersAreHomes(metric, points, n - 1);
      PlacingHomes(metric, points, n - 1, Clusters(metric, points, n - 1), Clusters(metric, points, n));
    }
  }

  // ---------------------------------------------------------------- severity

  function Rank(s: Severity): nat {
    match s
    case Low => 0
    case Medium => 1
    case High => 2
    case Critical => 3
  }

  /** The stored text of a severity; other texts name none. */
  function ParseSeverity(text: string): Option<Severity> {
    if text == "low" then Some(Low)
    else if text == "medium" then Some(Medium)
    else if text == "high" then Some(High)
    else if text == "critical" then Some(Critical)
    else None
  }

  /** `peak` is the highest severity named by the first `n` texts; Low when they name none. */
  ghost predicate IsPeak(peak: Severity, texts: seq<string>, n: nat)
    requires n <= |texts|
  {
    && (peak.Low? || exists i :: 0 <= i < n && ParseSeverity(texts[i]) == Some(peak))
    && (forall i :: 0 <= i < n && ParseSeverity(texts[i]).Some? ==> Rank(ParseSeverity(texts[i]).value) <= Rank(peak))
  }

  method PeakSeverity(texts: seq<string>) returns (peak: Severity)
    ensures IsPeak(peak, texts, |texts|)
  {
    peak := Low;
    for i := 0 to |texts|
      invariant IsPeak(peak, texts, i)
    {
      var severity := ParseSeverity(texts[i]);
      if severity.None? { continue; }
      if Rank(severity.value) > Rank(peak) {
        peak := severity.value;
      }
    }
  }

  /** What the peak is, by the names alone. */
  lemma PeakByName(peak: Severity, texts: seq<string>)
    requires IsPeak(peak, texts, |texts|)
    ensures peak.Critical? <==> "critical" in texts
    ensures peak.High? <==> "critical" !in texts && "high" in texts
    ensures peak.Medium? <==> "critical" !in texts && "high" !in texts && "medium" in texts
  {
    forall text | text in texts && ParseSeverity(text).Some?
      ensures Rank(ParseSeverity(text).value) <= Rank(peak)
    {
      var i :| 0 <= i < |texts| && texts[i] == text;
    }
  }

  /** There is one peak. */
  lemma PeakIsUnique(p: Severity, q: Severity, texts: seq<string>)
    requires IsPeak(p, texts, |texts|) && IsPeak(q, texts, |texts|)
    ensures p == q
  {
    assert Rank(p) <= Rank(q) && Rank(q) <= Rank(p);
  }

  // ---------------------------------------------------------------- rebuilding

  /** A stored safety event, as far as the clustering query reads it. */
  datatype EventRow = EventRow(organization: nat, eventType: string, reviewStatus: string, occurredAt: int,
                               latitude: Option<real>, longitude: Option<real>, severity: string)

  datatype Risk = Risk(organization: nat, source: string, center: Position, observedCount: nat, severity: Severity,
                       confidence: real, startsAt: int, lastObservedAt: int, expiresAt: int)

  predicate IsRecentHarshEvent(e: EventRow, tenant: nat, now: int) {
    && e.organization == tenant
    && (e.eventType == "harsh_braking" || e.eventType == "harsh_cornering")
    && e.reviewStatus != "rejected"
    && e.occurredAt >= now - LOOKBACK
    && e.latitude.Some? && e.longitude.Some?
  }

  /** The points of the recent harsh events among the first `n` rows. */
  function PointsOf(events: seq<EventRow>, n: nat, tenant: nat, now: int): seq<Point>
    requires n <= |events|
  {
    if n == 0 then []
    else
      var before, e := PointsOf(events, n - 1, tenant, now), events[n - 1];
      if IsRecentHarshEvent(e, tenant, now)
      then before + [Point(Position(e.latitude.value, e.longitude.value), e.severity, e.occurredAt)]
      else before
  }

  predicate IsClusterRisk(r: Risk, tenant: nat) {
    r.organization == tenant && r.source == EVENT_CLUSTER
  }

  /** The rows that are not cluster risks of the tenant. */
  function Others(risks: seq<Risk>, tenant: nat): seq<Risk> {
    if risks == [] then []
    else
      var before, r := Others(risks[..|risks| - 1], tenant), risks[|risks| - 1];
      if IsClusterRisk(r, tenant) then before else before + [r]
  }

  function Latitudes(c: seq<Point>, n: nat): real
    requires n <= |c|
  {
    if n == 0 then 0.0 else Latitudes(c, n - 1) + c[n - 1].position.latitude
  }

  function Longitudes(c: seq<Point>, n: nat): real
    requires n <= |c|
  {
    if n == 0 then 0.0 else Longitudes(c, n - 1) + c[n - 1].position.longitude
  }

  /** What a cluster says of itself: its size, peak severity, first and last instant and mean position. */
  ghost predicate Summarizes(r: Risk, c: Cluster, tenant: nat, now: int) {
    && IsClusterRisk(r, tenant)
    && r.observedCount == |c| && r.expiresAt == now + 30 * 24 * 3600 * 1_000_000
    && IsPeak(r.severity, seq(|c|, i requires 0 <= i < |c| => c[i].severity), |c|)
    && (forall p :: p in c ==> r.startsAt <= p.occurredAt <= r.lastObservedAt)
    && (exists p :: p in c && p.occurredAt == r.startsAt)
    && (exists p :: p in c && p.occurredAt == r.lastObservedAt)
    && r.center == Position(Latitudes(c, |c|) / |c| as real, Longitudes(c, |c|) / |c| as real)
    && r.confidence == (if |c| >= 6 then 1.0 else 0.4 + 0.1 * |c| as real)
  }

  method Summary(c: Cluster, tenant: nat, now: int) returns (r: Risk)
    ensures Summarizes(r, c, tenant, now)
  {
    var latitude, longitude := 0.0, 0.0;
    var first, last := c[0].occurredAt, c[0].occurredAt;
    for i := 0 to |c|
      invariant latitude == Latitudes(c, i) && longitude == Longitudes(c, i)
      invariant forall j :: 0 <= j < i ==> first <= c[j].occurredAt <= last
      invariant (exists p :: p in c && p.occurredAt == first) && (exists p :: p in c && p.occurredAt == last)
    {
      latitude, longitude := latitude + c[i].position.latitude, longitude + c[i].position.longitude;
      if c[i].occurredAt < first { first := c[i].occurredAt; }
      if c[i].occurredAt > last { last := c[i].occurredAt; }
    }
    var peak := PeakSeverity(seq(|c|, i requires 0 <= i < |c| => c[i].severity));
    var n := |c| as real;
    var confidence := 0.4 + 0.1 * n;
    if confidence > 1.0 { confidence := 1.0; }
    r := Risk(tenant, EVENT_CLUSTER, Position(latitude / n, longitude / n), |c|, peak, confidence, first, last,
              now + LOOKBACK);
  }

  /** The clusters of the first `n` that are large enough to raise a risk. */
  function Raising(clusters: seq<Cluster>, n: nat): (r: seq<Cluster>)
    requires n <= |clusters|
    ensures |r| <= n
  {
    if n == 0 then []
    else
      var before := Raising(clusters, n - 1);
      if |clusters[n - 1]| < MIN_CLUSTER_SIZE then before else before + [clusters[n - 1]]
  }

  ghost predicate AllSummarized(rows: seq<Risk>, clusters: seq<Cluster>, tenant: nat, now: int) {
    |rows| == |clusters| && forall k :: 0 <= k < |rows| ==> Summarizes(rows[k], clusters[k], tenant, now)
  }

  /** `after` is what a rebuild leaves when it finds `before`: the other rows, then one row for
      every cluster of at least three of the tenant's recent harsh events. */
  ghost predicate RebuiltFrom(metric: Metric, events: seq<EventRow>, before: seq<Risk>, after: seq<Risk>, tenant: nat,
                              now: int)
  {
    var points := PointsOf(events, |events|, tenant, now);
    var clusters := Clusters(metric, points, |points|);
    var kept := Others(before, tenant);
    && |kept| <= |after| && after[..|kept|] == kept
    && AllSummarized(after[|kept|..], Raising(clusters, |clusters|), tenant, now)
  }

  class RoadRiskService {
    const metric: Metric
    var events: seq<EventRow>
    var risks: seq<Risk>

    constructor (metric: Metric, events: seq<EventRow>, risks: seq<Risk>)
      ensures this.metric == metric && this.events == events && this.risks == risks
    {
      this.metric, this.events, this.risks := metric, events, risks;
    }

    method RebuildForTenant(tenant: nat, now: int) returns (written: nat)
      modifies this`risks
      ensures RebuiltFrom(metric, events, old(risks), risks, tenant, now)
      ensures written == |risks| - |Others(old(risks), tenant)|
    {
      var points := PointsOf(events, |events|, tenant, now);
      var clusters := FindClusters(metric, points);
      ghost var kept := Others(risks, tenant);
      risks := Others(risks, tenant);
      written := 0;
      for k := 0 to |clusters|
        invariant written == |Raising(clusters, k)|
        invariant |risks| == |kept| + written && risks[..|kept|] == kept
        invariant AllSummarized(risks[|kept|..], Raising(clusters, k), tenant, now)
      {
        if |clusters[k]| < MIN_CLUSTER_SIZE { continue; }
        var r := Summary(clusters[k], tenant, now);
        ghost var before := risks[|kept|..];
        risks := risks + [r];
        assert risks[|kept|..] == before + [r];
        written := written + 1;
      }
    }
  }

  lemma {:induction false} OthersOfAppended(risks: seq<Risk>, more: seq<Risk>, tenant: nat)
    requires forall k :: 0 <= k < |more| ==> IsClusterRisk(more[k], tenant)
    ensures Others(risks + more, tenant) == Others(risks, tenant)
  {
    if more == [] {
      assert risks + more == risks;
    } else {
      var n := |more| - 1;
      assert (risks + more)[..|risks + more| - 1] == risks + more[..n];
      OthersOfAppended(risks, more[..n], tenant);
    }
  }

  lemma {:induction false} OthersAreKept(risks: seq<Risk>, tenant: nat)
    ensures forall k :: 0 <= k < |Others(risks, tenant)| ==> !IsClusterRisk(Others(risks, tenant)[k], tenant)
    ensures Others(Others(risks, tenant), tenant) == Others(risks, tenant)
  {
    if risks != [] {
      OthersAreKept(risks[..|risks| - 1], tenant);
      var before, r := Others(risks[..|risks| - 1], tenant), risks[|risks| - 1];
      if !IsClusterRisk(r, tenant) { assert (before + [r])[..|before|] == before; }
    }
  }

  // ---------------------------------------------------------------- what is selected

  /** How many of the positions below `n` are wanted: where the next wanted one comes in the selection. */
  function Number(wanted: nat -> bool, n: nat): nat {
    if n == 0 then 0 else Number(wanted, n - 1) + (if wanted(n - 1) then 1 else 0)
  }

  /** The rows that are not the tenant's cluster risks. */
  function Foreign(risks: seq<Risk>, tenant: nat): nat -> bool {
    (i: nat) => i < |risks| && !(risks[i].organization == tenant && risks[i].source == "event_cluster")
  }

  /** A rebuild keeps every row that is no cluster risk of the tenant, in order, and deletes those that are. */
  lemma {:induction false} OthersAreTheRest(risks: seq<Risk>, n: nat, tenant: nat, i: nat)
    requires i < n <= |risks|
    ensures var wanted, kept := Foreign(risks, tenant), Others(risks[..n], tenant);
            && |kept| == Number(wanted, n)
            && (wanted(i) ==> Number(wanted, i) < |kept| && kept[Number(wanted, i)] == risks[i])
  {
    assert risks[..n][..n - 1] == risks[..n - 1];
    if i < n - 1 {
      OthersAreTheRest(risks, n - 1, tenant, i);
    } else if n > 1 {
      OthersAreTheRest(risks, n - 1, tenant, 0);
    }
  }

  /** Which events are clustered: the tenant's harsh brakings and cornerings of the last 30 days that were
      not rejected in review and have a position. */
  function Wanted(events: seq<EventRow>, tenant: nat, now: int): nat -> bool {
    (i: nat) =>
      && i < |events| && events[i].organization == tenant
      && events[i].eventType in ["harsh_braking", "harsh_cornering"] && events[i].reviewStatus != "rejected"
      && now - events[i].occurredAt <= 30 * 24 * 3600 * 1_000_000
      && events[i].latitude.Some? && events[i].longitude.Some?
  }

  /** They are clustered in the order they are read, each with its position, severity and instant. */
  lemma {:induction false} PointsAreTheRecentHarshEvents(events: seq<EventRow>, n: nat, tenant: nat, now: int, i: nat)
    requires i < n <= |events|
    ensures var wanted, points := Wanted(events, tenant, now), PointsOf(events, n, tenant, now);
            && |points| == Number(wanted, n)
            && (wanted(i) ==>
                  && Number(wanted, i) < |points|
                  && points[Number(wanted, i)] == Point(Position(events[i].latitude.value, events[i].longitude.value),
                                                        events[i].severity, events[i].occurredAt))
  {
    if i < n - 1 {
      PointsAreTheRecentHarshEvents(events, n - 1, tenant, now, i);
    } else if n > 1 {
      PointsAreTheRecentHarshEvents(events, n - 1, tenant, now, 0);
    }
  }

  function Large(clusters: seq<Cluster>): nat -> bool {
    (i: nat) => i < |clusters| && |clusters[i]| >= 3
  }

  /** Which clusters raise a risk: those of three points or more, in order. */
  lemma {:induction false} RaisingAreTheLarge(clusters: seq<Cluster>, n: nat, i: nat)
    requires i < n <= |clusters|
    ensures var wanted, raising := Large(clusters), Raising(clusters, n);
            && |raising| == Number(wanted, n)
            && (wanted(i) ==> Number(wanted, i) < |raising| && raising[Number(wanted, i)] == clusters[i])
  {
    if i < n - 1 {
      RaisingAreTheLarge(clusters, n - 1, i);
    } else if n > 1 {
      RaisingAreTheLarge(clusters, n - 1, 0);
    }
  }

  /** The centre of a risk lies in every box that holds the points of its cluster. */
  lemma CentreIsAmongThePoints(r: Risk, c: Cluster, tenant: nat, now: int, south: real, north: real, west: real,
                               east: real)
    requires Summarizes(r, c, tenant, now)
    requires forall p :: p in c ==> south <= p.position.latitude <= north && west <= p.position.longitude <= east
    ensures south <= r.center.latitude <= north && west <= r.center.longitude <= east
  {
    MeanLatitude(c, south, north);
    MeanLongitude(c, west, east);
  }

  lemma MeanLatitude(c: Cluster, south: real, north: real)
    requires forall p :: p in c ==> south <= p.position.latitude <= north
    ensures south <= Latitudes(c, |c|) / |c| as real <= north
  {
    LatitudesAreBetween(c, |c|, south, north);
    MeanIsBetween(Latitudes(c, |c|), |c| as real, south, north);
  }

  lemma MeanLongitude(c: Cluster, west: real, east: real)
    requires forall p :: p in c ==> west <= p.position.longitude <= east
    ensures west <= Longitudes(c, |c|) / |c| as real <= east
  {
    LongitudesAreBetween(c, |c|, west, east);
    MeanIsBetween(Longitudes(c, |c|), |c| as real, west, east);
  }

  lemma {:induction false} LatitudesAreBetween(c: seq<Point>, n: nat, south: real, north: real)
    requires n <= |c| && forall p :: p in c ==> south <= p.position.latitude <= north
    ensures n as real * south <= Latitudes(c, n) <= n as real * north
  {
    if n > 0 {
      LatitudesAreBetween(c, n - 1, south, north);
      assert c[n - 1] in c;
      OneMoreTimes(n - 1, south);
      OneMoreTimes(n - 1, north);
    }
  }

  lemma {:induction false} LongitudesAreBetween(c: seq<Point>, n: nat, west: real, east: real)
    requires n <= |c| && forall p :: p in c ==> west <= p.position.longitude <= east
    ensures n as real * west <= Longitudes(c, n) <= n as real * east
  {
    if n > 0 {
      LongitudesAreBetween(c, n - 1, west, east);
      assert c[n - 1] in c;
      OneMoreTimes(n - 1, west);
      OneMoreTimes(n - 1, east);
    }
  }

  lemma OneMoreTimes(n: nat, x: real)
    ensures (n + 1) as real * x == n as real * x + x
  {}

  lemma MeanIsBetween(sum: real, n: real, low: real, high: real)
    requires n > 0.0 && n * low <= sum <= n * high
    ensures low <= sum / n <= high
  {
    assert sum / n * n == sum;
    if sum / n < low { TimesMore(n, sum / n, low); }
    if sum / n > high { TimesMore(n, high, sum / n); }
  }

  lemma TimesMore(n: real, a: real, b: real)
    requires n > 0.0 && a < b
    ensures n * a < n * b
  {
    assert n * (b - a) > 0.0;
  }

  lemma SummaryIsUnique(p: Risk, q: Risk, c: Cluster, tenant: nat, now: int)
    requires Summarizes(p, c, tenant, now) && Summarizes(q, c, tenant, now)
    ensures p == q
  {
    PeakIsUnique(p.severity, q.severity, seq(|c|, i requires 0 <= i < |c| => c[i].severity));
  }

  lemma RowsAreUnique(p: seq<Risk>, q: seq<Risk>, clusters: seq<Cluster>, tenant: nat, now: int)
    requires AllSummarized(p, clusters, tenant, now) && AllSummarized(q, clusters, tenant, now)
    ensures p == q
  {
    forall k | 0 <= k < |p| ensures p[k] == q[k] {
      SummaryIsUnique(p[k], q[k], clusters[k], tenant, now);
    }
  }

  /** The rebuild keeps every other row and is idempotent: a second rebuild at the same instant
      finds nothing to change. */
  lemma RebuildIsIdempotent(metric: Metric, events: seq<EventRow>, before: seq<Risk>, once: seq<Risk>, twice: seq<Risk>,
                            tenant: nat, now: int)
    requires RebuiltFrom(metric, events, before, once, tenant, now)
    requires RebuiltFrom(metric, events, once, twice, tenant, now)
    ensures Others(once, tenant) == Others(before, tenant) && twice == once
  {
    var kept := Others(before, tenant);
    assert once == kept + once[|kept|..];
    OthersOfAppended(kept, once[|kept|..], tenant);
    OthersAreKept(before, tenant);
    assert twice == kept + twice[|kept|..];
    var points := PointsOf(events, |events|, tenant, now);
    var clusters := Clusters(metric, points, |points|);
    RowsAreUnique(once[|kept|..], twice[|kept|..], Raising(clusters, |clusters|), tenant, now);
  }

  function Observed(rows: seq<Risk>, n: nat): nat
    requires n <= |rows|
  {
    if n == 0 then 0 else Observed(rows, n - 1) + rows[n - 1].observedCount
  }

  lemma {:induction false} RaisingIsLarge(clusters: seq<Cluster>, n: nat)
    requires n <= |clusters|
    ensures forall k :: 0 <= k < |Raising(clusters, n)| ==> |Raising(clusters, n)[k]| >= MIN_CLUSTER_SIZE
  {
    if n > 0 { RaisingIsLarge(clusters, n - 1); }
  }

  lemma {:induction false} RaisingIsPartOfAll(clusters: seq<Cluster>, n: nat)
    requires n <= |clusters|
    ensures Members(Raising(clusters, n), |Raising(clusters, n)|) <= Members(clusters, n)
  {
    if n > 0 {
      RaisingIsPartOfAll(clusters, n - 1);
      SameClusters(Raising(clusters, n - 1), Raising(clusters, n), |Raising(clusters, n - 1)|, clusters[n - 1][0]);
    }
  }

  lemma {:induction false} ObservedIsMembers(rows: seq<Risk>, clusters: seq<Cluster>, n: nat, tenant: nat, now: int)
    requires AllSummarized(rows, clusters, tenant, now) && n <= |rows|
    ensures Observed(rows, n) == Members(clusters, n)
  {
    if n > 0 { ObservedIsMembers(rows, clusters, n - 1, tenant, now); }
  }

  /** No event is counted twice: the observed counts of a tenant's rebuilt risks add up to the
      points of its large clusters, at most one per recent harsh event. */
  lemma ObservationsAreDistinctEvents(metric: Metric, events: seq<EventRow>, before: seq<Risk>, after: seq<Risk>,
                                      tenant: nat, now: int)
    requires RebuiltFrom(metric, events, before, after, tenant, now)
    ensures var rows := after[|Others(before, tenant)|..];
            && (forall k :: 0 <= k < |rows| ==> rows[k].observedCount >= 3)
            && Observed(rows, |rows|) <= |PointsOf(events, |events|, tenant, now)|
  {
    var points := PointsOf(events, |events|, tenant, now);
    var clusters := Clusters(metric, points, |points|);
    var rows := after[|Others(before, tenant)|..];
    RaisingIsLarge(clusters, |clusters|);
    RaisingIsPartOfAll(clusters, |clusters|);
    ObservedIsMembers(rows, Raising(clusters, |clusters|), |rows|, tenant, now);
    ClustersPartition(metric, points);
  }
}
