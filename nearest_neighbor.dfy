/**
 * The nearest-neighbour dispatch policy
 * (phase2/policies/nearest_neighbor_policy.py): among the IDLE drivers and the
 * waiting requests, repeatedly take the closest (driver, request) pair and
 * remove both, until either side runs out.
 *
 * The scan starts from an infinite best distance and replaces the best pair
 * only on a strictly smaller distance, so every distance beats the start and
 * ties go to the first pair in driver-major order. With real distances a
 * best pair always exists while both lists are non-empty.
 */
module NearestNeighbor {
  import opened Geometry
  import opened Requests
  import opened DriverStatuses
  import opened Dispatch

  /** An IDLE driver that `prefix` has not used yet. */
  ghost predicate FreeDriver(drivers: seq<DriverView>, prefix: seq<Match>, a: nat) {
    a < |drivers| && drivers[a].status == Idle && a !in DriversOf(prefix)
  }

  /** A request that `prefix` has not used yet. */
  ghost predicate FreeRequest(requests: seq<RequestView>, prefix: seq<Match>, b: nat) {
    b < |requests| && b !in RequestsOf(prefix)
  }

  /**
   * `m` is the pair chosen after the matches in `prefix`: a free IDLE driver
   * and a free request at the smallest distance, and of the pairs at that
   * distance the first in driver-major order.
   */
  ghost predicate IsClosestRemaining(drivers: seq<DriverView>, requests: seq<RequestView>, dist: Metric,
                                     prefix: seq<Match>, m: Match) {
    FreeDriver(drivers, prefix, m.driver) && FreeRequest(requests, prefix, m.request)
    && forall a: nat, b: nat ::
         FreeDriver(drivers, prefix, a) && FreeRequest(requests, prefix, b) ==>
           PickupDistance(drivers, requests, dist, m.driver, m.request) <= PickupDistance(drivers, requests, dist, a, b)
           && (LexBefore(a, b, m.driver, m.request) ==>
                 PickupDistance(drivers, requests, dist, m.driver, m.request) < PickupDistance(drivers, requests, dist, a, b))
  }

  /**
   * What `assign` returns: as many pairs as there are IDLE drivers or
   * requests, whichever is fewer, each the closest remaining pair.
   */
  ghost predicate NearestNeighborMatching(drivers: seq<DriverView>, requests: seq<RequestView>, dist: Metric,
                                          matches: seq<Match>) {
    |matches| == Min(|IdleIndices(drivers)|, |requests|)
    && forall j :: 0 <= j < |matches| ==> IsClosestRemaining(drivers, requests, dist, matches[..j], matches[j])
  }

  /** In a strictly increasing list, positions and values are in the same order. */
  lemma IncreasingOrder(s: seq<nat>, p: int, q: int)
    requires Increasing(s) && 0 <= p < |s| && 0 <= q < |s|
    ensures s[p] < s[q] <==> p < q
    ensures s[p] == s[q] <==> p == q
  {
  }

  /** The positions in `idle` and `waiting` name drivers and requests of the lists. */
  ghost predicate InRange(drivers: seq<DriverView>, requests: seq<RequestView>, idle: seq<nat>, waiting: seq<nat>) {
    (forall p :: 0 <= p < |idle| ==> idle[p] < |drivers|)
    && (forall q :: 0 <= q < |waiting| ==> waiting[q] < |requests|)
  }

  /**
   * The state of the scan before position (i, k) of idle x waiting: once a
   * pair has been seen, (driver, request) sits at positions (bp, bq) before
   * (i, k), `best` is its distance, no pair seen so far is closer, and every
   * pair seen before it is strictly farther.
   */
  ghost predicate ScanState(drivers: seq<DriverView>, requests: seq<RequestView>, dist: Metric,
                            idle: seq<nat>, waiting: seq<nat>, i: nat, k: nat,
                            found: bool, best: real, driver: nat, request: nat, bp: nat, bq: nat)
    requires InRange(drivers, requests, idle, waiting)
  {
    (found <==> (i > 0 || k > 0))
    && (found ==> bp < |idle| && bq < |waiting| && LexBefore(bp, bq, i, k)
                  && driver == idle[bp] && request == waiting[bq]
                  && best == PickupDistance(drivers, requests, dist, driver, request))
    && forall p, q :: 0 <= p < |idle| && 0 <= q < |waiting| && LexBefore(p, q, i, k) ==>
         best <= PickupDistance(drivers, requests, dist, idle[p], waiting[q])
         && (LexBefore(p, q, bp, bq) ==> best < PickupDistance(drivers, requests, dist, idle[p], waiting[q]))
  }

  /** The inner loop of the scan: the requests in `waiting` against the driver idle[i]. */
  method ScanRequests(drivers: seq<DriverView>, requests: seq<RequestView>, dist: Metric,
                      idle: seq<nat>, waiting: seq<nat>, i: nat,
                      found0: bool, best0: real, driver0: nat, request0: nat, ghost bp0: nat, ghost bq0: nat)
    returns (found: bool, best: real, driver: nat, request: nat, ghost bp: nat, ghost bq: nat)
    requires InRange(drivers, requests, idle, waiting) && i < |idle| && |waiting| > 0
    requires ScanState(drivers, requests, dist, idle, waiting, i, 0, found0, best0, driver0, request0, bp0, bq0)
    ensures ScanState(drivers, requests, dist, idle, waiting, i + 1, 0, found, best, driver, request, bp, bq)
  {
    found, best, driver, request, bp, bq := found0, best0, driver0, request0, bp0, bq0;
    for k := 0 to |waiting|
      invariant ScanState(drivers, requests, dist, idle, waiting, i, k, found, best, driver, request, bp, bq)
    {
      var distance := PickupDistance(drivers, requests, dist, idle[i], waiting[k]);
      ScanStep(drivers, requests, dist, idle, waiting, i, k, found, best, driver, request, bp, bq);
      if !found || distance < best {
        found := true;
        best := distance;
        driver, request := idle[i], waiting[k];
        bp, bq := i, k;
      }
    }
  }

  /** One step of the inner loop: the pair at (i, k) either becomes the best pair or is not closer. */
  lemma ScanStep(drivers: seq<DriverView>, requests: seq<RequestView>, dist: Metric,
                 idle: seq<nat>, waiting: seq<nat>, i: nat, k: nat,
                 found: bool, best: real, driver: nat, request: nat, bp: nat, bq: nat)
    requires InRange(drivers, requests, idle, waiting) && i < |idle| && k < |waiting|
    requires ScanState(drivers, requests, dist, idle, waiting, i, k, found, best, driver, request, bp, bq)
    ensures var distance := PickupDistance(drivers, requests, dist, idle[i], waiting[k]);
      if !found || distance < best then
        ScanState(drivers, requests, dist, idle, waiting, i, k + 1, true, distance, idle[i], waiting[k], i, k)
      else
        ScanState(drivers, requests, dist, idle, waiting, i, k + 1, found, best, driver, request, bp, bq)
  {
  }

  /**
   * The scan of `assign`: over the drivers in `idle` and, for each, over the
   * requests in `waiting`, keep the first pair at the smallest distance.
   */
  method ClosestPair(drivers: seq<DriverView>, requests: seq<RequestView>, dist: Metric,
                     idle: seq<nat>, waiting: seq<nat>) returns (driver: nat, request: nat)
    requires |idle| > 0 && |waiting| > 0
    requires Increasing(idle) && Increasing(waiting)
    requires InRange(drivers, requests, idle, waiting)
    ensures driver in idle && request in waiting
    ensures forall a, b :: a in idle && b in waiting ==>
      PickupDistance(drivers, requests, dist, driver, request) <= PickupDistance(drivers, requests, dist, a, b)
      && (LexBefore(a, b, driver, request) ==>
            PickupDistance(drivers, requests, dist, driver, request) < PickupDistance(drivers, requests, dist, a, b))
  {
    var found := false;
    var best := 0.0;
    ghost var bp, bq := 0, 0;
    driver, request := idle[0], waiting[0];
    for i := 0 to |idle|
      invariant ScanState(drivers, requests, dist, idle, waiting, i, 0, found, best, driver, request, bp, bq)
    {
      found, best, driver, request, bp, bq :=
        ScanRequests(drivers, requests, dist, idle, waiting, i, found, best, driver, request, bp, bq);
    }
    ClosestFromScan(drivers, requests, dist, idle, waiting, best, driver, request, bp, bq);
  }

  /** The finished scan, restated over the drivers and requests instead of their positions. */
  lemma ClosestFromScan(drivers: seq<DriverView>, requests: seq<RequestView>, dist: Metric,
                        idle: seq<nat>, waiting: seq<nat>, best: real, driver: nat, request: nat, bp: nat, bq: nat)
    requires |idle| > 0 && |waiting| > 0
    requires Increasing(idle) && Increasing(waiting)
    requires InRange(drivers, requests, idle, waiting)
    requires ScanState(drivers, requests, dist, idle, waiting, |idle|, 0, true, best, driver, request, bp, bq)
    ensures driver in idle && request in waiting
    ensures forall a, b :: a in idle && b in waiting ==>
      PickupDistance(drivers, requests, dist, driver, request) <= PickupDistance(drivers, requests, dist, a, b)
      && (LexBefore(a, b, driver, request) ==>
            PickupDistance(drivers, requests, dist, driver, request) < PickupDistance(drivers, requests, dist, a, b))
  {
    forall a, b | a in idle && b in waiting
      ensures PickupDistance(drivers, requests, dist, driver, request) <= PickupDistance(drivers, requests, dist, a, b)
      ensures LexBefore(a, b, driver, request) ==>
        PickupDistance(drivers, requests, dist, driver, request) < PickupDistance(drivers, requests, dist, a, b)
    {
      var p :| 0 <= p < |idle| && idle[p] == a;
      var q :| 0 <= q < |waiting| && waiting[q] == b;
      IncreasingOrder(idle, p, bp);
      IncreasingOrder(waiting, q, bq);
    }
  }

  /** `NearestNeighborPolicy.assign(drivers, requests, time)`; the time is not used. */
  method Assign(drivers: seq<DriverView>, requests: seq<RequestView>, dist: Metric) returns (matches: seq<Match>)
    ensures NearestNeighborMatching(drivers, requests, dist, matches)
  {
    matches := [];
    var idle := IdleIndices(drivers);
    var waiting := AllIndices(|requests|);
    while |idle| > 0 && |waiting| > 0
      invariant Increasing(idle) && Increasing(waiting)
      invariant forall a: nat :: a in idle <==> FreeDriver(drivers, matches, a)
      invariant forall b: nat :: b in waiting <==> FreeRequest(requests, matches, b)
      invariant |idle| + |matches| == |IdleIndices(drivers)|
      invariant |waiting| + |matches| == |requests|
      invariant forall j :: 0 <= j < |matches| ==> IsClosestRemaining(drivers, requests, dist, matches[..j], matches[j])
      decreases |idle|
    {
      assert forall p :: 0 <= p < |idle| ==> idle[p] in idle;
      assert forall q :: 0 <= q < |waiting| ==> waiting[q] in waiting;
      assert InRange(drivers, requests, idle, waiting);
      var driver, request := ClosestPair(drivers, requests, dist, idle, waiting);
      ghost var before := matches;
      assert IsClosestRemaining(drivers, requests, dist, before, Match(driver, request));
      matches := matches + [Match(driver, request)];
      assert matches[..|before|] == before;
      assert forall j :: 0 <= j < |before| ==> matches[..j] == before[..j];
      AppendMatch(before, Match(driver, request));
      idle := RemoveValue(idle, driver);
      waiting := RemoveValue(waiting, request);
    }
  }

  // ---------------------------------------------------------------------------
  // Properties of the matching

  /** Every pair joins an IDLE driver and a request of the lists, and neither is used twice. */
  lemma NearestNeighborAtMostOnce(drivers: seq<DriverView>, requests: seq<RequestView>, dist: Metric,
                                  matches: seq<Match>)
    requires NearestNeighborMatching(drivers, requests, dist, matches)
    ensures AtMostOnce(matches, |drivers|, |requests|)
    ensures forall j :: 0 <= j < |matches| ==> drivers[matches[j].driver].status == Idle
  {
    forall j, k | 0 <= j < k < |matches|
      ensures matches[j].driver != matches[k].driver && matches[j].request != matches[k].request
    {
      assert IsClosestRemaining(drivers, requests, dist, matches[..k], matches[k]);
      assert matches[..k][j] == matches[j];
    }
  }

  /** The distances of successive pairs never decrease. */
  lemma NearestNeighborDistancesNonDecreasing(drivers: seq<DriverView>, requests: seq<RequestView>, dist: Metric,
                                              matches: seq<Match>, j: nat, k: nat)
    requires NearestNeighborMatching(drivers, requests, dist, matches)
    requires j < k < |matches|
    ensures matches[j].driver < |drivers| && matches[j].request < |requests|
    ensures matches[k].driver < |drivers| && matches[k].request < |requests|
    ensures PickupDistance(drivers, requests, dist, matches[j].driver, matches[j].request)
         <= PickupDistance(drivers, requests, dist, matches[k].driver, matches[k].request)
  {
    var mj, mk := matches[j], matches[k];
    assert IsClosestRemaining(drivers, requests, dist, matches[..j], mj);
    assert IsClosestRemaining(drivers, requests, dist, matches[..k], mk);
    assert DriversOf(matches[..j]) <= DriversOf(matches[..k]) by {
      forall x | x in DriversOf(matches[..j]) ensures x in DriversOf(matches[..k]) {
        var i :| 0 <= i < j && matches[..j][i].driver == x;
        assert matches[..k][i] == matches[..j][i];
      }
    }
    assert RequestsOf(matches[..j]) <= RequestsOf(matches[..k]) by {
      forall x | x in RequestsOf(matches[..j]) ensures x in RequestsOf(matches[..k]) {
        var i :| 0 <= i < j && matches[..j][i].request == x;
        assert matches[..k][i] == matches[..j][i];
      }
    }
    assert FreeDriver(drivers, matches[..j], mk.driver) && FreeRequest(requests, matches[..j], mk.request);
  }

  /** There is one closest remaining pair: the choice leaves no freedom. */
  lemma ClosestRemainingUnique(drivers: seq<DriverView>, requests: seq<RequestView>, dist: Metric,
                               prefix: seq<Match>, m: Match, m': Match)
    requires IsClosestRemaining(drivers, requests, dist, prefix, m)
    requires IsClosestRemaining(drivers, requests, dist, prefix, m')
    ensures m == m'
  {
  }

  /** The description pins the result down: `assign` is a function of its inputs. */
  lemma {:induction false} NearestNeighborDeterministic(drivers: seq<DriverView>, requests: seq<RequestView>,
                                                        dist: Metric, matches: seq<Match>, matches': seq<Match>)
    requires NearestNeighborMatching(drivers, requests, dist, matches)
    requires NearestNeighborMatching(drivers, requests, dist, matches')
    ensures matches == matches'
  {
    var n := |matches|;
    var j := 0;
    while j < n
      invariant j <= n && matches[..j] == matches'[..j]
    {
      ClosestAt(drivers, requests, dist, matches, j);
      ClosestAt(drivers, requests, dist, matches', j);
      SameNextPair(drivers, requests, dist, matches, matches', j);
      j := j + 1;
    }
    assert matches == matches[..n] && matches' == matches'[..n];
  }

  /** The pair at `j` is the closest remaining after the first `j`. */
  lemma ClosestAt(drivers: seq<DriverView>, requests: seq<RequestView>, dist: Metric, matches: seq<Match>, j: nat)
    requires NearestNeighborMatching(drivers, requests, dist, matches) && j < |matches|
    ensures IsClosestRemaining(drivers, requests, dist, matches[..j], matches[j])
  {
  }

  /** Two matchings that agree on their first `j` pairs agree on the next one. */
  lemma SameNextPair(drivers: seq<DriverView>, requests: seq<RequestView>, dist: Metric,
                     matches: seq<Match>, matches': seq<Match>, j: nat)
    requires j < |matches| && j < |matches'| && matches[..j] == matches'[..j]
    requires IsClosestRemaining(drivers, requests, dist, matches[..j], matches[j])
    requires IsClosestRemaining(drivers, requests, dist, matches'[..j], matches'[j])
    ensures matches[..j + 1] == matches'[..j + 1]
  {
    ClosestRemainingUnique(drivers, requests, dist, matches[..j], matches[j], matches'[j]);
    assert matches[..j + 1] == matches[..j] + [matches[j]];
    assert matches'[..j + 1] == matches'[..j] + [matches'[j]];
  }

  /**
   * Two IDLE drivers at (0,0) and (2,0), requests picked up at (1,0) and
   * (100,0): both drivers are 1 away from the first request, and the tie goes
   * to the first driver, so the pairs are (driver 0, request 0) then
   * (driver 1, request 1).
   */
  lemma NearestNeighborTieExample(dist: Metric, drivers: seq<DriverView>, requests: seq<RequestView>,
                                  matches: seq<Match>)
    requires Euclidean(dist)
    requires |drivers| == 2 && |requests| == 2
    requires drivers[0].position == Point(0.0, 0.0) && drivers[1].position == Point(2.0, 0.0)
    requires drivers[0].status == Idle && drivers[1].status == Idle
    requires requests[0].pickup == Point(1.0, 0.0) && requests[1].pickup == Point(100.0, 0.0)
    requires NearestNeighborMatching(drivers, requests, dist, matches)
    ensures matches == [Match(0, 0), Match(1, 1)]
  {
    TieExampleDistances(dist, drivers, requests);
    TieExampleFromDistances(dist, drivers, requests, matches);
  }

  lemma TieExampleDistances(dist: Metric, drivers: seq<DriverView>, requests: seq<RequestView>)
    requires Euclidean(dist)
    requires |drivers| == 2 && |requests| == 2
    requires drivers[0].position == Point(0.0, 0.0) && drivers[1].position == Point(2.0, 0.0)
    requires requests[0].pickup == Point(1.0, 0.0) && requests[1].pickup == Point(100.0, 0.0)
    ensures PickupDistance(drivers, requests, dist, 0, 0) == 1.0
    ensures PickupDistance(drivers, requests, dist, 1, 0) == 1.0
    ensures PickupDistance(drivers, requests, dist, 0, 1) == 100.0
    ensures PickupDistance(drivers, requests, dist, 1, 1) == 98.0
  {
    DistAlongAxis(dist, Point(0.0, 0.0), Point(1.0, 0.0));
    DistAlongAxis(dist, Point(2.0, 0.0), Point(1.0, 0.0));
    DistAlongAxis(dist, Point(0.0, 0.0), Point(100.0, 0.0));
    DistAlongAxis(dist, Point(2.0, 0.0), Point(100.0, 0.0));
  }

  lemma TieExampleFromDistances(dist: Metric, drivers: seq<DriverView>, requests: seq<RequestView>,
                                matches: seq<Match>)
    requires |drivers| == 2 && |requests| == 2
    requires drivers[0].status == Idle && drivers[1].status == Idle
    requires PickupDistance(drivers, requests, dist, 0, 0) == 1.0
    requires PickupDistance(drivers, requests, dist, 1, 0) == 1.0
    requires PickupDistance(drivers, requests, dist, 0, 1) == 100.0
    requires PickupDistance(drivers, requests, dist, 1, 1) == 98.0
    requires NearestNeighborMatching(drivers, requests, dist, matches)
    ensures matches == [Match(0, 0), Match(1, 1)]
  {
    assert IdleIndices(drivers) == [0, 1] by {
      assert IdleFrom(drivers, 2) == [];
      assert IdleFrom(drivers, 1) == [1];
    }
    assert |matches| == 2;
    var m0, m1 := matches[0], matches[1];
    assert matches[..0] == [] && matches[..1] == [m0];
    assert IsClosestRemaining(drivers, requests, dist, [], m0);
    assert FreeDriver(drivers, [], 0) && FreeRequest(requests, [], 0);
    assert m0 == Match(0, 0);
    assert IsClosestRemaining(drivers, requests, dist, [m0], m1);
    assert DriversOf([m0]) == {0} && RequestsOf([m0]) == {0};
    assert m1 == Match(1, 1);
    assert matches == [m0, m1];
  }
}
