/**
 * The global greedy dispatch policy
 * (phase2/policies/global_greedy_policy.py): every driver, IDLE or not,
 * against every request; the pairs sorted by (distance, driver id, request
 * id); then one sweep that takes each pair whose driver and request are both
 * still unused.
 *
 * The sort is stable and the pairs are built driver-major, so pairs with the
 * same key stay in driver-major order: the sorted list is the one ordered by
 * the key followed by the driver and request positions. The library sort is
 * modelled by its result, a permutation ordered by that extended key.
 */
module GlobalGreedy {
  import opened Geometry
  import opened Requests
  import opened DriverStatuses
  import opened Dispatch

  /** One entry of `combos`: the distance, the ids the sort looks at, and the positions of the pair. */
  datatype Combo = Combo(distance: real, driverId: int, requestId: int, driver: nat, request: nat)

  function ComboOf(drivers: seq<DriverView>, requests: seq<RequestView>, dist: Metric, a: nat, b: nat): Combo
    requires a < |drivers| && b < |requests|
  {
    Combo(PickupDistance(drivers, requests, dist, a, b), drivers[a].id, requests[b].id, a, b)
  }

  /**
   * `x` sorts before `y`: by distance, then driver id, then request id, and
   * on equal keys by driver-major position, as the stable sort leaves them.
   */
  predicate KeyBefore(x: Combo, y: Combo) {
    x.distance < y.distance
    || (x.distance == y.distance
        && (x.driverId < y.driverId
            || (x.driverId == y.driverId
                && (x.requestId < y.requestId
                    || (x.requestId == y.requestId && LexBefore(x.driver, x.request, y.driver, y.request))))))
  }

  /** The order is strict and total on entries for different pairs. */
  lemma KeyBeforeOrder(x: Combo, y: Combo, z: Combo)
    ensures !KeyBefore(x, x)
    ensures KeyBefore(x, y) && KeyBefore(y, z) ==> KeyBefore(x, z)
    ensures (x.driver, x.request) != (y.driver, y.request) ==> KeyBefore(x, y) || KeyBefore(y, x)
    ensures KeyBefore(x, y) ==> !KeyBefore(y, x)
  {
  }

  predicate SortedByKey(s: seq<Combo>) {
    forall i, j :: 0 <= i < j < |s| ==> KeyBefore(s[i], s[j])
  }

  /** No pair occurs twice. */
  predicate DistinctPairs(s: seq<Combo>) {
    forall i, j :: 0 <= i < j < |s| ==> (s[i].driver, s[i].request) != (s[j].driver, s[j].request)
  }

  /** Insert `c` into a sorted list of entries for other pairs. */
  function Insert(sorted: seq<Combo>, c: Combo): (r: seq<Combo>)
    requires SortedByKey(sorted)
    requires forall i :: 0 <= i < |sorted| ==> (sorted[i].driver, sorted[i].request) != (c.driver, c.request)
    ensures SortedByKey(r)
    ensures multiset(r) == multiset(sorted) + multiset{c}
  {
    if |sorted| == 0 then [c]
    else if KeyBefore(c, sorted[0]) then
      BeforeAll(c, sorted);
      ConsSorted(c, sorted);
      [c] + sorted
    else
      var rest := Insert(sorted[1..], c);
      KeyBeforeOrder(c, sorted[0], c);
      BeforeInserted(sorted[0], sorted[1..], c, rest);
      ConsSorted(sorted[0], rest);
      assert sorted == [sorted[0]] + sorted[1..];
      [sorted[0]] + rest
  }

  /** An entry before the head of a sorted list is before all of it. */
  lemma BeforeAll(x: Combo, s: seq<Combo>)
    requires SortedByKey(s) && |s| > 0 && KeyBefore(x, s[0])
    ensures forall i :: 0 <= i < |s| ==> KeyBefore(x, s[i])
  {
    forall i | 0 < i < |s| ensures KeyBefore(x, s[i]) {
      KeyBeforeOrder(x, s[0], s[i]);
    }
  }

  /** An entry before every entry of a sorted list can go in front of it. */
  lemma ConsSorted(x: Combo, s: seq<Combo>)
    requires SortedByKey(s)
    requires forall i :: 0 <= i < |s| ==> KeyBefore(x, s[i])
    ensures SortedByKey([x] + s)
  {
  }

  /** An entry before all of `tail` and before `c` is before all of `tail` with `c` inserted. */
  lemma BeforeInserted(h: Combo, tail: seq<Combo>, c: Combo, rest: seq<Combo>)
    requires forall i :: 0 <= i < |tail| ==> KeyBefore(h, tail[i])
    requires KeyBefore(h, c)
    requires multiset(rest) == multiset(tail) + multiset{c}
    ensures forall i :: 0 <= i < |rest| ==> KeyBefore(h, rest[i])
  {
    forall i | 0 <= i < |rest| ensures KeyBefore(h, rest[i]) {
      assert rest[i] in multiset(rest);
      if rest[i] != c {
        assert rest[i] in tail;
      }
    }
  }

  /** `combos.sort(key=...)`: the same entries, ordered by the key. */
  function SortByKey(combos: seq<Combo>): (sorted: seq<Combo>)
    requires DistinctPairs(combos)
    ensures SortedByKey(sorted)
    ensures multiset(sorted) == multiset(combos)
  {
    if |combos| == 0 then []
    else
      var n := |combos| - 1;
      assert combos == combos[..n] + [combos[n]];
      var front := SortByKey(combos[..n]);
      assert forall i :: 0 <= i < |front| ==> (front[i].driver, front[i].request) != (combos[n].driver, combos[n].request) by {
        forall i | 0 <= i < |front|
          ensures (front[i].driver, front[i].request) != (combos[n].driver, combos[n].request)
        {
          assert front[i] in multiset(combos[..n]);
          var k :| 0 <= k < n && combos[..n][k] == front[i];
        }
      }
      Insert(front, combos[n])
  }

  /**
   * `combos` holds, in driver-major order, the entry of every pair before
   * (a, b): exactly those, each computed from its pair.
   */
  ghost predicate CombosBefore(drivers: seq<DriverView>, requests: seq<RequestView>, dist: Metric,
                               combos: seq<Combo>, a: nat, b: nat) {
    (forall k :: 0 <= k < |combos| ==>
       combos[k].driver < |drivers| && combos[k].request < |requests|
       && LexBefore(combos[k].driver, combos[k].request, a, b)
       && combos[k] == ComboOf(drivers, requests, dist, combos[k].driver, combos[k].request))
    && (forall j, k :: 0 <= j < k < |combos| ==>
          LexBefore(combos[j].driver, combos[j].request, combos[k].driver, combos[k].request))
    && (forall a': nat, b': nat :: a' < |drivers| && b' < |requests| && LexBefore(a', b', a, b) ==>
          ComboOf(drivers, requests, dist, a', b') in combos)
  }

  /** The first loop of `assign`: every driver against every request. */
  method AllCombos(drivers: seq<DriverView>, requests: seq<RequestView>, dist: Metric) returns (combos: seq<Combo>)
    ensures CombosBefore(drivers, requests, dist, combos, |drivers|, 0)
  {
    combos := [];
    for a := 0 to |drivers|
      invariant CombosBefore(drivers, requests, dist, combos, a, 0)
    {
      for b := 0 to |requests|
        invariant CombosBefore(drivers, requests, dist, combos, a, b)
      {
        var c := ComboOf(drivers, requests, dist, a, b);
        assert forall k :: 0 <= k < |combos + [c]| ==> (combos + [c])[k] == if k < |combos| then combos[k] else c;
        combos := combos + [c];
      }
    }
  }

  /** The pair of `m`, as an entry of `combos`. */
  function MatchCombo(drivers: seq<DriverView>, requests: seq<RequestView>, dist: Metric, m: Match): Combo
    requires m.driver < |drivers| && m.request < |requests|
  {
    ComboOf(drivers, requests, dist, m.driver, m.request)
  }

  /**
   * `m` is the pair the sweep takes after `prefix`: its driver and request
   * are unused, and it sorts before every other pair of unused ones.
   */
  ghost predicate IsGreedyChoice(drivers: seq<DriverView>, requests: seq<RequestView>, dist: Metric,
                                 prefix: seq<Match>, m: Match) {
    m.driver < |drivers| && m.request < |requests|
    && m.driver !in DriversOf(prefix) && m.request !in RequestsOf(prefix)
    && forall a: nat, b: nat ::
         a < |drivers| && b < |requests| && a !in DriversOf(prefix) && b !in RequestsOf(prefix)
         && (a, b) != (m.driver, m.request) ==>
           KeyBefore(MatchCombo(drivers, requests, dist, m), ComboOf(drivers, requests, dist, a, b))
  }

  /**
   * What `assign` returns: each pair the greedy choice after the ones before
   * it, and no unused driver left with an unused request.
   */
  ghost predicate GreedyMatching(drivers: seq<DriverView>, requests: seq<RequestView>, dist: Metric,
                                 matches: seq<Match>) {
    (forall j :: 0 <= j < |matches| ==> IsGreedyChoice(drivers, requests, dist, matches[..j], matches[j]))
    && forall a: nat, b: nat :: a < |drivers| && b < |requests| ==>
         a in DriversOf(matches) || b in RequestsOf(matches)
  }

  /** The sweep of `assign` over the sorted entries. */
  method Sweep(drivers: seq<DriverView>, requests: seq<RequestView>, dist: Metric, sorted: seq<Combo>)
    returns (matches: seq<Match>)
    requires SortedByKey(sorted)
    requires forall k :: 0 <= k < |sorted| ==>
      sorted[k].driver < |drivers| && sorted[k].request < |requests|
      && sorted[k] == ComboOf(drivers, requests, dist, sorted[k].driver, sorted[k].request)
    requires forall a: nat, b: nat :: a < |drivers| && b < |requests| ==>
      ComboOf(drivers, requests, dist, a, b) in sorted
    ensures GreedyMatching(drivers, requests, dist, matches)
  {
    var usedDrivers: set<nat> := {};
    var usedRequests: set<nat> := {};
    matches := [];
    for i := 0 to |sorted|
      invariant usedDrivers == DriversOf(matches) && usedRequests == RequestsOf(matches)
      invariant forall k :: 0 <= k < i ==> sorted[k].driver in usedDrivers || sorted[k].request in usedRequests
      invariant forall j :: 0 <= j < |matches| ==> IsGreedyChoice(drivers, requests, dist, matches[..j], matches[j])
    {
      var c := sorted[i];
      if c.driver !in usedDrivers && c.request !in usedRequests {
        ghost var before := matches;
        var m := Match(c.driver, c.request);
        forall a: nat, b: nat | a < |drivers| && b < |requests| && a !in usedDrivers && b !in usedRequests
                                && (a, b) != (m.driver, m.request)
          ensures KeyBefore(MatchCombo(drivers, requests, dist, m), ComboOf(drivers, requests, dist, a, b))
        {
          var k :| 0 <= k < |sorted| && sorted[k] == ComboOf(drivers, requests, dist, a, b);
          assert i < k;
        }
        assert IsGreedyChoice(drivers, requests, dist, before, m);
        matches := matches + [m];
        assert matches[..|before|] == before;
        assert forall j :: 0 <= j < |before| ==> matches[..j] == before[..j];
        AppendMatch(before, m);
        usedDrivers := usedDrivers + {c.driver};
        usedRequests := usedRequests + {c.request};
      }
    }
    forall a: nat, b: nat | a < |drivers| && b < |requests|
      ensures a in DriversOf(matches) || b in RequestsOf(matches)
    {
      var k :| 0 <= k < |sorted| && sorted[k] == ComboOf(drivers, requests, dist, a, b);
    }
  }

  /** `GlobalGreedyPolicy.assign(drivers, requests, time)`; the time is not used. */
  method Assign(drivers: seq<DriverView>, requests: seq<RequestView>, dist: Metric) returns (matches: seq<Match>)
    ensures GreedyMatching(drivers, requests, dist, matches)
  {
    var combos := AllCombos(drivers, requests, dist);
    var sorted := SortByKey(combos);
    forall k | 0 <= k < |sorted|
      ensures sorted[k].driver < |drivers| && sorted[k].request < |requests|
      ensures sorted[k] == ComboOf(drivers, requests, dist, sorted[k].driver, sorted[k].request)
    {
      assert sorted[k] in multiset(combos);
    }
    forall a: nat, b: nat | a < |drivers| && b < |requests|
      ensures ComboOf(drivers, requests, dist, a, b) in sorted
    {
      assert ComboOf(drivers, requests, dist, a, b) in multiset(combos);
    }
    matches := Sweep(drivers, requests, dist, sorted);
  }

  // ---------------------------------------------------------------------------
  // Properties of the matching

  /** `prefix` uses a subset of the drivers and requests that a longer prefix uses. */
  lemma PrefixUsesLess(matches: seq<Match>, j: nat, k: nat)
    requires j <= k <= |matches|
    ensures DriversOf(matches[..j]) <= DriversOf(matches[..k])
    ensures RequestsOf(matches[..j]) <= RequestsOf(matches[..k])
  {
    assert forall i :: 0 <= i < j ==> matches[..j][i] == matches[..k][i];
  }

  /** No driver and no request is used twice, and every pair lies within the lists. */
  lemma GreedyAtMostOnce(drivers: seq<DriverView>, requests: seq<RequestView>, dist: Metric, matches: seq<Match>)
    requires GreedyMatching(drivers, requests, dist, matches)
    ensures AtMostOnce(matches, |drivers|, |requests|)
  {
    forall j, k | 0 <= j < k < |matches|
      ensures matches[j].driver != matches[k].driver && matches[j].request != matches[k].request
    {
      assert IsGreedyChoice(drivers, requests, dist, matches[..k], matches[k]);
      assert matches[..k][j] == matches[j];
    }
    forall j | 0 <= j < |matches|
      ensures matches[j].driver < |drivers| && matches[j].request < |requests|
    {
      assert IsGreedyChoice(drivers, requests, dist, matches[..j], matches[j]);
    }
  }

  /**
   * The matching is maximal, so it has as many pairs as the shorter list:
   * busy drivers count too, since the policy considers every driver.
   */
  lemma GreedySize(drivers: seq<DriverView>, requests: seq<RequestView>, dist: Metric, matches: seq<Match>)
    requires GreedyMatching(drivers, requests, dist, matches)
    ensures |matches| == Min(|drivers|, |requests|)
  {
    GreedyAtMostOnce(drivers, requests, dist, matches);
    MaximalMatchingSize(matches, |drivers|, |requests|);
  }

  /**
   * The pairs come out in key order, so their distances never decrease, and
   * the first pair sorts before every other pair of the lists.
   */
  lemma GreedyKeysIncreasing(drivers: seq<DriverView>, requests: seq<RequestView>, dist: Metric,
                             matches: seq<Match>, j: nat, k: nat)
    requires GreedyMatching(drivers, requests, dist, matches)
    requires j < k < |matches|
    ensures matches[j].driver < |drivers| && matches[j].request < |requests|
    ensures matches[k].driver < |drivers| && matches[k].request < |requests|
    ensures KeyBefore(MatchCombo(drivers, requests, dist, matches[j]), MatchCombo(drivers, requests, dist, matches[k]))
    ensures MatchCombo(drivers, requests, dist, matches[j]).distance <= MatchCombo(drivers, requests, dist, matches[k]).distance
  {
    GreedyAtMostOnce(drivers, requests, dist, matches);
    assert IsGreedyChoice(drivers, requests, dist, matches[..j], matches[j]);
    assert IsGreedyChoice(drivers, requests, dist, matches[..k], matches[k]);
    PrefixUsesLess(matches, j, k);
  }

  /** The first pair is the pair with the smallest key among all drivers and requests. */
  lemma GreedyFirstIsMinimum(drivers: seq<DriverView>, requests: seq<RequestView>, dist: Metric,
                             matches: seq<Match>, a: nat, b: nat)
    requires GreedyMatching(drivers, requests, dist, matches)
    requires a < |drivers| && b < |requests|
    ensures |matches| > 0
    ensures matches[0].driver < |drivers| && matches[0].request < |requests|
    ensures (a, b) != (matches[0].driver, matches[0].request) ==>
      KeyBefore(MatchCombo(drivers, requests, dist, matches[0]), ComboOf(drivers, requests, dist, a, b))
  {
    GreedySize(drivers, requests, dist, matches);
    assert matches[..0] == [];
    assert IsGreedyChoice(drivers, requests, dist, [], matches[0]);
  }

  /** There is one greedy choice after a given prefix. */
  lemma GreedyChoiceUnique(drivers: seq<DriverView>, requests: seq<RequestView>, dist: Metric,
                           prefix: seq<Match>, m: Match, m': Match)
    requires IsGreedyChoice(drivers, requests, dist, prefix, m)
    requires IsGreedyChoice(drivers, requests, dist, prefix, m')
    ensures m == m'
  {
    if m != m' {
      KeyBeforeOrder(MatchCombo(drivers, requests, dist, m), MatchCombo(drivers, requests, dist, m'),
                     MatchCombo(drivers, requests, dist, m));
    }
  }

  /** The description pins the result down: `assign` is a function of its inputs. */
  lemma {:induction false} GreedyDeterministic(drivers: seq<DriverView>, requests: seq<RequestView>, dist: Metric,
                                               matches: seq<Match>, matches': seq<Match>)
    requires GreedyMatching(drivers, requests, dist, matches)
    requires GreedyMatching(drivers, requests, dist, matches')
    ensures matches == matches'
  {
    GreedySize(drivers, requests, dist, matches);
    GreedySize(drivers, requests, dist, matches');
    var n := |matches|;
    var j := 0;
    while j < n
      invariant j <= n && matches[..j] == matches'[..j]
    {
      assert IsGreedyChoice(drivers, requests, dist, matches[..j], matches[j]);
      assert IsGreedyChoice(drivers, requests, dist, matches'[..j], matches'[j]);
      GreedyChoiceUnique(drivers, requests, dist, matches[..j], matches[j], matches'[j]);
      assert matches[..j + 1] == matches[..j] + [matches[j]];
      assert matches'[..j + 1] == matches'[..j] + [matches'[j]];
      j := j + 1;
    }
    assert matches == matches[..n] && matches' == matches'[..n];
  }

  /**
   * One driver at (0,0), requests picked up at (10,0) and (1,0): the driver
   * takes the nearer, second request.
   */
  lemma GreedySingleMatchExample(dist: Metric, drivers: seq<DriverView>, requests: seq<RequestView>,
                                 matches: seq<Match>)
    requires Euclidean(dist)
    requires |drivers| == 1 && |requests| == 2
    requires drivers[0].position == Point(0.0, 0.0)
    requires requests[0].pickup == Point(10.0, 0.0) && requests[1].pickup == Point(1.0, 0.0)
    requires GreedyMatching(drivers, requests, dist, matches)
    ensures matches == [Match(0, 1)]
  {
    DistAlongAxis(dist, Point(0.0, 0.0), Point(10.0, 0.0));
    DistAlongAxis(dist, Point(0.0, 0.0), Point(1.0, 0.0));
    SingleMatchFromDistances(dist, drivers, requests, matches);
  }

  lemma SingleMatchFromDistances(dist: Metric, drivers: seq<DriverView>, requests: seq<RequestView>,
                                 matches: seq<Match>)
    requires |drivers| == 1 && |requests| == 2
    requires PickupDistance(drivers, requests, dist, 0, 0) == 10.0
    requires PickupDistance(drivers, requests, dist, 0, 1) == 1.0
    requires GreedyMatching(drivers, requests, dist, matches)
    ensures matches == [Match(0, 1)]
  {
    GreedySize(drivers, requests, dist, matches);
    GreedyFirstIsMinimum(drivers, requests, dist, matches, 0, 0);
    GreedyFirstIsMinimum(drivers, requests, dist, matches, 0, 1);
  }

  /**
   * Drivers at (0,0) and (100,100), requests picked up at (1,0) and
   * (102,100): each driver takes the request of its own cluster.
   */
  lemma GreedyClustersExample(dist: Metric, drivers: seq<DriverView>, requests: seq<RequestView>,
                              matches: seq<Match>)
    requires Euclidean(dist)
    requires |drivers| == 2 && |requests| == 2
    requires drivers[0].position == Point(0.0, 0.0) && drivers[1].position == Point(100.0, 100.0)
    requires requests[0].pickup == Point(1.0, 0.0) && requests[1].pickup == Point(102.0, 100.0)
    requires GreedyMatching(drivers, requests, dist, matches)
    ensures matches == [Match(0, 0), Match(1, 1)]
  {
    var d0, d1 := Point(0.0, 0.0), Point(100.0, 100.0);
    var r0, r1 := Point(1.0, 0.0), Point(102.0, 100.0);
    DistAlongAxis(dist, d0, r0);
    DistLessIffSqDistLess(dist, d0, r0, d1, r1);
    DistLessIffSqDistLess(dist, d0, r0, d0, r1);
    DistLessIffSqDistLess(dist, d0, r0, d1, r0);
    ClustersFromDistances(dist, drivers, requests, matches);
  }

  lemma ClustersFromDistances(dist: Metric, drivers: seq<DriverView>, requests: seq<RequestView>,
                              matches: seq<Match>)
    requires |drivers| == 2 && |requests| == 2
    requires PickupDistance(drivers, requests, dist, 0, 0) < PickupDistance(drivers, requests, dist, 1, 1)
    requires PickupDistance(drivers, requests, dist, 0, 0) < PickupDistance(drivers, requests, dist, 0, 1)
    requires PickupDistance(drivers, requests, dist, 0, 0) < PickupDistance(drivers, requests, dist, 1, 0)
    requires GreedyMatching(drivers, requests, dist, matches)
    ensures matches == [Match(0, 0), Match(1, 1)]
  {
    GreedySize(drivers, requests, dist, matches);
    GreedyAtMostOnce(drivers, requests, dist, matches);
    GreedyFirstIsMinimum(drivers, requests, dist, matches, 0, 0);
    GreedyFirstIsMinimum(drivers, requests, dist, matches, 0, 1);
    GreedyFirstIsMinimum(drivers, requests, dist, matches, 1, 0);
    GreedyFirstIsMinimum(drivers, requests, dist, matches, 1, 1);
    assert matches[0] == Match(0, 0);
    assert matches == [matches[0], matches[1]];
  }
}
