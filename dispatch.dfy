/**
 * What every dispatch policy returns (phase2/policies/dispatch_policy.py):
 * proposed (driver, request) pairs in which each driver and each request
 * appears at most once. A pair is a `Match` of positions in the driver and
 * request lists the policy was given.
 */
module Dispatch {
  import opened Geometry
  import opened Requests
  import opened DriverStatuses

  datatype Match = Match(driver: nat, request: nat)

  function DriversOf(matches: seq<Match>): set<nat> {
    set j | 0 <= j < |matches| :: matches[j].driver
  }

  function RequestsOf(matches: seq<Match>): set<nat> {
    set j | 0 <= j < |matches| :: matches[j].request
  }

  lemma AppendMatch(matches: seq<Match>, m: Match)
    ensures DriversOf(matches + [m]) == DriversOf(matches) + {m.driver}
    ensures RequestsOf(matches + [m]) == RequestsOf(matches) + {m.request}
  {
    var ms := matches + [m];
    assert ms[|matches|] == m;
    assert forall j :: 0 <= j < |matches| ==> ms[j] == matches[j];
  }

  /** Pairs within the lists, with no driver and no request used twice. */
  ghost predicate AtMostOnce(matches: seq<Match>, driverCount: nat, requestCount: nat) {
    (forall j :: 0 <= j < |matches| ==> matches[j].driver < driverCount && matches[j].request < requestCount)
    && (forall j, k :: 0 <= j < k < |matches| ==>
          matches[j].driver != matches[k].driver && matches[j].request != matches[k].request)
  }

  /** The distance from a driver to a request's pickup. */
  function PickupDistance(drivers: seq<DriverView>, requests: seq<RequestView>, dist: Metric, a: nat, b: nat): real
    requires a < |drivers| && b < |requests|
  {
    dist(drivers[a].position, requests[b].pickup)
  }

  /** Strictly increasing: the order a list of positions keeps when elements are removed. */
  predicate Increasing(s: seq<nat>) {
    forall i, j :: 0 <= i < j < |s| ==> s[i] < s[j]
  }

  /** `(a, b)` comes before `(c, d)` in driver-major order. */
  predicate LexBefore(a: nat, b: nat, c: nat, d: nat) {
    a < c || (a == c && b < d)
  }

  /** `lst.remove(x)` on a list of distinct positions. */
  function RemoveValue(s: seq<nat>, x: nat): (r: seq<nat>)
    requires Increasing(s)
    ensures |r| == if x in s then |s| - 1 else |s|
    ensures forall y :: y in r <==> y in s && y != x
    ensures Increasing(r)
  {
    if |s| == 0 then []
    else if s[0] == x then
      assert forall y :: y in s[1..] ==> s[0] < y;
      s[1..]
    else
      var rest := RemoveValue(s[1..], x);
      assert forall j :: 0 <= j < |rest| ==> s[0] < rest[j] by {
        forall j | 0 <= j < |rest|
          ensures s[0] < rest[j]
        {
          assert rest[j] in rest;
        }
      }
      [s[0]] + rest
  }

  /** The positions of the IDLE drivers, in list order. */
  function IdleIndices(drivers: seq<DriverView>): (idle: seq<nat>)
    ensures forall a: nat :: a in idle <==> a < |drivers| && drivers[a].status == Idle
    ensures Increasing(idle)
  {
    IdleFrom(drivers, 0)
  }

  function IdleFrom(drivers: seq<DriverView>, start: nat): (idle: seq<nat>)
    requires start <= |drivers|
    ensures forall a: nat :: a in idle <==> start <= a < |drivers| && drivers[a].status == Idle
    ensures forall i :: 0 <= i < |idle| ==> start <= idle[i]
    ensures Increasing(idle)
    decreases |drivers| - start
  {
    if start == |drivers| then []
    else if drivers[start].status == Idle then [start] + IdleFrom(drivers, start + 1)
    else IdleFrom(drivers, start + 1)
  }

  /** The positions 0 .. n-1, the copy `requests[:]` as positions. */
  function AllIndices(n: nat): (s: seq<nat>)
    ensures |s| == n && Increasing(s)
    ensures forall i :: 0 <= i < n ==> s[i] == i
    ensures forall b: nat :: b in s <==> b < n
  {
    var s := seq(n, i => i);
    assert forall b: nat :: b in s ==> b < n by {
      forall b | b in s
        ensures b < n
      {
        var i :| 0 <= i < n && s[i] == b;
      }
    }
    assert forall b: nat :: b < n ==> b in s by {
      forall b: nat | b < n
        ensures b in s
      {
        assert s[b] == b;
      }
    }
    s
  }

  function Min(a: nat, b: nat): nat {
    if a <= b then a else b
  }

  // ---------------------------------------------------------------------------
  // Counting matched drivers and requests

  /** The positions 0 .. n-1 as a set. */
  function Below(n: nat): (s: set<nat>)
    ensures forall a: nat :: a in s <==> a < n
  {
    set a | a in AllIndices(n)
  }

  lemma {:induction false} BelowSize(n: nat)
    ensures |Below(n)| == n
  {
    if n > 0 {
      assert Below(n) == Below(n - 1) + {n - 1};
      BelowSize(n - 1);
    }
  }

  lemma {:induction false} SubsetSize(s: set<nat>, t: set<nat>)
    requires s <= t
    ensures |s| <= |t|
  {
    if s != {} {
      var x :| x in s;
      SubsetSize(s - {x}, t - {x});
    }
  }

  /** With no driver and no request used twice, each pair adds one driver and one request. */
  lemma {:induction false} MatchedCounts(matches: seq<Match>)
    requires forall j, k :: 0 <= j < k < |matches| ==>
      matches[j].driver != matches[k].driver && matches[j].request != matches[k].request
    ensures |DriversOf(matches)| == |matches| && |RequestsOf(matches)| == |matches|
  {
    if |matches| > 0 {
      var n := |matches| - 1;
      var prefix := matches[..n];
      assert matches == prefix + [matches[n]];
      AppendMatch(prefix, matches[n]);
      MatchedCounts(prefix);
      assert forall j :: 0 <= j < n ==> prefix[j] == matches[j];
    }
  }

  /** A matching that uses no driver or request twice has at most as many pairs as either list. */
  lemma MatchingSizeBound(matches: seq<Match>, driverCount: nat, requestCount: nat)
    requires AtMostOnce(matches, driverCount, requestCount)
    ensures |matches| <= driverCount && |matches| <= requestCount
  {
    MatchedCounts(matches);
    BelowSize(driverCount);
    BelowSize(requestCount);
    SubsetSize(DriversOf(matches), Below(driverCount));
    SubsetSize(RequestsOf(matches), Below(requestCount));
  }

  /**
   * A matching that uses no driver or request twice and leaves no unmatched
   * driver with an unmatched request has exactly as many pairs as the shorter list.
   */
  lemma MaximalMatchingSize(matches: seq<Match>, driverCount: nat, requestCount: nat)
    requires AtMostOnce(matches, driverCount, requestCount)
    requires forall a: nat, b: nat :: a < driverCount && b < requestCount ==>
      a in DriversOf(matches) || b in RequestsOf(matches)
    ensures |matches| == Min(driverCount, requestCount)
  {
    MatchingSizeBound(matches, driverCount, requestCount);
    MatchedCounts(matches);
    if Below(driverCount) <= DriversOf(matches) {
      BelowSize(driverCount);
      SubsetSize(Below(driverCount), DriversOf(matches));
    } else {
      var a: nat :| a in Below(driverCount) && a !in DriversOf(matches);
      assert Below(requestCount) <= RequestsOf(matches);
      BelowSize(requestCount);
      SubsetSize(Below(requestCount), RequestsOf(matches));
    }
  }
}
