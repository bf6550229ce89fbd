/**
 * The stages of an engine tick as functions of the values they read
 * (phase2/delivery_simulation.py): the waiting-time update, the dispatch
 * policy, the offers, the first-come-first-served finalisation and the
 * snapshot. `Simulation.DeliverySimulation` runs them on the objects.
 */
module EngineStages {
  import opened Wrappers
  import opened Geometry
  import opened Requests
  import opened DriverStatuses
  import opened Offers
  import opened Behaviours
  import opened Dispatch
  import NearestNeighbor
  import GridNearestNeighbor
  import GlobalGreedy
  import Drivers

  // ---------------------------------------------------------------------------
  // Waiting times and expiry (`_update_waiting_time`)

  /** A WAITING request whose wait now exceeds the timeout expires. */
  predicate Expires(v: RequestView, time: int, timeout: int) {
    v.status == Waiting && time - v.creationTime > timeout
  }

  /** A WAITING request that has not timed out goes on to dispatch. */
  predicate StaysWaiting(v: RequestView, time: int, timeout: int) {
    v.status == Waiting && time - v.creationTime <= timeout
  }

  /** A request after the waiting-time update: requests that are not WAITING are not touched. */
  function AfterWaitUpdate(v: RequestView, time: int, timeout: int): (u: RequestView)
    ensures u.id == v.id && u.pickup == v.pickup && u.dropoff == v.dropoff
    ensures u.creationTime == v.creationTime && u.assignedDriverId == v.assignedDriverId
    ensures v.status != Waiting ==> u == v
    ensures v.status == Waiting ==> u.waitTime == time - v.creationTime
    ensures u.status == Waiting <==> StaysWaiting(v, time, timeout)
    ensures u.status == Expired <==> v.status == Expired || Expires(v, time, timeout)
  {
    if v.status != Waiting then v
    else if time - v.creationTime > timeout then v.(status := Expired, waitTime := time - v.creationTime)
    else v.(waitTime := time - v.creationTime)
  }

  /** Updating twice at the same time changes nothing more: an expired request is not expired again. */
  lemma WaitUpdateIdempotent(v: RequestView, time: int, timeout: int)
    ensures AfterWaitUpdate(AfterWaitUpdate(v, time, timeout), time, timeout) == AfterWaitUpdate(v, time, timeout)
    ensures Expires(v, time, timeout) ==> forall later: int :: !Expires(AfterWaitUpdate(v, time, timeout), later, timeout)
  {
  }

  /** The number of requests that expire in one update. */
  function ExpiringCount(views: seq<RequestView>, time: int, timeout: int): (n: nat)
    ensures n <= |views|
  {
    if |views| == 0 then 0
    else ExpiringCount(views[..|views| - 1], time, timeout) + (if Expires(views[|views| - 1], time, timeout) then 1 else 0)
  }

  /** The number of WAITING requests. */
  function WaitingCount(views: seq<RequestView>): (n: nat)
    ensures n <= |views|
  {
    if |views| == 0 then 0
    else WaitingCount(views[..|views| - 1]) + (if views[|views| - 1].status == Waiting then 1 else 0)
  }

  /** The positions of the requests that stay WAITING, in list order. */
  function StillWaiting(views: seq<RequestView>, time: int, timeout: int): (waiting: seq<nat>)
    ensures forall i :: 0 <= i < |waiting| ==> waiting[i] < |views|
    ensures forall b: nat :: b in waiting <==> b < |views| && StaysWaiting(views[b], time, timeout)
    ensures Increasing(waiting)
  {
    if |views| == 0 then []
    else
      var n := |views| - 1;
      var rest := StillWaiting(views[..n], time, timeout);
      assert forall b :: 0 <= b < n ==> views[..n][b] == views[b];
      if StaysWaiting(views[n], time, timeout) then rest + [n] else rest
  }

  /** The requests that go on to dispatch are exactly those still WAITING after the update. */
  lemma StillWaitingAfterUpdate(views: seq<RequestView>, time: int, timeout: int)
    ensures forall k :: 0 <= k < |StillWaiting(views, time, timeout)| ==>
      AfterWaitUpdate(views[StillWaiting(views, time, timeout)[k]], time, timeout).status == Waiting
    ensures forall b :: 0 <= b < |views| && AfterWaitUpdate(views[b], time, timeout).status == Waiting ==>
      b in StillWaiting(views, time, timeout)
  {
    var waiting := StillWaiting(views, time, timeout);
    forall k | 0 <= k < |waiting|
      ensures AfterWaitUpdate(views[waiting[k]], time, timeout).status == Waiting
    {
      assert waiting[k] in waiting;
    }
  }

  /** Every WAITING request either expires or goes on to dispatch, and not both. */
  lemma {:induction false} WaitingSplits(views: seq<RequestView>, time: int, timeout: int)
    ensures ExpiringCount(views, time, timeout) + |StillWaiting(views, time, timeout)| == WaitingCount(views)
  {
    if |views| > 0 {
      WaitingSplits(views[..|views| - 1], time, timeout);
    }
  }

  // ---------------------------------------------------------------------------
  // Proposals (`_propose_assignments`)

  /** The engine's `dispatch_policy`; `NoPolicy` is a policy of None. */
  datatype Policy = NoPolicy | NearestNeighborPolicy | GridPolicy(cellSize: real) | GlobalGreedyPolicy

  /** What each policy proposes, on the drivers and the requests still WAITING. */
  ghost predicate Proposal(policy: Policy, drivers: seq<DriverView>, requests: seq<RequestView>, dist: Metric,
                           matches: seq<Match>)
  {
    match policy
    case NoPolicy => matches == []
    case NearestNeighborPolicy => NearestNeighbor.NearestNeighborMatching(drivers, requests, dist, matches)
    case GridPolicy(cellSize) =>
      if cellSize == 0.0 then matches == []
      else GridNearestNeighbor.GridMatching(drivers, requests, dist, GridNearestNeighbor.CellFunctionOf(cellSize), matches)
    case GlobalGreedyPolicy => GlobalGreedy.GreedyMatching(drivers, requests, dist, matches)
  }

  /**
   * `_propose_assignments(active_requests)`: no pairs without a policy; the
   * policy's pairs otherwise. None is the division by zero of a grid with
   * cell size 0, which the engine does not catch.
   */
  method ProposeAssignments(policy: Policy, drivers: seq<DriverView>, requests: seq<RequestView>, dist: Metric)
    returns (result: Option<seq<Match>>)
    ensures result.None? <==> policy.GridPolicy? && policy.cellSize == 0.0 && |requests| > 0
    ensures result.Some? ==> Proposal(policy, drivers, requests, dist, result.value)
  {
    match policy
    case NoPolicy =>
      result := Some([]);
    case NearestNeighborPolicy =>
      var matches := NearestNeighbor.Assign(drivers, requests, dist);
      result := Some(matches);
    case GridPolicy(cellSize) =>
      result := GridNearestNeighbor.Assign(drivers, requests, dist, cellSize);
    case GlobalGreedyPolicy =>
      var matches := GlobalGreedy.Assign(drivers, requests, dist);
      result := Some(matches);
  }

  /**
   * Every policy proposes each driver and each request at most once; the
   * nearest-neighbour policies propose only IDLE drivers.
   */
  lemma ProposalAtMostOnce(policy: Policy, drivers: seq<DriverView>, requests: seq<RequestView>, dist: Metric,
                           matches: seq<Match>)
    requires Proposal(policy, drivers, requests, dist, matches)
    ensures AtMostOnce(matches, |drivers|, |requests|)
    ensures !policy.GlobalGreedyPolicy? ==> forall j :: 0 <= j < |matches| ==> drivers[matches[j].driver].status == Idle
  {
    match policy
    case NoPolicy =>
    case NearestNeighborPolicy =>
      NearestNeighbor.NearestNeighborAtMostOnce(drivers, requests, dist, matches);
    case GridPolicy(cellSize) =>
      if cellSize != 0.0 {
        GridNearestNeighbor.GridAtMostOnce(drivers, requests, dist, GridNearestNeighbor.CellFunctionOf(cellSize), matches);
      }
    case GlobalGreedyPolicy =>
      GlobalGreedy.GreedyAtMostOnce(drivers, requests, dist, matches);
  }

  /** The positions of the IDLE drivers. */
  ghost function IdleSet(drivers: seq<DriverView>): set<nat> {
    set a: nat | a < |drivers| && drivers[a].status == Idle
  }

  /**
   * The nearest-neighbour policies propose at most one pair per IDLE driver;
   * global greedy is bounded only by the number of drivers.
   */
  lemma ProposalSizeBound(policy: Policy, drivers: seq<DriverView>, requests: seq<RequestView>, dist: Metric,
                          matches: seq<Match>)
    requires Proposal(policy, drivers, requests, dist, matches)
    ensures |matches| <= |drivers| && |matches| <= |requests|
    ensures !policy.GlobalGreedyPolicy? ==> |matches| <= |IdleSet(drivers)|
  {
    ProposalAtMostOnce(policy, drivers, requests, dist, matches);
    MatchingSizeBound(matches, |drivers|, |requests|);
    if !policy.GlobalGreedyPolicy? {
      MatchedCounts(matches);
      SubsetSize(DriversOf(matches), IdleSet(drivers));
    }
  }

  /**
   * Global greedy proposes a busy driver: one driver and one request are
   * always paired, whatever the driver's status, while nearest neighbour
   * proposes nothing for a driver that is not IDLE.
   */
  lemma BusyDriverProposed(drivers: seq<DriverView>, requests: seq<RequestView>, dist: Metric,
                           greedy: seq<Match>, nearest: seq<Match>)
    requires |drivers| == 1 && |requests| == 1 && drivers[0].status != Idle
    requires Proposal(GlobalGreedyPolicy, drivers, requests, dist, greedy)
    requires Proposal(NearestNeighborPolicy, drivers, requests, dist, nearest)
    ensures greedy == [Match(0, 0)]
    ensures nearest == []
  {
    GlobalGreedy.GreedySize(drivers, requests, dist, greedy);
    ProposalAtMostOnce(GlobalGreedyPolicy, drivers, requests, dist, greedy);
    assert IdleSet(drivers) == {};
    ProposalSizeBound(NearestNeighborPolicy, drivers, requests, dist, nearest);
  }

  // ---------------------------------------------------------------------------
  // Offers (`_process_offers`)

  /** `driver.speed or 1`: a speed of zero counts as 1. */
  function SpeedOrOne(speed: real): (s: real)
    ensures s != 0.0
    ensures speed != 0.0 ==> s == speed
  {
    if speed == 0.0 then 1.0 else speed
  }

  /**
   * The offer the engine makes: the travel time is the distance to the
   * pickup over the speed (or 1), and there is no reward.
   */
  function EngineOffer(driver: DriverView, request: RequestView, dist: Metric): (o: Offer)
    ensures o.driver == driver && o.request == request && o.estimatedReward.None?
    ensures o.estimatedTravelTime * SpeedOrOne(driver.speed) == dist(driver.position, request.pickup)
  {
    NewOffer(driver, request, Numeric(dist(driver.position, request.pickup) / SpeedOrOne(driver.speed)), None)
  }

  /** Pairs within the lists the policy was given. */
  ghost predicate InLists(matches: seq<Match>, driverCount: nat, requestCount: nat) {
    forall j :: 0 <= j < |matches| ==> matches[j].driver < driverCount && matches[j].request < requestCount
  }

  /** Whether the proposed driver's behaviour accepts the engine's offer. */
  predicate Accepts(drivers: seq<DriverView>, behaviours: seq<Behaviour>, requests: seq<RequestView>,
                    time: int, dist: Metric, m: Match)
    requires m.driver < |drivers| == |behaviours| && m.request < |requests|
  {
    Decide(behaviours[m.driver], drivers[m.driver], EngineOffer(drivers[m.driver], requests[m.request], dist), time, dist)
  }

  /** The proposals whose offers are accepted, in proposal order. */
  function Accepted(proposals: seq<Match>, drivers: seq<DriverView>, behaviours: seq<Behaviour>,
                    requests: seq<RequestView>, time: int, dist: Metric): (accepted: seq<Match>)
    requires InLists(proposals, |drivers|, |requests|) && |behaviours| == |drivers|
    ensures forall m :: m in accepted <==> m in proposals && Accepts(drivers, behaviours, requests, time, dist, m)
    ensures InLists(accepted, |drivers|, |requests|)
  {
    if |proposals| == 0 then []
    else
      var n := |proposals| - 1;
      var m := proposals[n];
      var rest := Accepted(proposals[..n], drivers, behaviours, requests, time, dist);
      assert forall x :: x in proposals <==> x in proposals[..n] || x == m;
      if Accepts(drivers, behaviours, requests, time, dist, m) then rest + [m] else rest
  }

  /**
   * `_process_offers(proposals)`: one offer per proposal, in order, keeping
   * the pairs whose driver accepts.
   */
  method ProcessOffers(proposals: seq<Match>, drivers: seq<DriverView>, behaviours: seq<Behaviour>,
                       requests: seq<RequestView>, time: int, dist: Metric)
    returns (accepted: seq<Match>)
    requires InLists(proposals, |drivers|, |requests|) && |behaviours| == |drivers|
    ensures accepted == Accepted(proposals, drivers, behaviours, requests, time, dist)
  {
    accepted := [];
    var i := 0;
    while i < |proposals|
      invariant 0 <= i <= |proposals|
      invariant accepted == Accepted(proposals[..i], drivers, behaviours, requests, time, dist)
    {
      var m := proposals[i];
      var offer := EngineOffer(drivers[m.driver], requests[m.request], dist);
      if Decide(behaviours[m.driver], drivers[m.driver], offer, time, dist) {
        accepted := accepted + [m];
      }
      AcceptedSnoc(proposals[..i], m, drivers, behaviours, requests, time, dist);
      assert proposals[..i + 1] == proposals[..i] + [m];
      i := i + 1;
    }
    assert proposals[..i] == proposals;
  }

  /** Filtering one more proposal adds it exactly when its offer is accepted. */
  lemma AcceptedSnoc(proposals: seq<Match>, m: Match, drivers: seq<DriverView>, behaviours: seq<Behaviour>,
                     requests: seq<RequestView>, time: int, dist: Metric)
    requires InLists(proposals, |drivers|, |requests|) && |behaviours| == |drivers|
    requires m.driver < |drivers| && m.request < |requests|
    ensures InLists(proposals + [m], |drivers|, |requests|)
    ensures Accepted(proposals + [m], drivers, behaviours, requests, time, dist)
         == Accepted(proposals, drivers, behaviours, requests, time, dist)
          + (if Accepts(drivers, behaviours, requests, time, dist, m) then [m] else [])
  {
    var all := proposals + [m];
    assert all[..|proposals|] == proposals;
    assert all[|proposals|] == m;
  }

  /** Filtering keeps the proposal order: the pairs kept from a list are those kept from each part, in turn. */
  lemma {:induction false} AcceptedKeepsOrder(first: seq<Match>, second: seq<Match>, drivers: seq<DriverView>,
                                              behaviours: seq<Behaviour>, requests: seq<RequestView>,
                                              time: int, dist: Metric)
    requires InLists(first, |drivers|, |requests|) && InLists(second, |drivers|, |requests|)
    requires |behaviours| == |drivers|
    ensures InLists(first + second, |drivers|, |requests|)
    ensures Accepted(first + second, drivers, behaviours, requests, time, dist)
         == Accepted(first, drivers, behaviours, requests, time, dist)
          + Accepted(second, drivers, behaviours, requests, time, dist)
  {
    if |second| == 0 {
      assert first + second == first;
    } else {
      var n := |second| - 1;
      var pre, last := second[..n], second[n];
      assert second == pre + [last];
      assert first + second == (first + pre) + [last];
      var kept := if Accepts(drivers, behaviours, requests, time, dist, last) then [last] else [];
      AcceptedKeepsOrder(first, pre, drivers, behaviours, requests, time, dist);
      AcceptedSnoc(first + pre, last, drivers, behaviours, requests, time, dist);
      AcceptedSnoc(pre, last, drivers, behaviours, requests, time, dist);
      calc {
        Accepted(first + second, drivers, behaviours, requests, time, dist);
        Accepted(first + pre, drivers, behaviours, requests, time, dist) + kept;
        Accepted(first, drivers, behaviours, requests, time, dist)
          + Accepted(pre, drivers, behaviours, requests, time, dist) + kept;
        Accepted(first, drivers, behaviours, requests, time, dist)
          + Accepted(second, drivers, behaviours, requests, time, dist);
      }
    }
  }

  /** The engine's offers carry no reward, so an EarningMax driver never accepts one. */
  lemma EarningMaxRejectsEngineOffers(drivers: seq<DriverView>, behaviours: seq<Behaviour>,
                                      requests: seq<RequestView>, time: int, dist: Metric, m: Match)
    requires m.driver < |drivers| == |behaviours| && m.request < |requests|
    requires behaviours[m.driver].EarningMax?
    ensures !Accepts(drivers, behaviours, requests, time, dist, m)
  {
  }

  /** A Lazy driver accepts an engine offer exactly when IDLE and the request has waited long enough. */
  lemma LazyAcceptsEngineOffer(drivers: seq<DriverView>, behaviours: seq<Behaviour>,
                               requests: seq<RequestView>, time: int, dist: Metric, m: Match)
    requires m.driver < |drivers| == |behaviours| && m.request < |requests|
    requires behaviours[m.driver].Lazy?
    ensures Accepts(drivers, behaviours, requests, time, dist, m)
        <==> drivers[m.driver].status == Idle && requests[m.request].waitTime >= behaviours[m.driver].minWaitTime
  {
  }

  // ---------------------------------------------------------------------------
  // Finalisation (`_finalize_assigments`)

  /**
   * A pair is skipped when its request or its driver was already used this
   * tick, or its request is ASSIGNED. `statuses` are the request statuses
   * before the stage: a request changes status in it only by being used.
   */
  predicate Skipped(m: Match, statuses: seq<RequestStatus>, usedDrivers: set<nat>, usedRequests: set<nat>)
    requires m.request < |statuses|
  {
    m.request in usedRequests || m.driver in usedDrivers || statuses[m.request] == Assigned
  }

  /** The pairs finalisation keeps, first come first served. */
  function FirstComeFirstServed(accepted: seq<Match>, statuses: seq<RequestStatus>,
                                usedDrivers: set<nat>, usedRequests: set<nat>): (kept: seq<Match>)
    requires forall j :: 0 <= j < |accepted| ==> accepted[j].request < |statuses|
    ensures forall m :: m in kept ==> m in accepted
    ensures forall j :: 0 <= j < |kept| ==> kept[j].request < |statuses|
    ensures forall j :: 0 <= j < |kept| ==>
      kept[j].driver !in usedDrivers && kept[j].request !in usedRequests && statuses[kept[j].request] != Assigned
    ensures forall j, k :: 0 <= j < k < |kept| ==>
      kept[j].driver != kept[k].driver && kept[j].request != kept[k].request
    decreases |accepted|
  {
    if |accepted| == 0 then []
    else
      var m := accepted[0];
      if Skipped(m, statuses, usedDrivers, usedRequests) then
        FirstComeFirstServed(accepted[1..], statuses, usedDrivers, usedRequests)
      else
        [m] + FirstComeFirstServed(accepted[1..], statuses, usedDrivers + {m.driver}, usedRequests + {m.request})
  }

  /**
   * Nothing is skipped without cause: every accepted pair is kept, or shares
   * its driver or its request with a kept pair, or its request is ASSIGNED.
   */
  lemma {:induction false} FirstComeFirstServedMaximal(accepted: seq<Match>, statuses: seq<RequestStatus>,
                                                       usedDrivers: set<nat>, usedRequests: set<nat>)
    requires forall j :: 0 <= j < |accepted| ==> accepted[j].request < |statuses|
    ensures forall j :: 0 <= j < |accepted| ==>
      var kept := FirstComeFirstServed(accepted, statuses, usedDrivers, usedRequests);
      accepted[j] in kept || statuses[accepted[j].request] == Assigned
      || accepted[j].driver in usedDrivers + DriversOf(kept)
      || accepted[j].request in usedRequests + RequestsOf(kept)
    decreases |accepted|
  {
    if |accepted| > 0 {
      var m := accepted[0];
      var kept := FirstComeFirstServed(accepted, statuses, usedDrivers, usedRequests);
      if Skipped(m, statuses, usedDrivers, usedRequests) {
        FirstComeFirstServedMaximal(accepted[1..], statuses, usedDrivers, usedRequests);
        assert forall j :: 1 <= j < |accepted| ==> accepted[j] == accepted[1..][j - 1];
      } else {
        var ud, ur := usedDrivers + {m.driver}, usedRequests + {m.request};
        var rest := FirstComeFirstServed(accepted[1..], statuses, ud, ur);
        FirstComeFirstServedMaximal(accepted[1..], statuses, ud, ur);
        AppendMatchFront(m, rest);
        assert forall j :: 1 <= j < |accepted| ==> accepted[j] == accepted[1..][j - 1];
        assert kept == [m] + rest;
        assert m in kept;
      }
    }
  }

  /** The statuses of `n` requests that are all WAITING, as the requests dispatch is given are. */
  function AllWaiting(n: nat): (statuses: seq<RequestStatus>)
    ensures |statuses| == n && forall k :: 0 <= k < n ==> statuses[k] == Waiting
  {
    if n == 0 then [] else AllWaiting(n - 1) + [Waiting]
  }

  /** One step of the first-come-first-served scan, as a loop over the accepted pairs takes it. */
  lemma FirstComeFirstServedStep(accepted: seq<Match>, j: nat, statuses: seq<RequestStatus>,
                                 usedDrivers: set<nat>, usedRequests: set<nat>, kept: seq<Match>, all: seq<Match>)
    requires j < |accepted| && forall i :: 0 <= i < |accepted| ==> accepted[i].request < |statuses|
    requires kept + FirstComeFirstServed(accepted[j..], statuses, usedDrivers, usedRequests) == all
    ensures Skipped(accepted[j], statuses, usedDrivers, usedRequests) ==>
      kept + FirstComeFirstServed(accepted[j + 1..], statuses, usedDrivers, usedRequests) == all
    ensures !Skipped(accepted[j], statuses, usedDrivers, usedRequests) ==>
      (kept + [accepted[j]])
      + FirstComeFirstServed(accepted[j + 1..], statuses, usedDrivers + {accepted[j].driver},
                             usedRequests + {accepted[j].request}) == all
  {
    assert accepted[j..][0] == accepted[j] && accepted[j..][1..] == accepted[j + 1..];
  }

  lemma AppendMatchFront(m: Match, rest: seq<Match>)
    ensures DriversOf([m] + rest) == {m.driver} + DriversOf(rest)
    ensures RequestsOf([m] + rest) == {m.request} + RequestsOf(rest)
    ensures forall x :: x in rest ==> x in [m] + rest
  {
    var s := [m] + rest;
    assert s[0] == m;
    assert forall j :: 0 <= j < |rest| ==> s[j + 1] == rest[j];
    assert forall j :: 1 <= j < |s| ==> s[j] == rest[j - 1];
  }

  /** Two accepted pairs for the same request: the first is kept and the second skipped. */
  lemma SameRequestKeptOnce(statuses: seq<RequestStatus>, accepted: seq<Match>)
    requires |statuses| == 1 && statuses[0] == Waiting
    requires accepted == [Match(0, 0), Match(1, 0)]
    ensures FirstComeFirstServed(accepted, statuses, {}, {}) == [Match(0, 0)]
  {
    var rest := accepted[1..];
    assert rest == [Match(1, 0)];
    assert Skipped(rest[0], statuses, {0}, {0});
    assert FirstComeFirstServed(rest, statuses, {0}, {0}) == FirstComeFirstServed(rest[1..], statuses, {0}, {0});
    assert rest[1..] == [];
    var none: set<nat> := {};
    assert none + {0} == {0};
    assert !Skipped(accepted[0], statuses, none, none);
    assert FirstComeFirstServed(accepted, statuses, none, none)
        == [accepted[0]] + FirstComeFirstServed(rest, statuses, none + {0}, none + {0});
  }

  /** The same pair proposed twice is assigned once. */
  lemma SamePairKeptOnce(statuses: seq<RequestStatus>, accepted: seq<Match>)
    requires |statuses| == 1 && statuses[0] == Waiting
    requires accepted == [Match(0, 0), Match(0, 0)]
    ensures FirstComeFirstServed(accepted, statuses, {}, {}) == [Match(0, 0)]
  {
    var rest := accepted[1..];
    assert rest == [Match(0, 0)];
    assert Skipped(rest[0], statuses, {0}, {0});
    assert FirstComeFirstServed(rest, statuses, {0}, {0}) == FirstComeFirstServed(rest[1..], statuses, {0}, {0});
    assert rest[1..] == [];
    var none: set<nat> := {};
    assert none + {0} == {0};
    assert !Skipped(accepted[0], statuses, none, none);
    assert FirstComeFirstServed(accepted, statuses, none, none)
        == [accepted[0]] + FirstComeFirstServed(rest, statuses, none + {0}, none + {0});
  }

  // ---------------------------------------------------------------------------
  // Arrivals (`_move_drivers_and_handle_events`)

  /** The engine counts a driver as arrived closer than this (1e-6). */
  const EventEpsilon: real := 0.000001

  /** The events one driver's step leads to. */
  datatype Arrival = Arrival(pickedUp: bool, droppedOff: bool)

  /**
   * The arrival checks after a driver's step, for a driver that holds a
   * request (`holding`) with the given pickup and dropoff and was in
   * `status` before them: the pickup check comes first, and a pickup moves
   * the driver on to TO_DROPOFF before the dropoff check looks at it.
   */
  function ArrivalsAfterStep(holding: bool, status: DriverStatus, position: Point, pickup: Point, dropoff: Point,
                             dist: Metric): (e: Arrival)
    ensures e.pickedUp ==> holding && status == ToPickup
    ensures e.droppedOff ==> holding && (status == ToDropoff || e.pickedUp)
  {
    var pickedUp := holding && status == ToPickup && dist(position, pickup) < EventEpsilon;
    var statusAfter := if pickedUp then ToDropoff else status;
    Arrival(pickedUp, holding && statusAfter == ToDropoff && dist(position, dropoff) < EventEpsilon)
  }

  /** A request whose pickup is its dropoff is picked up and delivered in the same tick. */
  lemma PickupAtDropoffDeliversAtOnce(status: DriverStatus, position: Point, pickup: Point, dist: Metric)
    requires ArrivalsAfterStep(true, status, position, pickup, pickup, dist).pickedUp
    ensures ArrivalsAfterStep(true, status, position, pickup, pickup, dist).droppedOff
  {
  }

  /** Without a request, or IDLE, a driver triggers no event. */
  lemma NoEventsWithoutTrip(holding: bool, status: DriverStatus, position: Point, pickup: Point, dropoff: Point,
                            dist: Metric)
    requires !holding || status == Idle
    ensures ArrivalsAfterStep(holding, status, position, pickup, dropoff, dist) == Arrival(false, false)
  {
  }

  /** A driver already heading to a dropoff is not picked up again; it is delivered exactly when it is close. */
  lemma DropoffLegEvents(position: Point, pickup: Point, dropoff: Point, dist: Metric)
    ensures ArrivalsAfterStep(true, ToDropoff, position, pickup, dropoff, dist)
      == Arrival(false, dist(position, dropoff) < EventEpsilon)
  {
  }

  /**
   * The fields of a driver that `complete_pickup` and `complete_dropoff`
   * change, with a copy of the request it holds.
   */
  datatype Trip = Trip(held: Option<RequestView>, status: DriverStatus, positionAtAssignment: Option<Point>,
                       reward: real, history: seq<Drivers.TripRecord>)

  /** `complete_dropoff` acts: the driver holds a request and has an assignment position. */
  predicate Delivers(t: Trip, e: Arrival) {
    e.droppedOff && t.held.Some? && t.positionAtAssignment.Some?
  }

  /**
   * The held request after the events: PICKED on a pickup, DELIVERED on a
   * dropoff that `complete_dropoff` acts on, with the wait measured from its
   * creation either way; as it was otherwise.
   */
  function RequestAfterEvents(t: Trip, e: Arrival, time: int): Option<RequestView>
  {
    if t.held.None? then None
    else
      var v := t.held.value;
      if Delivers(t, e) then Some(v.(status := Delivered, waitTime := time - v.creationTime))
      else if e.pickedUp then Some(v.(status := Picked, waitTime := time - v.creationTime))
      else t.held
  }

  /**
   * The driver's trip fields after the events: a delivery appends the trip
   * record and resets the driver to IDLE with no request; otherwise a pickup
   * moves it on to TO_DROPOFF with the request PICKED.
   */
  function TripAfterEvents(driverId: int, t: Trip, e: Arrival, time: int, dist: Metric): Trip
  {
    if Delivers(t, e) then
      var v := t.held.value;
      var record := Drivers.TripRecord(driverId, v.id, time, t.reward,
                                       dist(t.positionAtAssignment.value, v.pickup) + dist(v.pickup, v.dropoff), None);
      Trip(None, Idle, None, 0.0, t.history + [record])
    else
      Trip(RequestAfterEvents(t, e, time), if e.pickedUp then ToDropoff else t.status,
           t.positionAtAssignment, t.reward, t.history)
  }

  /** The pickup check, then the dropoff check, is the two events together. */
  lemma TripEventsCompose(driverId: int, t: Trip, pickedUp: bool, droppedOff: bool, time: int, dist: Metric)
    ensures TripAfterEvents(driverId, TripAfterEvents(driverId, t, Arrival(pickedUp, false), time, dist),
                            Arrival(false, droppedOff), time, dist)
         == TripAfterEvents(driverId, t, Arrival(pickedUp, droppedOff), time, dist)
    ensures RequestAfterEvents(TripAfterEvents(driverId, t, Arrival(pickedUp, false), time, dist),
                               Arrival(false, droppedOff), time)
         == RequestAfterEvents(t, Arrival(pickedUp, droppedOff), time)
  {
  }

  /**
   * A driver lets go of a request in service exactly when the request is
   * delivered, and a request it still holds stays in service: ASSIGNED, or
   * PICKED.
   */
  lemma ReleaseIffDelivered(driverId: int, t: Trip, e: Arrival, time: int, dist: Metric)
    requires t.held.Some? && (t.held.value.status == Assigned || t.held.value.status == Picked)
    ensures TripAfterEvents(driverId, t, e, time, dist).held.None?
        <==> RequestAfterEvents(t, e, time).value.status == Delivered
    ensures TripAfterEvents(driverId, t, e, time, dist).held.Some? ==>
      var v := TripAfterEvents(driverId, t, e, time, dist).held.value;
      v == RequestAfterEvents(t, e, time).value && (v.status == Assigned || v.status == Picked)
  {
  }

  /**
   * A delivery adds exactly one trip record, for the held request and the
   * assigned reward, and leaves the driver IDLE with reward 0.0; without
   * one the history is unchanged.
   */
  lemma DeliveryRecordsTrip(driverId: int, t: Trip, e: Arrival, time: int, dist: Metric)
    ensures Delivers(t, e) ==>
      var t' := TripAfterEvents(driverId, t, e, time, dist);
      |t'.history| == |t.history| + 1 && t'.history[..|t.history|] == t.history
      && t'.history[|t.history|].requestId == t.held.value.id
      && t'.history[|t.history|].earnings == t.reward
      && t'.history[|t.history|].completionTime == time
      && t'.status == Idle && t'.reward == 0.0 && t'.positionAtAssignment.None?
    ensures !Delivers(t, e) ==> TripAfterEvents(driverId, t, e, time, dist).history == t.history
  {
  }

  /**
   * What one driver's turn adds to the total wait: when the dropoff check
   * fires, the wait of the request it held, as the events leave that
   * request; nothing otherwise.
   */
  function WaitAdded(t: Trip, e: Arrival, time: int): int {
    if e.droppedOff && t.held.Some? then RequestAfterEvents(t, e, time).value.waitTime else 0
  }

  /** What the turns of the first `|events|` drivers add to the total wait, `trips` being the trips they started on. */
  function DeliveredWait(trips: seq<Trip>, events: seq<Arrival>, time: int): int
    requires |events| <= |trips|
  {
    if |events| == 0 then 0
    else DeliveredWait(trips, events[..|events| - 1], time) + WaitAdded(trips[|events| - 1], events[|events| - 1], time)
  }

  /**
   * A turn adds nothing without a dropoff. A dropoff that `complete_dropoff`
   * acts on adds the time since the request was created; one it does not
   * act on adds the request's wait as it stands, which a pickup in the same
   * turn has just set to the time since creation.
   */
  lemma WaitAddedCases(t: Trip, e: Arrival, time: int)
    ensures !e.droppedOff ==> WaitAdded(t, e, time) == 0
    ensures Delivers(t, e) ==> WaitAdded(t, e, time) == time - t.held.value.creationTime
    ensures e.droppedOff && t.held.Some? && !Delivers(t, e) ==>
      WaitAdded(t, e, time) == if e.pickedUp then time - t.held.value.creationTime else t.held.value.waitTime
  {
  }

  /** One more driver's events add that driver's share of the wait. */
  lemma DeliveredWaitNext(trips: seq<Trip>, events: seq<Arrival>, e: Arrival, time: int)
    requires |events| < |trips|
    ensures DeliveredWait(trips, events + [e], time) == DeliveredWait(trips, events, time) + WaitAdded(trips[|events|], e, time)
  {
    assert (events + [e])[..|events|] == events;
  }

  /** Turns without a dropoff add nothing to the total wait. */
  lemma {:induction false} NoDropoffsNoWait(trips: seq<Trip>, events: seq<Arrival>, time: int)
    requires |events| <= |trips|
    requires forall k :: 0 <= k < |events| ==> !events[k].droppedOff
    ensures DeliveredWait(trips, events, time) == 0
  {
    if |events| > 0 {
      NoDropoffsNoWait(trips, events[..|events| - 1], time);
    }
  }

  // ---------------------------------------------------------------------------
  // Snapshot (`get_snapshot`)

  datatype DriverSnapshot = DriverSnapshot(id: int, x: real, y: real, status: DriverStatus)

  datatype Statistics = Statistics(servedCount: int, expiredCount: int, avgWait: real)

  datatype Snapshot = Snapshot(
    time: int,
    drivers: seq<DriverSnapshot>,
    pickups: seq<Point>,
    dropoffs: seq<Point>,
    statistics: Statistics)

  /** The average wait over completed deliveries, or 0.0 with none. */
  function AverageWait(totalWaitTime: int, completedDeliveries: int): (avg: real)
    ensures completedDeliveries != 0 ==> avg * completedDeliveries as real == totalWaitTime as real
    ensures completedDeliveries == 0 ==> avg == 0.0
  {
    if completedDeliveries != 0 then totalWaitTime as real / completedDeliveries as real else 0.0
  }

  function DriverSnapshots(drivers: seq<DriverView>): (s: seq<DriverSnapshot>)
    ensures |s| == |drivers|
    ensures forall i :: 0 <= i < |drivers| ==>
      s[i] == DriverSnapshot(drivers[i].id, drivers[i].position.x, drivers[i].position.y, drivers[i].status)
  {
    seq(|drivers|, i requires 0 <= i < |drivers| =>
      DriverSnapshot(drivers[i].id, drivers[i].position.x, drivers[i].position.y, drivers[i].status))
  }

  /** A request whose pickup is still to be reached: WAITING or ASSIGNED. */
  predicate PickupPending(v: RequestView) {
    v.status == Waiting || v.status == Assigned
  }

  /** The pickups of the WAITING and ASSIGNED requests, in list order. */
  function Pickups(requests: seq<RequestView>): (pickups: seq<Point>)
    ensures |pickups| <= |requests|
    ensures forall p :: p in pickups <==> exists b :: 0 <= b < |requests| && PickupPending(requests[b]) && requests[b].pickup == p
  {
    if |requests| == 0 then []
    else
      var n := |requests| - 1;
      var rest := Pickups(requests[..n]);
      assert forall b :: 0 <= b < n ==> requests[..n][b] == requests[b];
      if PickupPending(requests[n]) then rest + [requests[n].pickup] else rest
  }

  /** The dropoffs of the PICKED requests, in list order. */
  function Dropoffs(requests: seq<RequestView>): (dropoffs: seq<Point>)
    ensures |dropoffs| <= |requests|
    ensures forall p :: p in dropoffs <==> exists b :: 0 <= b < |requests| && requests[b].status == Picked && requests[b].dropoff == p
  {
    if |requests| == 0 then []
    else
      var n := |requests| - 1;
      var rest := Dropoffs(requests[..n]);
      assert forall b :: 0 <= b < n ==> requests[..n][b] == requests[b];
      if requests[n].status == Picked then rest + [requests[n].dropoff] else rest
  }

  /** A request is listed by its pickup or by its dropoff, never by both. */
  lemma {:induction false} PickupsAndDropoffsCount(requests: seq<RequestView>)
    ensures |Pickups(requests)| + |Dropoffs(requests)| <= |requests|
  {
    if |requests| > 0 {
      PickupsAndDropoffsCount(requests[..|requests| - 1]);
    }
  }
}
