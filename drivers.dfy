/**
 * The driver agent (phase2/driver.py): a state machine
 * IDLE -> TO_PICKUP -> TO_DROPOFF -> IDLE that moves toward its current
 * target, snapping onto it instead of overshooting, and records every
 * completed trip in an append-only history.
 *
 * Positions are `Point` values here. In the original, `position`,
 * `position_at_assignment` and the request's points are shared objects that
 * `+=` changes in place; that sharing is not part of this class (see the
 * module `AliasedTrip`).
 */
module Drivers {
  import opened Wrappers
  import opened Geometry
  import opened Requests
  import opened DriverStatuses
  import opened Behaviours

  /** `ARRIVAL_EPSILON` */
  const ArrivalEpsilon: real := 0.001

  /**
   * One history entry. `complete_dropoff` writes the first five keys; `served`
   * is the optional numeric "served" key that the performance rule reads
   * (None when it is missing or not a number).
   */
  datatype TripRecord = TripRecord(
    driverId: int,
    requestId: int,
    completionTime: int,
    earnings: real,
    totalDistance: real,
    served: Option<real>)

  // ---------------------------------------------------------------------------
  // Movement

  /** The target of a driver holding `q` with status `status`; `Driver.TargetPoint` reads it off the driver. */
  function Heading(q: Request?, status: DriverStatus): Option<Point> {
    if q == null || status == Idle then None
    else if status == ToPickup then Some(q.pickup)
    else if status == ToDropoff then Some(q.dropoff)
    else None
  }

  /**
   * One `step`: move `movement` units from `position` toward `target`, or onto
   * the target when it is at most that far away.
   */
  function StepToward(position: Point, target: Point, movement: real, dist: Metric): Point
    requires 0.0 <= movement
  {
    var distance := dist(position, target);
    if distance <= movement then target
    else position.Add(target.Sub(position).Scale(movement / distance))
  }

  /** Squared distances to a point on the segment from p to q, a fraction k of the way. */
  lemma SqDistAlongSegment(p: Point, q: Point, k: real)
    ensures SqDist(p.Add(q.Sub(p).Scale(k)), q) == Sq(1.0 - k) * SqDist(p, q)
    ensures SqDist(p, p.Add(q.Sub(p).Scale(k))) == Sq(k) * SqDist(p, q)
  {
    var r := p.Add(q.Sub(p).Scale(k));
    assert r.x - q.x == (1.0 - k) * (p.x - q.x);
    assert r.y - q.y == (1.0 - k) * (p.y - q.y);
    assert p.x - r.x == k * (p.x - q.x);
    assert p.y - r.y == k * (p.y - q.y);
    SqOfProduct(1.0 - k, p.x - q.x);
    SqOfProduct(1.0 - k, p.y - q.y);
    SqOfProduct(k, p.x - q.x);
    SqOfProduct(k, p.y - q.y);
  }

  lemma SqOfProduct(a: real, b: real)
    ensures Sq(a * b) == Sq(a) * Sq(b)
  {
  }

  lemma FractionTimesWhole(m: real, d: real)
    requires d != 0.0
    ensures (m / d) * d == m
  {
  }

  /**
   * `step` never overshoots: a target within reach is reached exactly;
   * otherwise the driver covers exactly `movement` and the remaining distance
   * shrinks by exactly that much.
   */
  lemma StepTowardNoOvershoot(dist: Metric, position: Point, target: Point, movement: real)
    requires Euclidean(dist) && 0.0 <= movement
    ensures dist(position, target) <= movement ==> StepToward(position, target, movement, dist) == target
    ensures movement < dist(position, target) ==>
      dist(StepToward(position, target, movement, dist), target) == dist(position, target) - movement
      && dist(position, StepToward(position, target, movement, dist)) == movement
  {
    var d := dist(position, target);
    if movement < d {
      var k := movement / d;
      var r := position.Add(target.Sub(position).Scale(k));
      assert StepToward(position, target, movement, dist) == r;
      assert MeasuresPair(dist, position, target) && MeasuresPair(dist, r, target);
      assert MeasuresPair(dist, position, r);
      FractionTimesWhole(movement, d);
      SqDistAlongSegment(position, target, k);
      assert SqDist(position, target) == Sq(d);
      SqOfProduct(1.0 - k, d);
      SqOfProduct(k, d);
      assert (1.0 - k) * d == d - movement;
      assert Sq(dist(r, target)) == Sq(d - movement);
      SquareRootUnique(dist(r, target), d - movement);
      assert Sq(dist(position, r)) == Sq(movement);
      SquareRootUnique(dist(position, r), movement);
    }
  }

  /** A driver at (0,0) with speed 2 heading for (10,0) is at (2,0) after one tick. */
  lemma StepTowardExample(dist: Metric)
    requires Euclidean(dist)
    ensures StepToward(Point(0.0, 0.0), Point(10.0, 0.0), 2.0 * 1.0, dist) == Point(2.0, 0.0)
  {
    DistAlongAxis(dist, Point(0.0, 0.0), Point(10.0, 0.0));
    StepTowardTenUnits(dist);
  }

  lemma StepTowardTenUnits(dist: Metric)
    requires dist(Point(0.0, 0.0), Point(10.0, 0.0)) == 10.0
    ensures StepToward(Point(0.0, 0.0), Point(10.0, 0.0), 2.0 * 1.0, dist) == Point(2.0, 0.0)
  {
    var d := dist(Point(0.0, 0.0), Point(10.0, 0.0));
    var k := 2.0 / d;
    assert k == 0.2;
    assert StepToward(Point(0.0, 0.0), Point(10.0, 0.0), 2.0 * 1.0, dist)
        == Point(0.0, 0.0).Add(Point(10.0, 0.0).Sub(Point(0.0, 0.0)).Scale(k));
  }

  // ---------------------------------------------------------------------------
  // The driver

  class Driver {
    const id: int
    const speed: real
    var position: Point
    var behaviour: Behaviour
    var status: DriverStatus
    var currentRequest: Request?
    var positionAtAssignment: Option<Point>
    var assignedReward: real
    var history: seq<TripRecord>

    function View(): DriverView
      reads this
    {
      DriverView(id, position, speed, status)
    }

    /**
     * `Driver(driver_id, position, speed, behaviour, status, current_request,
     * history)`: no assignment position, reward 0.0, and the given history (an
     * empty or missing one both give an empty history).
     */
    constructor (driverId: int, position: Point, speed: real, behaviour: Behaviour,
                 status: DriverStatus, currentRequest: Request?, history: seq<TripRecord>)
      ensures id == driverId && this.position == position && this.speed == speed
      ensures this.behaviour == behaviour && this.status == status
      ensures this.currentRequest == currentRequest && this.history == history
      ensures positionAtAssignment == None && assignedReward == 0.0
    {
      id := driverId;
      this.position := position;
      this.speed := speed;
      this.behaviour := behaviour;
      this.status := status;
      this.currentRequest := currentRequest;
      positionAtAssignment := None;
      assignedReward := 0.0;
      this.history := history;
    }

    /**
     * `target_point`: the pickup while heading to it, the dropoff while
     * heading to it, and nothing without a request, when IDLE, or for an
     * unrecognised status.
     */
    function TargetPoint(): (target: Option<Point>)
      reads this
      ensures target.Some? <==> currentRequest != null && (status == ToPickup || status == ToDropoff)
      ensures currentRequest != null && status == ToPickup ==> target == Some(currentRequest.pickup)
      ensures currentRequest != null && status == ToDropoff ==> target == Some(currentRequest.dropoff)
    {
      Heading(currentRequest, status)
    }

    /** `_is_at_target`: within `ARRIVAL_EPSILON` of a target, inclusive. */
    predicate IsAtTarget(target: Option<Point>, dist: Metric)
      reads this
    {
      target.Some? && dist(position, target.value) <= ArrivalEpsilon
    }

    /** `at_pickup`: heading to the pickup and within `ARRIVAL_EPSILON` of it. */
    predicate AtPickup(dist: Metric): (arrived: bool)
      reads this
      ensures arrived <==> currentRequest != null && status == ToPickup
                           && dist(position, currentRequest.pickup) <= 0.001
      ensures arrived ==> IsAtTarget(TargetPoint(), dist)
    {
      if currentRequest == null || status != ToPickup then false
      else IsAtTarget(Some(currentRequest.pickup), dist)
    }

    /** `at_dropoff`: heading to the dropoff and within `ARRIVAL_EPSILON` of it. */
    predicate AtDropoff(dist: Metric): (arrived: bool)
      reads this
      ensures arrived <==> currentRequest != null && status == ToDropoff
                           && dist(position, currentRequest.dropoff) <= 0.001
      ensures arrived ==> IsAtTarget(TargetPoint(), dist)
    {
      if currentRequest == null || status != ToDropoff then false
      else IsAtTarget(Some(currentRequest.dropoff), dist)
    }

    /**
     * `assign_request(request, assignment_meta, reward)`. The reward is the
     * given one, or 0.0 without one, whatever the legacy second argument is.
     * `assignmentMeta` is Some exactly when that argument is a number.
     */
    method AssignRequest(request: Request, assignmentMeta: Option<real>, reward: Option<real>)
      modifies this, request
      ensures positionAtAssignment == Some(old(position)) && currentRequest == request
      ensures status == ToPickup
      ensures assignedReward == (if reward.Some? then reward.value else 0.0)
      ensures request.status == Assigned && request.assignedDriverId == Some(id)
      ensures request.waitTime == old(request.waitTime)
      ensures position == old(position) && behaviour == old(behaviour) && history == old(history)
    {
      positionAtAssignment := Some(position);
      currentRequest := request;
      if reward.None? && assignmentMeta.Some? {
        assignedReward := 0.0;
      } else {
        assignedReward := if reward.Some? then reward.value else 0.0;
      }
      status := ToPickup;
      request.MarkAssigned(id);
    }

    /**
     * `step(dt)`: no movement without a target; otherwise `speed * dt` units
     * toward it, snapping onto it when it is within reach.
     */
    method Step(dt: real, dist: Metric)
      requires 0.0 <= speed * dt
      modifies this
      ensures TargetPoint() == old(TargetPoint())
      ensures old(TargetPoint()).None? ==> position == old(position)
      ensures old(TargetPoint()).Some? ==>
        position == StepToward(old(position), old(TargetPoint()).value, speed * dt, dist)
      ensures status == old(status) && currentRequest == old(currentRequest)
      ensures positionAtAssignment == old(positionAtAssignment)
      ensures assignedReward == old(assignedReward) && behaviour == old(behaviour)
      ensures history == old(history)
    {
      var destination := TargetPoint();
      if destination.None? {
        return;
      }
      var distance := dist(position, destination.value);
      var movement := speed * dt;
      if distance <= movement {
        position := destination.value;
      } else {
        var ratio := movement / distance;
        var direction := destination.value.Sub(position);
        var travel := direction.Scale(ratio);
        position := position.Add(travel);
      }
    }

    /** `complete_pickup(time)`: only a driver heading to a pickup moves on to the dropoff. */
    method CompletePickup(time: int)
      modifies this, currentRequest
      ensures currentRequest == old(currentRequest)
      ensures old(currentRequest != null && status == ToPickup) ==>
        status == ToDropoff && currentRequest.status == Picked
        && currentRequest.waitTime == time - currentRequest.creationTime
        && currentRequest.assignedDriverId == old(currentRequest.assignedDriverId)
      ensures !old(currentRequest != null && status == ToPickup) ==>
        status == old(status) && (currentRequest != null ==> unchanged(currentRequest))
      ensures position == old(position) && positionAtAssignment == old(positionAtAssignment)
      ensures assignedReward == old(assignedReward) && behaviour == old(behaviour)
      ensures history == old(history)
    {
      if currentRequest != null && status == ToPickup {
        status := ToDropoff;
        currentRequest.MarkPicked(time);
      }
    }

    /**
     * `complete_dropoff(time)`: only a driver heading to a dropoff with a
     * recorded assignment position delivers. It appends exactly one trip record
     * (earnings = the assigned reward, distance = assignment position to pickup
     * plus pickup to dropoff, no "served" key) and goes back to IDLE with no
     * request, no assignment position and reward 0.0.
     */
    method CompleteDropoff(time: int, dist: Metric)
      modifies this, currentRequest
      ensures old(currentRequest != null && status == ToDropoff && positionAtAssignment.Some?) ==>
        old(currentRequest).status == Delivered
        && old(currentRequest).waitTime == time - old(currentRequest).creationTime
        && old(currentRequest).assignedDriverId == old(currentRequest.assignedDriverId)
        && history == old(history) + [TripRecord(id, old(currentRequest).id, time, old(assignedReward),
             dist(old(positionAtAssignment).value, old(currentRequest).pickup)
             + dist(old(currentRequest).pickup, old(currentRequest).dropoff), None)]
        && currentRequest == null && status == Idle && positionAtAssignment == None
        && assignedReward == 0.0
      ensures !old(currentRequest != null && status == ToDropoff && positionAtAssignment.Some?) ==>
        unchanged(this) && (currentRequest != null ==> unchanged(currentRequest))
      ensures position == old(position) && behaviour == old(behaviour)
    {
      if currentRequest != null && status == ToDropoff && positionAtAssignment.Some? {
        currentRequest.MarkDelivered(time);
        var pickupPosition := currentRequest.pickup;
        var dropoffPosition := currentRequest.dropoff;
        var distanceToPickup := dist(positionAtAssignment.value, pickupPosition);
        var distanceFromPickupToDropoff := dist(pickupPosition, dropoffPosition);
        var totalDistance := distanceToPickup + distanceFromPickupToDropoff;
        var earnings := assignedReward;
        history := history + [TripRecord(id, currentRequest.id, time, earnings, totalDistance, None)];
        currentRequest := null;
        status := Idle;
        positionAtAssignment := None;
        assignedReward := 0.0;
      }
    }
  }
}
