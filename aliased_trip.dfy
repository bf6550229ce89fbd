/**
 * A driver's trip with points as shared, mutable objects, as phase2/driver.py
 * and phase2/point.py have them.
 *
 * - `assign_request` stores the driver's own position object as the
 *   assignment position.
 * - `step` moves that object in place with `+=`.
 * - A step that reaches the target makes the request's pickup object the
 *   driver's position, so later steps move the pickup.
 *
 * `complete_dropoff` then measures the trip between points that have moved:
 * the recorded `total_distance` is not the distance travelled. The model
 * `Drivers.Driver` keeps points as values, which is the corrected behaviour.
 */
module AliasedTrip {
  import opened Geometry
  import opened Wrappers
  import opened DriverStatuses
  import Requests
  import Behaviours
  import Drivers

  /** A request's two points, as objects. */
  class SharedRequest {
    const pickup: PointCell
    const dropoff: PointCell

    constructor (pickup: PointCell, dropoff: PointCell)
      ensures this.pickup == pickup && this.dropoff == dropoff
    {
      this.pickup := pickup;
      this.dropoff := dropoff;
    }
  }

  /** The part of the driver that moves and records trips, with positions as objects. */
  class AliasedDriver {
    const speed: real
    var position: PointCell
    var positionAtAssignment: PointCell?
    var request: SharedRequest?
    var status: DriverStatus
    /** The `total_distance` of each history entry. */
    var recorded: seq<real>

    constructor (position: PointCell, speed: real)
      ensures this.position == position && this.speed == speed
      ensures positionAtAssignment == null && request == null && status == Idle && recorded == []
    {
      this.position := position;
      this.speed := speed;
      positionAtAssignment := null;
      request := null;
      status := Idle;
      recorded := [];
    }

    /** `target_point()`: the object the driver is heading for. */
    function Target(): (target: PointCell?)
      reads this, request
      ensures target != null <==> request != null && (status == ToPickup || status == ToDropoff)
    {
      if request == null then null
      else if status == ToPickup then request.pickup
      else if status == ToDropoff then request.dropoff
      else null
    }

    /** `assign_request`: the assignment position is the position object itself. */
    method AssignRequest(r: SharedRequest)
      modifies this
      ensures positionAtAssignment == position == old(position)
      ensures request == r && status == ToPickup && recorded == old(recorded)
    {
      positionAtAssignment := position;
      request := r;
      status := ToPickup;
    }

    /**
     * `step(dt)`: reaching the target makes the target object the position;
     * otherwise the position object itself moves, and so does every name for it.
     */
    method Step(dt: real, dist: Metric)
      requires 0.0 <= speed * dt
      modifies this, position
      ensures old(Target()) == null ==> position == old(position) && unchanged(old(position))
      ensures old(Target()) != null && old(dist(position.Value(), Target().Value())) <= speed * dt ==>
        position == old(Target()) && unchanged(old(position))
      ensures old(Target()) != null && old(dist(position.Value(), Target().Value())) > speed * dt ==>
        position == old(position)
        && position.Value() == Drivers.StepToward(old(position.Value()), old(Target().Value()), speed * dt, dist)
      ensures request == old(request) && status == old(status)
      ensures positionAtAssignment == old(positionAtAssignment) && recorded == old(recorded)
    {
      var destination := Target();
      if destination == null {
        return;
      }
      var distance := dist(position.Value(), destination.Value());
      var movement := speed * dt;
      if distance <= movement {
        position := destination;
      } else {
        var travel := destination.Value().Sub(position.Value()).Scale(movement / distance);
        var _ := position.AddInPlace(travel);
      }
    }

    /** `complete_pickup`: a driver heading to the pickup heads to the dropoff. */
    method CompletePickup()
      modifies this
      ensures old(request != null && status == ToPickup) ==> status == ToDropoff
      ensures !old(request != null && status == ToPickup) ==> status == old(status)
      ensures position == old(position) && request == old(request)
      ensures positionAtAssignment == old(positionAtAssignment) && recorded == old(recorded)
    {
      if request != null && status == ToPickup {
        status := ToDropoff;
      }
    }

    /**
     * `complete_dropoff`: records the distance from the assignment position
     * object to the pickup object plus the pickup to the dropoff, measured on
     * whatever those objects hold now.
     */
    method CompleteDropoff(dist: Metric)
      modifies this
      ensures old(request != null && status == ToDropoff && positionAtAssignment != null) ==>
        recorded == old(recorded) + [dist(old(positionAtAssignment.Value()), old(request.pickup.Value()))
                                     + dist(old(request.pickup.Value()), old(request.dropoff.Value()))]
        && status == Idle && request == null && positionAtAssignment == null
      ensures !old(request != null && status == ToDropoff && positionAtAssignment != null) ==> unchanged(this)
      ensures position == old(position)
    {
      if request != null && status == ToDropoff && positionAtAssignment != null {
        var pickupPosition := request.pickup;
        var dropoffPosition := request.dropoff;
        var distanceToPickup := dist(positionAtAssignment.Value(), pickupPosition.Value());
        var distanceFromPickupToDropoff := dist(pickupPosition.Value(), dropoffPosition.Value());
        recorded := recorded + [distanceToPickup + distanceFromPickupToDropoff];
        request := null;
        status := Idle;
        positionAtAssignment := null;
      }
    }
  }

  /** The distances along the example trip: 4 to the pickup and 4 on to the dropoff, in steps of 2. */
  ghost predicate ExampleDistances(dist: Metric) {
    dist(Point(0.0, 0.0), Point(4.0, 0.0)) == 4.0 && dist(Point(2.0, 0.0), Point(4.0, 0.0)) == 2.0
    && dist(Point(4.0, 0.0), Point(4.0, 4.0)) == 4.0 && dist(Point(4.0, 2.0), Point(4.0, 4.0)) == 2.0
  }

  lemma ExampleLegs(dist: Metric)
    requires Euclidean(dist)
    ensures ExampleDistances(dist)
    ensures dist(Point(2.0, 0.0), Point(4.0, 2.0)) != 6.0
  {
    DistAlongAxis(dist, Point(0.0, 0.0), Point(4.0, 0.0));
    DistAlongAxis(dist, Point(2.0, 0.0), Point(4.0, 0.0));
    DistAlongVertical(dist, Point(4.0, 0.0), Point(4.0, 4.0));
    DistAlongVertical(dist, Point(4.0, 2.0), Point(4.0, 4.0));
    RootOfEightIsNotSix(dist);
  }

  /** Tick 1 of the example trip: from (0,0), 4 units from the pickup, to (2,0). */
  lemma FirstStep(dist: Metric)
    requires dist(Point(0.0, 0.0), Point(4.0, 0.0)) == 4.0
    ensures Drivers.StepToward(Point(0.0, 0.0), Point(4.0, 0.0), 2.0 * 1.0, dist) == Point(2.0, 0.0)
  {
    assert 2.0 * 1.0 / 4.0 == 0.5;
  }

  /** Tick 3 of the example trip: from the pickup (4,0), 4 units from the dropoff, to (4,2). */
  lemma ThirdStep(dist: Metric)
    requires dist(Point(4.0, 0.0), Point(4.0, 4.0)) == 4.0
    ensures Drivers.StepToward(Point(4.0, 0.0), Point(4.0, 4.0), 2.0 * 1.0, dist) == Point(4.0, 2.0)
  {
    assert 2.0 * 1.0 / 4.0 == 0.5;
  }

  /**
   * A driver at (0,0) with speed 2 takes a request from (4,0) to (4,4), one
   * step per tick. It drives 4 to the pickup and 4 to the dropoff, but the
   * recorded distance is from (2,0) to (4,2) plus (4,2) to (4,4), which is
   * sqrt(8) + 2, not 8. The request's own pickup ends up at (4,2).
   */
  method AliasedTripExample(dist: Metric) returns (recorded: real, finalPickup: Point)
    requires Euclidean(dist)
    ensures recorded == dist(Point(2.0, 0.0), Point(4.0, 2.0)) + 2.0
    ensures recorded != 8.0
    ensures finalPickup == Point(4.0, 2.0)
  {
    ExampleLegs(dist);
    FirstStep(dist);
    ThirdStep(dist);
    recorded, finalPickup := AliasedTripRun(dist, Point(0.0, 0.0), Point(4.0, 0.0), Point(4.0, 4.0),
                                            Point(2.0, 0.0), Point(4.0, 2.0));
  }

  /**
   * A trip from `start` to `pickup` to `dropoff` at speed 2 over four ticks:
   * tick 1 stops short of the pickup at `first`, tick 2 reaches it, tick 3
   * stops short of the dropoff at `third`, tick 4 reaches it. The recorded
   * distance is measured from `first` to `third` to the dropoff, and the
   * request's pickup is left at `third`.
   */
  method AliasedTripRun(dist: Metric, start: Point, pickup: Point, dropoff: Point, first: Point, third: Point)
    returns (recorded: real, finalPickup: Point)
    requires dist(start, pickup) > 2.0 && Drivers.StepToward(start, pickup, 2.0, dist) == first
    requires dist(first, pickup) <= 2.0
    requires dist(pickup, dropoff) > 2.0 && Drivers.StepToward(pickup, dropoff, 2.0, dist) == third
    requires dist(third, dropoff) <= 2.0
    ensures recorded == dist(first, third) + dist(third, dropoff)
    ensures finalPickup == third
  {
    var startCell := new PointCell(start);
    var pickupCell := new PointCell(pickup);
    var dropoffCell := new PointCell(dropoff);
    var request := new SharedRequest(pickupCell, dropoffCell);
    var driver := new AliasedDriver(startCell, 2.0);
    driver.AssignRequest(request);
    DriveToPickup(dist, driver, startCell, pickupCell, start, pickup, first);
    recorded := DeliverFromPickup(dist, driver, startCell, pickupCell, dropoffCell, first, pickup, dropoff, third);
    finalPickup := pickupCell.Value();
  }

  /**
   * Ticks 1 and 2 of the trip and the pickup, for a driver just assigned the
   * request: the assignment position object is the position object, so it
   * moves to `first`, and then the pickup object becomes the position.
   */
  method DriveToPickup(dist: Metric, driver: AliasedDriver, startCell: PointCell, pickupCell: PointCell,
                       start: Point, pickup: Point, first: Point)
    requires driver.speed == 2.0 && driver.status == ToPickup && driver.request != null
    requires driver.request.pickup == pickupCell && driver.request.dropoff != startCell
    requires driver.position == startCell && driver.positionAtAssignment == startCell && startCell != pickupCell
    requires startCell.Value() == start && pickupCell.Value() == pickup
    requires dist(start, pickup) > 2.0 && Drivers.StepToward(start, pickup, 2.0, dist) == first
    requires dist(first, pickup) <= 2.0
    modifies driver, startCell
    ensures driver.status == ToDropoff && driver.request == old(driver.request)
    ensures driver.position == pickupCell && driver.positionAtAssignment == startCell
    ensures startCell.Value() == first && pickupCell.Value() == pickup
  {
    // Tick 1: the position object, which is also the assignment position, moves to `first`.
    driver.Step(1.0, dist);
    // Tick 2: the pickup is within reach; the pickup object becomes the position.
    driver.Step(1.0, dist);
    driver.CompletePickup();
  }

  /**
   * Ticks 3 and 4 of the trip and the delivery, for a driver whose position
   * object is the request's pickup object and whose assignment position
   * object holds `first`.
   */
  method DeliverFromPickup(dist: Metric, driver: AliasedDriver, startCell: PointCell, pickupCell: PointCell,
                           dropoffCell: PointCell, first: Point, pickup: Point, dropoff: Point, third: Point)
    returns (recorded: real)
    requires driver.speed == 2.0 && driver.status == ToDropoff && driver.request != null
    requires driver.request.pickup == pickupCell && driver.request.dropoff == dropoffCell
    requires driver.position == pickupCell && driver.positionAtAssignment == startCell
    requires startCell != pickupCell && startCell != dropoffCell && pickupCell != dropoffCell
    requires startCell.Value() == first && pickupCell.Value() == pickup && dropoffCell.Value() == dropoff
    requires dist(pickup, dropoff) > 2.0 && Drivers.StepToward(pickup, dropoff, 2.0, dist) == third
    requires dist(third, dropoff) <= 2.0
    modifies driver, pickupCell
    ensures recorded == dist(first, third) + dist(third, dropoff)
    ensures pickupCell.Value() == third
  {
    // Tick 3: moving toward the dropoff moves the pickup object to `third`.
    driver.Step(1.0, dist);
    // Tick 4: the dropoff is within reach.
    driver.Step(1.0, dist);
    driver.CompleteDropoff(dist);
    recorded := driver.recorded[|driver.recorded| - 1];
  }

  /** The distance from (2,0) to (4,2) is the square root of 8, so it is not 6. */
  lemma RootOfEightIsNotSix(dist: Metric)
    requires Euclidean(dist)
    ensures dist(Point(2.0, 0.0), Point(4.0, 2.0)) != 6.0
  {
    assert MeasuresPair(dist, Point(2.0, 0.0), Point(4.0, 2.0));
    assert Sq(6.0) == 36.0;
  }

  /**
   * The same trip with points as values: the recorded distance is the 4
   * units to the pickup plus the 4 units to the dropoff.
   */
  method CorrectedTripExample(dist: Metric) returns (recorded: real)
    requires Euclidean(dist)
    ensures recorded == 8.0
  {
    ExampleLegs(dist);
    recorded := CorrectedTripRun(dist, Point(0.0, 0.0), Point(4.0, 0.0), Point(4.0, 4.0));
  }

  /**
   * The trip from `start` to `pickup` to `dropoff` with points as values:
   * whatever the steps do, the recorded distance is the distance from the
   * start to the pickup plus the pickup to the dropoff.
   */
  method CorrectedTripRun(dist: Metric, start: Point, pickup: Point, dropoff: Point) returns (recorded: real)
    ensures recorded == dist(start, pickup) + dist(pickup, dropoff)
  {
    var request := new Requests.Request(7, pickup, dropoff, 0);
    var driver := new Drivers.Driver(1, start, 2.0, Behaviours.Lazy(1), Idle, null, []);
    driver.AssignRequest(request, None, None);
    driver.Step(1.0, dist);
    driver.Step(1.0, dist);
    driver.CompletePickup(2);
    driver.Step(1.0, dist);
    driver.Step(1.0, dist);
    driver.CompleteDropoff(4, dist);
    recorded := driver.history[|driver.history| - 1].totalDistance;
  }
}
