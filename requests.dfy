/**
 * A customer order and its lifecycle (phase2/request.py).
 *
 * The status is a free-form label in the original; the five lifecycle labels
 * are constructors here and any other label is `Unrecognised`. None of the
 * setters looks at the current status: the guards live in their callers.
 */
module Requests {
  import opened Wrappers
  import opened Geometry

  /** `Unrecognised(name)` stands for a label other than the five lifecycle names. */
  datatype RequestStatus = Waiting | Assigned | Picked | Delivered | Expired | Unrecognised(name: string)

  /** A copy of every field of a request, for stages that only read requests. */
  datatype RequestView = RequestView(
    id: int,
    pickup: Point,
    dropoff: Point,
    creationTime: int,
    status: RequestStatus,
    assignedDriverId: Option<int>,
    waitTime: int)

  class Request {
    const id: int
    const pickup: Point
    const dropoff: Point
    const creationTime: int
    var status: RequestStatus
    var assignedDriverId: Option<int>
    var waitTime: int

    function View(): RequestView
      reads this
    {
      RequestView(id, pickup, dropoff, creationTime, status, assignedDriverId, waitTime)
    }

    /** A new request is WAITING, unassigned, and has waited for 0 ticks. */
    constructor (id: int, pickup: Point, dropoff: Point, creationTime: int)
      ensures this.id == id && this.pickup == pickup && this.dropoff == dropoff
      ensures this.creationTime == creationTime
      ensures status == Waiting && assignedDriverId == None && waitTime == 0
    {
      this.id := id;
      this.pickup := pickup;
      this.dropoff := dropoff;
      this.creationTime := creationTime;
      status := Waiting;
      assignedDriverId := None;
      waitTime := 0;
    }

    /** `is_active`: the status is one of the five lifecycle labels. */
    predicate IsActive(): (active: bool)
      reads this
      ensures active <==> !status.Unrecognised?
    {
      status in {Waiting, Assigned, Picked, Delivered, Expired}
    }

    /** `mark_assigned(d)`: ASSIGNED to driver `d`, whatever the status was. */
    method MarkAssigned(driverId: int)
      modifies this
      ensures status == Assigned && assignedDriverId == Some(driverId)
      ensures waitTime == old(waitTime)
      ensures IsActive()
    {
      status := Assigned;
      assignedDriverId := Some(driverId);
    }

    /** `mark_picked(t)`: PICKED, and the wait is the time since creation. */
    method MarkPicked(t: int)
      modifies this
      ensures status == Picked && waitTime == t - creationTime
      ensures assignedDriverId == old(assignedDriverId)
      ensures IsActive()
    {
      status := Picked;
      waitTime := t - creationTime;
    }

    /** `mark_delivered(t)`: DELIVERED, and the wait is recomputed from creation. */
    method MarkDelivered(t: int)
      modifies this
      ensures status == Delivered && waitTime == t - creationTime
      ensures assignedDriverId == old(assignedDriverId)
      ensures IsActive()
    {
      status := Delivered;
      waitTime := t - creationTime;
    }

    /** `mark_expired(t)`: EXPIRED, and the wait is the time since creation. */
    method MarkExpired(t: int)
      modifies this
      ensures status == Expired && waitTime == t - creationTime
      ensures assignedDriverId == old(assignedDriverId)
      ensures IsActive()
    {
      status := Expired;
      waitTime := t - creationTime;
    }

    /** `update_wait(t)`: only the wait changes; the status stays. */
    method UpdateWait(currentTime: int)
      modifies this
      ensures waitTime == currentTime - creationTime
      ensures status == old(status) && assignedDriverId == old(assignedDriverId)
    {
      waitTime := currentTime - creationTime;
    }
  }
}
