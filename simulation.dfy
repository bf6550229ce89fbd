/**
 * The engine (phase2/delivery_simulation.py): a clock, the drivers, the
 * requests and four counters, advanced one tick at a time through eight
 * stages. Each stage is a method on the objects, proved against the value
 * function of module `EngineStages` that describes it.
 *
 * The request generator and the random draws of the mutation rule are
 * parameters of `Tick`: the requests generated this tick and one draw per
 * driver.
 */
module Simulation {
  import opened Wrappers
  import opened Geometry
  import opened Requests
  import opened DriverStatuses
  import opened Behaviours
  import opened Dispatch
  import opened Drivers
  import opened EngineStages
  import MutationRules

  /** The views of a list of requests, position by position. */
  function RequestViews(rs: seq<Request>): (views: seq<RequestView>)
    reads rs
    ensures |views| == |rs|
    ensures forall i :: 0 <= i < |rs| ==> views[i] == rs[i].View()
  {
    if |rs| == 0 then [] else RequestViews(rs[..|rs| - 1]) + [rs[|rs| - 1].View()]
  }

  /** The views of a list of drivers, position by position. */
  function DriverViews(ds: seq<Driver>): (views: seq<DriverView>)
    reads ds
    ensures |views| == |ds|
    ensures forall i :: 0 <= i < |ds| ==> views[i] == ds[i].View()
  {
    if |ds| == 0 then [] else DriverViews(ds[..|ds| - 1]) + [ds[|ds| - 1].View()]
  }

  /** The behaviours of a list of drivers, position by position. */
  function BehavioursOf(ds: seq<Driver>): (bs: seq<Behaviour>)
    reads ds
    ensures |bs| == |ds|
    ensures forall i :: 0 <= i < |ds| ==> bs[i] == ds[i].behaviour
  {
    if |ds| == 0 then [] else BehavioursOf(ds[..|ds| - 1]) + [ds[|ds| - 1].behaviour]
  }

  /** The positions of a list of drivers, position by position. */
  function PositionsOf(ds: seq<Driver>): (ps: seq<Point>)
    reads ds
    ensures |ps| == |ds|
    ensures forall i :: 0 <= i < |ds| ==> ps[i] == ds[i].position
  {
    if |ds| == 0 then [] else PositionsOf(ds[..|ds| - 1]) + [ds[|ds| - 1].position]
  }

  /** Where each driver of a list is heading, position by position. */
  function TargetsOf(ds: seq<Driver>): (ts: seq<Option<Point>>)
    reads ds
    ensures |ts| == |ds|
    ensures forall i :: 0 <= i < |ds| ==> ts[i] == ds[i].TargetPoint()
  {
    if |ds| == 0 then [] else TargetsOf(ds[..|ds| - 1]) + [ds[|ds| - 1].TargetPoint()]
  }

  /** Every field of a driver that the engine may change. */
  datatype DriverFields = DriverFields(
    position: Point,
    behaviour: Behaviour,
    status: DriverStatus,
    currentRequest: Request?,
    positionAtAssignment: Option<Point>,
    assignedReward: real,
    history: seq<TripRecord>)

  /** The changeable fields of `d`: two drivers with equal fields are in the same state. */
  function Fields(d: Driver): DriverFields
    reads d
  {
    DriverFields(d.position, d.behaviour, d.status, d.currentRequest, d.positionAtAssignment,
                 d.assignedReward, d.history)
  }

  /** The fields of a list of drivers, position by position. */
  function FieldsOfAll(ds: seq<Driver>): (fs: seq<DriverFields>)
    reads ds
    ensures |fs| == |ds|
    ensures forall i {:trigger fs[i]} :: 0 <= i < |ds| ==> fs[i] == Fields(ds[i])
  {
    if |ds| == 0 then [] else FieldsOfAll(ds[..|ds| - 1]) + [Fields(ds[|ds| - 1])]
  }

  /** Where each driver of a list stands, with what behaviour, and where it heads. */
  datatype Places = Places(positions: seq<Point>, behaviours: seq<Behaviour>, targets: seq<Option<Point>>)
  {
    /** These are the positions, behaviours and targets of `fields`. */
    predicate ReadOff(fields: seq<DriverFields>) {
      |positions| == |behaviours| == |targets| == |fields|
      && forall k :: 0 <= k < |fields| ==>
        positions[k] == fields[k].position && behaviours[k] == fields[k].behaviour
        && targets[k] == Heading(fields[k].currentRequest, fields[k].status)
    }
  }

  /** The entries of `views` at the positions `at`, in that order. */
  function Select(views: seq<RequestView>, at: seq<nat>): (selected: seq<RequestView>)
    requires forall k :: 0 <= k < |at| ==> at[k] < |views|
    ensures |selected| == |at|
    ensures forall k :: 0 <= k < |at| ==> selected[k] == views[at[k]]
  {
    if |at| == 0 then [] else Select(views, at[..|at| - 1]) + [views[at[|at| - 1]]]
  }

  /** Where `step(dt)` leaves a driver: in place without a target, else `movement` toward it. */
  function AfterStep(position: Point, target: Option<Point>, movement: real, dist: Metric): (p: Point)
    requires 0.0 <= movement
    ensures target.None? ==> p == position
  {
    if target.None? then position else StepToward(position, target.value, movement, dist)
  }

  /** The number of deliveries among the events. */
  function Deliveries(events: seq<Arrival>): (n: nat)
    ensures n <= |events|
  {
    if |events| == 0 then 0
    else Deliveries(events[..|events| - 1]) + (if events[|events| - 1].droppedOff then 1 else 0)
  }

  /** A request a driver is serving: assigned to it, or picked up. */
  predicate InService(s: RequestStatus) {
    s == Assigned || s == Picked
  }

  /** A driver's trip fields, with a copy of the request it holds. */
  function TripOf(d: Driver): (t: Trip)
    reads d, d.currentRequest
    ensures t.status == d.status && (t.held.Some? <==> d.currentRequest != null)
  {
    Trip(if d.currentRequest == null then None else Some(d.currentRequest.View()),
         d.status, d.positionAtAssignment, d.assignedReward, d.history)
  }

  /** `d` holds `q` when `t` holds a request, nothing otherwise, and its trip fields are those of `t`. */
  ghost predicate HasTrip(d: Driver, q: Request?, t: Trip)
    reads d, q
  {
    (if t.held.Some? then q != null && d.currentRequest == q && q.View() == t.held.value
     else d.currentRequest == null)
    && d.status == t.status && d.positionAtAssignment == t.positionAtAssignment
    && d.assignedReward == t.reward && d.history == t.history
  }

  /** What a driver was about to do at the start of the movement stage. */
  datatype Leg = Leg(position: Point, target: Option<Point>, request: Request?, trip: Trip, behaviour: Behaviour)

  /**
   * One step of the movement stage, for the proofs: the driver at `i` of
   * `legs` moved with arrival checks `e`, after the drivers before it
   * produced `events`; `served` and `completed` are the counters before the
   * stage.
   */
  datatype MoveStep = MoveStep(i: nat, legs: seq<Leg>, events: seq<Arrival>, e: Arrival, served: int, completed: int)

  /** The requests the drivers hold. */
  ghost function HeldBy(ds: seq<Driver>): set<Request?>
    reads ds
  {
    set k | 0 <= k < |ds| :: ds[k].currentRequest
  }

  /** The legs of a list of drivers, position by position. */
  ghost function Legs(ds: seq<Driver>): (legs: seq<Leg>)
    reads ds, HeldBy(ds)
    ensures |legs| == |ds|
    ensures forall i :: 0 <= i < |ds| ==>
      legs[i] == Leg(ds[i].position, ds[i].TargetPoint(), ds[i].currentRequest, TripOf(ds[i]), ds[i].behaviour)
  {
    if |ds| == 0 then []
    else
      var d := ds[|ds| - 1];
      assert HeldBy(ds[..|ds| - 1]) <= HeldBy(ds);
      Legs(ds[..|ds| - 1]) + [Leg(d.position, d.TargetPoint(), d.currentRequest, TripOf(d), d.behaviour)]
  }

  /** The trips of a list of drivers, position by position. */
  ghost function TripsOf(ds: seq<Driver>): (trips: seq<Trip>)
    reads ds, HeldBy(ds)
    ensures |trips| == |ds|
    ensures forall i :: 0 <= i < |ds| ==> trips[i] == TripOf(ds[i])
  {
    if |ds| == 0 then []
    else
      assert HeldBy(ds[..|ds| - 1]) <= HeldBy(ds);
      TripsOf(ds[..|ds| - 1]) + [TripOf(ds[|ds| - 1])]
  }

  /** The trips the legs start on. */
  function LegTrips(legs: seq<Leg>): (trips: seq<Trip>)
    ensures |trips| == |legs|
    ensures forall i :: 0 <= i < |legs| ==> trips[i] == legs[i].trip
  {
    if |legs| == 0 then [] else LegTrips(legs[..|legs| - 1]) + [legs[|legs| - 1].trip]
  }

  /** The requests the legs hold. */
  ghost function LegRequests(legs: seq<Leg>): set<Request?>
  {
    set k | 0 <= k < |legs| :: legs[k].request
  }

  /**
   * Proof bookkeeping, not part of the engine: for each driver holding a
   * request, the position of that request in the request list. It is an
   * object of its own so that the stages that assign requests do not change
   * the engine's clock and counters.
   */
  class Holdings {
    ghost var at: seq<nat>

    constructor (ghost at: seq<nat>)
      ensures this.at == at
    {
      this.at := at;
    }
  }

  class DeliverySimulation {
    var time: int
    const timeout: int
    const drivers: seq<Driver>
    var requests: seq<Request>
    const policy: Policy
    const rule: MutationRules.MutationRule
    /** The distance the points measure with (`Point.distance_to`). */
    const dist: Metric
    var servedCount: int
    var expiredCount: int
    var totalWaitTime: int
    var completedDeliveries: int

    /** Where each held request sits in `requests`. */
    const holdings: Holdings

    /** Distinct driver objects with speeds that are not negative: fixed for the life of the engine. */
    predicate DriversWellFormed() {
      (forall i, j :: 0 <= i < j < |drivers| ==> drivers[i] != drivers[j])
      && (forall i :: 0 <= i < |drivers| ==> 0.0 <= drivers[i].speed)
    }

    /** Distinct request objects. */
    predicate RequestsDistinct()
      reads this
    {
      forall i, j :: 0 <= i < j < |requests| ==> requests[i] != requests[j]
    }

    /**
     * Every request a driver holds is in the request list, at `holdings.at`, and in
     * service; no request is held by two drivers.
     */
    ghost predicate Holding()
      reads this, holdings, drivers, requests
    {
      |holdings.at| == |drivers|
      && (forall i :: 0 <= i < |drivers| && drivers[i].currentRequest != null ==>
            holdings.at[i] < |requests| && requests[holdings.at[i]] == drivers[i].currentRequest
            && InService(requests[holdings.at[i]].status))
      && (forall i, j :: 0 <= i < j < |drivers| && drivers[i].currentRequest != null && drivers[j].currentRequest != null
            ==> holdings.at[i] != holdings.at[j])
    }

    /** The served and completed counters agree, and no count is negative. */
    predicate CountersAgree()
      reads this
    {
      servedCount == completedDeliveries && 0 <= servedCount && 0 <= expiredCount
    }

    /** What the engine keeps true between ticks. */
    ghost predicate Valid()
      reads this, holdings, drivers, requests
    {
      DriversWellFormed() && RequestsDistinct() && Holding() && CountersAgree()
    }

    /** A WAITING request is held by no driver. */
    lemma WaitingNotHeld(b: nat)
      requires Valid() && b < |requests| && requests[b].status == Waiting
      ensures requests[b] !in HeldBy(drivers)
    {
      forall k | 0 <= k < |drivers|
        ensures drivers[k].currentRequest != requests[b]
      {
      }
    }

    /** The position of `r` in `rs`. */
    static ghost function PositionOf(rs: seq<Request>, r: Request): (k: nat)
      requires r in rs
      ensures k < |rs| && rs[k] == r
    {
      if rs[|rs| - 1] == r then |rs| - 1 else PositionOf(rs[..|rs| - 1], r)
    }

    /**
     * `DeliverySimulation(drivers, requests, dispatch_policy,
     * request_generator, mutation_rule, timeout)`: time 0 and all counters 0.
     */
    constructor (drivers: seq<Driver>, requests: seq<Request>, policy: Policy,
                 rule: MutationRules.MutationRule, timeout: int, dist: Metric)
      requires forall i, j :: 0 <= i < j < |drivers| ==> drivers[i] != drivers[j]
      requires forall i, j :: 0 <= i < j < |requests| ==> requests[i] != requests[j]
      requires forall i :: 0 <= i < |drivers| ==> 0.0 <= drivers[i].speed
      requires forall i :: 0 <= i < |drivers| && drivers[i].currentRequest != null ==>
        drivers[i].currentRequest in requests && InService(drivers[i].currentRequest.status)
      requires forall i, j :: 0 <= i < j < |drivers| && drivers[i].currentRequest != null ==>
        drivers[i].currentRequest != drivers[j].currentRequest
      ensures this.drivers == drivers && this.requests == requests
      ensures this.policy == policy && this.rule == rule && this.timeout == timeout && this.dist == dist
      ensures time == 0 && servedCount == 0 && expiredCount == 0
      ensures totalWaitTime == 0 && completedDeliveries == 0
      ensures Valid()
    {
      time := 0;
      this.timeout := timeout;
      this.drivers := drivers;
      this.requests := requests;
      this.policy := policy;
      this.rule := rule;
      this.dist := dist;
      servedCount := 0;
      expiredCount := 0;
      totalWaitTime := 0;
      completedDeliveries := 0;
      ghost var at := seq(|drivers|, i requires 0 <= i < |drivers| reads drivers =>
        if drivers[i].currentRequest != null && drivers[i].currentRequest in requests
        then PositionOf(requests, drivers[i].currentRequest) else 0);
      holdings := new Holdings(at);
    }

    // -------------------------------------------------------------------------
    // 1) `_generate_new_requests`

    /** The generated requests join the end of the list; nothing else changes. */
    method GenerateNewRequests(generated: seq<Request>)
      requires Valid()
      requires forall i, j :: 0 <= i < j < |generated| ==> generated[i] != generated[j]
      requires forall r :: r in generated ==> r !in requests
      modifies this
      ensures requests == old(requests) + generated
      ensures time == old(time) && servedCount == old(servedCount) && expiredCount == old(expiredCount)
      ensures totalWaitTime == old(totalWaitTime) && completedDeliveries == old(completedDeliveries)
      ensures Valid()
      ensures forall k :: 0 <= k < |drivers| ==> TripOf(drivers[k]) == old(TripOf(drivers[k]))
      ensures forall k :: 0 <= k < |drivers| ==> drivers[k].position == old(drivers[k].position)
    {
      if |generated| > 0 {
        var n := |requests|;
        requests := requests + generated;
        assert forall k :: 0 <= k < n ==> requests[k] == old(requests)[k];
        assert forall k :: n <= k < |requests| ==> requests[k] == generated[k - n];
        assert forall r :: r in old(requests) ==> r in requests;
        forall i, j | 0 <= i < j < |requests|
          ensures requests[i] != requests[j]
        {
          if j >= n && i < n {
            assert requests[j] in generated;
            assert requests[i] in old(requests);
          }
        }
      }
    }

    // -------------------------------------------------------------------------
    // 2) `_update_waiting_time`

    /**
     * One request of the waiting-time update: it becomes `AfterWaitUpdate` of
     * itself; the results say whether it expired and whether it stays WAITING.
     */
    static method UpdateRequestWait(req: Request, time: int, timeout: int) returns (expired: bool, stays: bool)
      modifies req
      ensures req.View() == AfterWaitUpdate(old(req.View()), time, timeout)
      ensures expired == Expires(old(req.View()), time, timeout)
      ensures stays == StaysWaiting(old(req.View()), time, timeout)
    {
      expired, stays := false, false;
      if req.status == Waiting {
        req.UpdateWait(time);
        if req.waitTime > timeout {
          req.MarkExpired(time);
          expired := true;
        } else {
          stays := true;
        }
      }
    }

    /**
     * One turn of the loop of `_update_waiting_time`: the request at `i`
     * becomes `AfterWaitUpdate` of itself and the two results grow by what
     * it contributes; the other requests are untouched.
     */
    method UpdateAt(i: nat, ghost before: seq<RequestView>, waiting: seq<nat>, expiredNow: nat)
      returns (waiting': seq<nat>, expiredNow': nat)
      requires forall k, l :: 0 <= k < l < |requests| ==> requests[k] != requests[l]
      requires i < |requests| == |before|
      requires forall k :: 0 <= k < i ==> requests[k].View() == AfterWaitUpdate(before[k], time, timeout)
      requires forall k :: i <= k < |requests| ==> requests[k].View() == before[k]
      requires waiting == StillWaiting(before[..i], time, timeout)
      requires expiredNow == ExpiringCount(before[..i], time, timeout)
      modifies requests[i]
      ensures forall k :: 0 <= k < i + 1 ==> requests[k].View() == AfterWaitUpdate(before[k], time, timeout)
      ensures forall k :: i + 1 <= k < |requests| ==> requests[k].View() == before[k]
      ensures waiting' == StillWaiting(before[..i + 1], time, timeout)
      ensures expiredNow' == ExpiringCount(before[..i + 1], time, timeout)
    {
      assert before[..i + 1][..i] == before[..i];
      var expired, stays := UpdateRequestWait(requests[i], time, timeout);
      expiredNow' := if expired then expiredNow + 1 else expiredNow;
      waiting' := if stays then waiting + [i] else waiting;
    }

    /**
     * The loop of `_update_waiting_time` over the requests: each becomes
     * `AfterWaitUpdate` of itself; the results are the positions of the
     * requests still WAITING, in list order, and how many expired.
     */
    method UpdateEachRequest() returns (waiting: seq<nat>, expiredNow: nat)
      requires forall i, j :: 0 <= i < j < |requests| ==> requests[i] != requests[j]
      modifies requests
      ensures forall i :: 0 <= i < |requests| ==>
        requests[i].View() == AfterWaitUpdate(old(RequestViews(requests))[i], time, timeout)
      ensures forall i :: 0 <= i < |requests| && old(requests[i].status) != Waiting ==>
        requests[i].status == old(requests[i].status)
      ensures waiting == StillWaiting(old(RequestViews(requests)), time, timeout)
      ensures expiredNow == ExpiringCount(old(RequestViews(requests)), time, timeout)
    {
      ghost var before := RequestViews(requests);
      waiting := [];
      expiredNow := 0;
      var i: nat := 0;
      while i < |requests|
        invariant i <= |requests|
        invariant forall k :: 0 <= k < i ==> requests[k].View() == AfterWaitUpdate(before[k], time, timeout)
        invariant forall k :: i <= k < |requests| ==> requests[k].View() == before[k]
        invariant waiting == StillWaiting(before[..i], time, timeout)
        invariant expiredNow == ExpiringCount(before[..i], time, timeout)
      {
        waiting, expiredNow := UpdateAt(i, before, waiting, expiredNow);
        i := i + 1;
      }
      assert before[..i] == before;
    }

    /**
     * `_update_waiting_time`: every request becomes `AfterWaitUpdate` of
     * itself; the expired count grows by the requests that expire; the result
     * is the positions of the requests still WAITING, in list order.
     */
    method UpdateWaitingTime() returns (waiting: seq<nat>)
      requires Valid()
      modifies this, requests
      ensures requests == old(requests)
      ensures forall i :: 0 <= i < |requests| ==>
        requests[i].View() == AfterWaitUpdate(old(RequestViews(requests))[i], time, timeout)
      ensures waiting == StillWaiting(old(RequestViews(requests)), time, timeout)
      ensures expiredCount == old(expiredCount) + ExpiringCount(old(RequestViews(requests)), time, timeout)
      ensures time == old(time) && servedCount == old(servedCount)
      ensures totalWaitTime == old(totalWaitTime) && completedDeliveries == old(completedDeliveries)
      ensures Valid()
      ensures forall k :: 0 <= k < |drivers| ==> TripOf(drivers[k]) == old(TripOf(drivers[k]))
      ensures forall k :: 0 <= k < |drivers| ==> drivers[k].position == old(drivers[k].position)
    {
      var expiredNow;
      waiting, expiredNow := UpdateEachRequest();
      CountExpired(expiredNow);
      StageKeepsValid(this);
      StageKeepsTrips(this);
    }

    /** The expired count grows by `n`; nothing else changes. */
    method CountExpired(n: nat)
      modifies this
      ensures expiredCount == old(expiredCount) + n
      ensures time == old(time) && servedCount == old(servedCount) && requests == old(requests)
      ensures totalWaitTime == old(totalWaitTime) && completedDeliveries == old(completedDeliveries)
    {
      expiredCount := expiredCount + n;
    }

    /** Step 8 of `tick`: the clock advances by one; nothing else changes. */
    method AdvanceClock()
      requires Valid()
      modifies this
      ensures time == old(time) + 1
      ensures expiredCount == old(expiredCount) && servedCount == old(servedCount) && requests == old(requests)
      ensures totalWaitTime == old(totalWaitTime) && completedDeliveries == old(completedDeliveries)
      ensures Valid()
    {
      time := time + 1;
    }

    /**
     * A stage that changes no driver's request and no status of a request
     * in service keeps the invariant. The waiting-time update is one (a
     * request in service is not WAITING), the mutation stage another.
     */
    static twostate lemma StageKeepsValid(sim: DeliverySimulation)
      requires old(sim.Holding()) && sim.RequestsDistinct() && sim.CountersAgree() && sim.DriversWellFormed()
      requires sim.requests == old(sim.requests) && sim.holdings.at == old(sim.holdings.at)
      requires forall d :: 0 <= d < |sim.drivers| ==> sim.drivers[d].currentRequest == old(sim.drivers[d].currentRequest)
      requires forall i :: 0 <= i < |sim.requests| && old(sim.requests[i].status) != Waiting ==>
        sim.requests[i].status == old(sim.requests[i].status)
      ensures sim.Valid()
    {
    }

    /**
     * A stage that changes no driver and no request in service keeps every
     * driver's trip: a held request is in service.
     */
    static twostate lemma StageKeepsTrips(sim: DeliverySimulation)
      requires old(sim.Valid())
      requires sim.requests == old(sim.requests) && sim.holdings.at == old(sim.holdings.at)
      requires forall d :: 0 <= d < |sim.drivers| ==> Fields(sim.drivers[d]) == old(Fields(sim.drivers[d]))
      requires forall i :: 0 <= i < |sim.requests| && old(sim.requests[i].status) != Waiting ==>
        sim.requests[i].View() == old(sim.requests[i].View())
      ensures forall k :: 0 <= k < |sim.drivers| ==> TripOf(sim.drivers[k]) == old(TripOf(sim.drivers[k]))
    {
      forall k | 0 <= k < |sim.drivers|
        ensures TripOf(sim.drivers[k]) == old(TripOf(sim.drivers[k]))
      {
        if sim.drivers[k].currentRequest != null {
          assert sim.requests[sim.holdings.at[k]] == sim.drivers[k].currentRequest;
        }
      }
    }

    // -------------------------------------------------------------------------
    // 5) `_finalize_assigments`

    /** The list positions of the requests of `pairs`, `waiting` mapping their indices to positions. */
    static ghost function Targets(pairs: seq<Match>, waiting: seq<nat>): set<nat>
    {
      set j | 0 <= j < |pairs| && pairs[j].request < |waiting| :: waiting[pairs[j].request]
    }

    /** Each pair of `pairs` has its driver heading to its request, which is ASSIGNED to it. */
    ghost predicate Serving(pairs: seq<Match>, waiting: seq<nat>)
      reads this, drivers, requests
    {
      forall j :: 0 <= j < |pairs| ==>
        pairs[j].driver < |drivers| && pairs[j].request < |waiting| && waiting[pairs[j].request] < |requests|
        && drivers[pairs[j].driver].currentRequest == requests[waiting[pairs[j].request]]
        && drivers[pairs[j].driver].status == ToPickup
        && drivers[pairs[j].driver].assignedReward == 0.0
        && requests[waiting[pairs[j].request]].status == Assigned
        && requests[waiting[pairs[j].request]].assignedDriverId == Some(drivers[pairs[j].driver].id)
    }

    /**
     * `driver.assign_request(req, self.time)` for the driver at `a` and the
     * WAITING request at `p`: the driver heads to the request with reward 0.0
     * and the request is ASSIGNED to it. The invariant is kept, since a
     * WAITING request is held by no driver.
     */
    method AssignOne(a: nat, p: nat)
      requires Valid()
      requires a < |drivers| && p < |requests| && requests[p].status == Waiting
      modifies holdings, drivers[a], requests[p]
      ensures drivers[a].currentRequest == requests[p] && drivers[a].status == ToPickup
      ensures drivers[a].assignedReward == 0.0 && drivers[a].positionAtAssignment == Some(old(drivers[a].position))
      ensures requests[p].status == Assigned && requests[p].assignedDriverId == Some(drivers[a].id)
      ensures requests[p].waitTime == old(requests[p].waitTime)
      ensures drivers[a].position == old(drivers[a].position) && drivers[a].behaviour == old(drivers[a].behaviour)
      ensures drivers[a].history == old(drivers[a].history)
      ensures forall d :: 0 <= d < |drivers| && d != a ==> Fields(drivers[d]) == old(Fields(drivers[d]))
      ensures forall b :: 0 <= b < |requests| && b != p ==> requests[b].View() == old(requests[b].View())
      ensures Valid()
    {
      drivers[a].AssignRequest(requests[p], Some(time as real), None);
      holdings.at := holdings.at[a := p];
    }

    /** The list positions of the requests the pairs use: one more pair adds its own. */
    static lemma TargetsAppend(pairs: seq<Match>, m: Match, waiting: seq<nat>)
      requires m.request < |waiting|
      ensures Targets(pairs + [m], waiting) == Targets(pairs, waiting) + {waiting[m.request]}
    {
      var all := pairs + [m];
      assert all[|pairs|] == m;
      assert forall j :: 0 <= j < |pairs| ==> all[j] == pairs[j];
    }

    /**
     * From the driver fields `fields0` and request views `views0` to `fields`
     * and `views`, only the drivers and requests of `kept` have changed, and
     * each kept driver still stands where it stood, which is now its
     * assignment position, with the same behaviour and history. A kept
     * request changes only its status and its driver: its wait is kept.
     */
    static ghost predicate ChangedOnlyBy(fields0: seq<DriverFields>, views0: seq<RequestView>,
                                         fields: seq<DriverFields>, views: seq<RequestView>,
                                         kept: seq<Match>, waiting: seq<nat>)
    {
      |fields0| == |fields| && |views0| == |views|
      && (forall d {:trigger fields[d], fields0[d]} :: 0 <= d < |fields| && d in DriversOf(kept) ==>
            fields[d].position == fields0[d].position && fields[d].behaviour == fields0[d].behaviour
            && fields[d].history == fields0[d].history
            && fields[d].positionAtAssignment == Some(fields0[d].position))
      && (forall d {:trigger fields[d], fields0[d]} :: 0 <= d < |fields| && d !in DriversOf(kept) ==> fields[d] == fields0[d])
      && (forall b {:trigger views[b], views0[b]} :: 0 <= b < |views| && b !in Targets(kept, waiting) ==> views[b] == views0[b])
      && (forall b {:trigger views[b], views0[b]} :: 0 <= b < |views| && b in Targets(kept, waiting) ==>
            views[b] == views0[b].(status := views[b].status, assignedDriverId := views[b].assignedDriverId))
    }

    /** The positions, behaviours and targets of the drivers are read off their fields. */
    lemma ReadOffFields()
      ensures |FieldsOfAll(drivers)| == |PositionsOf(drivers)| == |BehavioursOf(drivers)| == |TargetsOf(drivers)|
      ensures forall k :: 0 <= k < |drivers| ==>
        PositionsOf(drivers)[k] == FieldsOfAll(drivers)[k].position
        && BehavioursOf(drivers)[k] == FieldsOfAll(drivers)[k].behaviour
        && TargetsOf(drivers)[k] == Heading(FieldsOfAll(drivers)[k].currentRequest, FieldsOfAll(drivers)[k].status)
    {
    }

    /**
     * The fields of the drivers and the views of the requests; the drivers'
     * places and trips read off them, with `at` the places of the held
     * requests.
     */
    lemma TakeSnapshots() returns (fields: seq<DriverFields>, views: seq<RequestView>, places: Places,
                                   trips: seq<Trip>, at: seq<nat>)
      requires Valid()
      ensures fields == FieldsOfAll(drivers) && views == RequestViews(requests)
      ensures places == Places(PositionsOf(drivers), BehavioursOf(drivers), TargetsOf(drivers)) && places.ReadOff(fields)
      ensures trips == TripsOf(drivers) && TripsReadOff(trips, fields, views, requests, at)
    {
      ReadOffFields();
      ReadTrips();
      fields, views := FieldsOfAll(drivers), RequestViews(requests);
      places := Places(PositionsOf(drivers), BehavioursOf(drivers), TargetsOf(drivers));
      trips, at := TripsOf(drivers), holdings.at;
    }

    /**
     * Drivers that only the pairs `kept` changed still stand where they
     * stood, with the same behaviour; the others also head where they did.
     */
    static lemma ChangesKeepPlaces(fields0: seq<DriverFields>, views0: seq<RequestView>,
                                   fields: seq<DriverFields>, views: seq<RequestView>,
                                   kept: seq<Match>, waiting: seq<nat>, places0: Places,
                                   positions: seq<Point>, behaviours: seq<Behaviour>, targets: seq<Option<Point>>)
      requires ChangedOnlyBy(fields0, views0, fields, views, kept, waiting)
      requires places0.ReadOff(fields0) && Places(positions, behaviours, targets).ReadOff(fields)
      ensures positions == places0.positions && behaviours == places0.behaviours
      ensures forall k :: 0 <= k < |fields| && k !in DriversOf(kept) ==> targets[k] == places0.targets[k]
    {
      assert forall k :: 0 <= k < |fields| ==> fields[k].position == fields0[k].position;
    }

    /**
     * Since the snapshots `fields0` and `views0`, with places `places0`,
     * only the pairs `kept` have changed: every driver stands where it stood
     * with the behaviour it had, and the others head where they did.
     */
    lemma StandAsBefore(fields0: seq<DriverFields>, views0: seq<RequestView>, kept: seq<Match>, waiting: seq<nat>,
                        places0: Places)
      requires AssignedSince(fields0, views0, kept, waiting) && places0.ReadOff(fields0)
      ensures |places0.positions| == |places0.behaviours| == |places0.targets| == |drivers|
      ensures forall k :: 0 <= k < |drivers| ==>
        drivers[k].position == places0.positions[k] && drivers[k].behaviour == places0.behaviours[k]
      ensures forall k :: 0 <= k < |drivers| && k !in DriversOf(kept) ==> drivers[k].TargetPoint() == places0.targets[k]
    {
      ReadOffFields();
      ChangesKeepPlaces(fields0, views0, FieldsOfAll(drivers), RequestViews(requests), kept, waiting,
                        places0, PositionsOf(drivers), BehavioursOf(drivers), TargetsOf(drivers));
    }

    /** Without pairs, nothing may change. */
    static lemma NoPairsNoChange(fields: seq<DriverFields>, views: seq<RequestView>, waiting: seq<nat>)
      ensures ChangedOnlyBy(fields, views, fields, views, [], waiting)
    {
      assert DriversOf([]) == {};
    }

    /** Since `fields0` and `views0` were taken, only the drivers and requests of `kept` have changed. */
    ghost predicate AssignedSince(fields0: seq<DriverFields>, views0: seq<RequestView>, kept: seq<Match>, waiting: seq<nat>)
      reads this, drivers, requests
    {
      ChangedOnlyBy(fields0, views0, FieldsOfAll(drivers), RequestViews(requests), kept, waiting)
    }

    /**
     * The trips `trips` are read off the driver fields `fields` and the
     * request views `views`: a driver holding a request holds a copy of the
     * view at its place `at` in `rs`, which is in service.
     */
    static ghost predicate TripsReadOff(trips: seq<Trip>, fields: seq<DriverFields>, views: seq<RequestView>,
                                        rs: seq<Request>, at: seq<nat>)
    {
      |trips| == |fields| == |at|
      && forall k {:trigger trips[k]} :: 0 <= k < |trips| ==>
        trips[k].status == fields[k].status && trips[k].positionAtAssignment == fields[k].positionAtAssignment
        && trips[k].reward == fields[k].assignedReward && trips[k].history == fields[k].history
        && (fields[k].currentRequest == null ==> trips[k].held.None?)
        && (fields[k].currentRequest != null ==>
              at[k] < |rs| && at[k] < |views| && rs[at[k]] == fields[k].currentRequest
              && trips[k].held == Some(views[at[k]]) && InService(views[at[k]].status))
    }

    /** The drivers' trips are read off their fields and the views of the requests they hold. */
    lemma ReadTrips()
      requires Valid()
      ensures TripsReadOff(TripsOf(drivers), FieldsOfAll(drivers), RequestViews(requests), requests, holdings.at)
    {
    }

    /**
     * The trips `trips` are the trips `trips0` of the drivers `ds` once the
     * pairs `kept` are assigned: a driver no pair took keeps its trip; a
     * kept driver heads to its pickup with reward 0.0, its position
     * `positions0` as assignment position and the same history, holding
     * its request, from `views0`, now ASSIGNED to it.
     */
    static ghost predicate AssignedTrips(ds: seq<Driver>, trips0: seq<Trip>, positions0: seq<Point>,
                                         views0: seq<RequestView>, kept: seq<Match>, waiting: seq<nat>,
                                         trips: seq<Trip>)
    {
      |trips| == |trips0| == |ds| == |positions0|
      && (forall k {:trigger trips[k]} :: 0 <= k < |trips| && k !in DriversOf(kept) ==> trips[k] == trips0[k])
      && forall j {:trigger kept[j]} :: 0 <= j < |kept| ==>
        kept[j].driver < |ds| && kept[j].request < |waiting| && waiting[kept[j].request] < |views0|
        && trips[kept[j].driver]
           == Trip(Some(views0[waiting[kept[j].request]].(status := Assigned,
                                                          assignedDriverId := Some(ds[kept[j].driver].id))),
                   ToPickup, Some(positions0[kept[j].driver]), 0.0, trips0[kept[j].driver].history)
    }

    /**
     * `t` is the trip of a driver with id `id` just assigned a request at
     * `position`: it heads to the pickup with reward 0.0, the same
     * `history`, and holds a request ASSIGNED to it.
     */
    static predicate NewAssignment(t: Trip, id: int, position: Point, history: seq<TripRecord>) {
      t.held.Some? && t.held.value.status == Assigned && t.held.value.assignedDriverId == Some(id)
      && t.status == ToPickup && t.positionAtAssignment == Some(position) && t.reward == 0.0 && t.history == history
    }

    /** Driver by driver: a trip after assignment is the trip before it, or a new assignment. */
    static lemma AssignedTripsPointwise(ds: seq<Driver>, trips0: seq<Trip>, positions0: seq<Point>,
                                        views0: seq<RequestView>, kept: seq<Match>, waiting: seq<nat>,
                                        trips: seq<Trip>)
      requires AssignedTrips(ds, trips0, positions0, views0, kept, waiting, trips)
      ensures |trips| == |ds| == |trips0| == |positions0|
      ensures forall k :: 0 <= k < |trips| ==>
        trips[k] == trips0[k] || NewAssignment(trips[k], ds[k].id, positions0[k], trips0[k].history)
    {
      forall k | 0 <= k < |trips| && k in DriversOf(kept)
        ensures NewAssignment(trips[k], ds[k].id, positions0[k], trips0[k].history)
      {
        var j :| 0 <= j < |kept| && kept[j].driver == k;
      }
    }

    /**
     * Since the trips `trips0`, read off the fields `fields0` and the views
     * `views0` with places `at0`, only the pairs `kept` have been assigned:
     * the drivers' trips are now `AssignedTrips` of `trips0`.
     */
    lemma TripsAfterAssigning(trips0: seq<Trip>, fields0: seq<DriverFields>, views0: seq<RequestView>, at0: seq<nat>,
                              places0: Places, kept: seq<Match>, waiting: seq<nat>)
      requires Valid() && Serving(kept, waiting) && AssignedSince(fields0, views0, kept, waiting)
      requires TripsReadOff(trips0, fields0, views0, requests, at0) && places0.ReadOff(fields0)
      ensures AssignedTrips(drivers, trips0, places0.positions, views0, kept, waiting, TripsOf(drivers))
    {
      var fields, views, trips := FieldsOfAll(drivers), RequestViews(requests), TripsOf(drivers);
      ReadTrips();
      forall k | 0 <= k < |trips| && k !in DriversOf(kept)
        ensures trips[k] == trips0[k]
      {
        var t0 := trips0[k];
        assert fields[k] == fields0[k];
        if fields[k].currentRequest != null {
          assert at0[k] == holdings.at[k];
          forall j | 0 <= j < |kept| && kept[j].request < |waiting|
            ensures waiting[kept[j].request] != at0[k]
          {
            var d := kept[j].driver;
            assert d in DriversOf(kept);
            assert requests[holdings.at[d]] == requests[waiting[kept[j].request]];
          }
          assert views[at0[k]] == views0[at0[k]];
        }
      }
      forall j | 0 <= j < |kept|
        ensures trips[kept[j].driver]
                == Trip(Some(views0[waiting[kept[j].request]].(status := Assigned,
                                                               assignedDriverId := Some(drivers[kept[j].driver].id))),
                        ToPickup, Some(places0.positions[kept[j].driver]), 0.0, trips0[kept[j].driver].history)
      {
        var d, w := kept[j].driver, waiting[kept[j].request];
        var t0 := trips0[d];
        assert d in DriversOf(kept);
        assert w in Targets(kept, waiting);
        assert views[w] == views0[w].(status := Assigned, assignedDriverId := Some(drivers[d].id));
        assert trips[d].held == Some(views[w]);
        assert waiting[kept[j].request] in Targets(kept, waiting);
      }
    }

    /**
     * Assigning the pair `m` after `kept` changes only its driver, which
     * stays where it stood and makes that its assignment position, and its
     * request: the pairs changed since the first snapshots are `kept + [m]`.
     */
    static lemma KeepExtendsChanges(fields0: seq<DriverFields>, views0: seq<RequestView>,
                                    fields1: seq<DriverFields>, views1: seq<RequestView>,
                                    fields2: seq<DriverFields>, views2: seq<RequestView>,
                                    kept: seq<Match>, m: Match, waiting: seq<nat>)
      requires ChangedOnlyBy(fields0, views0, fields1, views1, kept, waiting)
      requires m.driver < |fields1| && m.driver !in DriversOf(kept)
      requires m.request < |waiting| && waiting[m.request] < |views1|
      requires |fields2| == |fields1| && |views2| == |views1|
      requires forall d :: 0 <= d < |fields1| && d != m.driver ==> fields2[d] == fields1[d]
      requires forall b :: 0 <= b < |views1| && b != waiting[m.request] ==> views2[b] == views1[b]
      requires fields2[m.driver].position == fields1[m.driver].position
      requires fields2[m.driver].behaviour == fields1[m.driver].behaviour
      requires fields2[m.driver].history == fields1[m.driver].history
      requires fields2[m.driver].positionAtAssignment == Some(fields1[m.driver].position)
      requires views2[waiting[m.request]]
            == views1[waiting[m.request]].(status := views2[waiting[m.request]].status,
                                           assignedDriverId := views2[waiting[m.request]].assignedDriverId)
      ensures ChangedOnlyBy(fields0, views0, fields2, views2, kept + [m], waiting)
    {
      AppendMatch(kept, m);
      TargetsAppend(kept, m, waiting);
    }

    /** Keeping one more pair: the earlier pairs use other drivers and other requests, so they are still served. */
    method KeepPair(m: Match, waiting: seq<nat>, kept: seq<Match>)
      requires Valid()
      requires Increasing(waiting) && forall k :: 0 <= k < |waiting| ==> waiting[k] < |requests|
      requires m.driver < |drivers| && m.request < |waiting|
      requires m.driver !in DriversOf(kept) && m.request !in RequestsOf(kept)
      requires Serving(kept, waiting)
      requires forall k :: 0 <= k < |waiting| && k !in RequestsOf(kept) ==> requests[waiting[k]].status == Waiting
      modifies holdings, drivers[m.driver], requests[waiting[m.request]]
      ensures Serving(kept + [m], waiting)
      ensures forall k :: 0 <= k < |waiting| && k !in RequestsOf(kept) + {m.request} ==>
        requests[waiting[k]].status == Waiting
      ensures drivers[m.driver].position == old(drivers[m.driver].position)
      ensures drivers[m.driver].behaviour == old(drivers[m.driver].behaviour)
      ensures drivers[m.driver].history == old(drivers[m.driver].history)
      ensures drivers[m.driver].positionAtAssignment == Some(old(drivers[m.driver].position))
      ensures requests[waiting[m.request]].waitTime == old(requests[waiting[m.request]].waitTime)
      ensures forall d :: 0 <= d < |drivers| && d != m.driver ==> Fields(drivers[d]) == old(Fields(drivers[d]))
      ensures forall b :: 0 <= b < |requests| && b != waiting[m.request] ==> requests[b].View() == old(requests[b].View())
      ensures Valid()
    {
      var p := waiting[m.request];
      AssignOne(m.driver, p);
      forall j | 0 <= j < |kept|
        ensures drivers[kept[j].driver] != drivers[m.driver]
        ensures requests[waiting[kept[j].request]] != requests[p]
      {
        assert kept[j].driver in DriversOf(kept) && kept[j].request in RequestsOf(kept);
        assert waiting[kept[j].request] != waiting[m.request];
      }
      assert (kept + [m])[|kept|] == m;
      assert forall j :: 0 <= j < |kept| ==> (kept + [m])[j] == kept[j];
      assert forall k :: 0 <= k < |waiting| && k != m.request ==> waiting[k] != p;
    }

    /**
     * The loop of `_finalize_assigments` after the accepted pairs before
     * `j`: the pairs kept so far, followed by those first come first served
     * keeps from the rest, are `all`; the kept pairs are assigned, the other
     * listed requests still WAITING, and nothing else has changed since the
     * snapshots `fields0` and `views0`.
     */
    ghost predicate FinalizedUpTo(j: nat, accepted: seq<Match>, waiting: seq<nat>, statuses: seq<RequestStatus>,
                                  all: seq<Match>, kept: seq<Match>, usedDrivers: set<nat>, usedRequests: set<nat>,
                                  fields0: seq<DriverFields>, views0: seq<RequestView>)
      reads this, holdings, drivers, requests
    {
      j <= |accepted| && (forall i :: 0 <= i < |accepted| ==> accepted[i].request < |statuses|)
      && kept + FirstComeFirstServed(accepted[j..], statuses, usedDrivers, usedRequests) == all
      && usedDrivers == DriversOf(kept) && usedRequests == RequestsOf(kept)
      && Serving(kept, waiting)
      && (forall k :: 0 <= k < |waiting| ==> waiting[k] < |requests|)
      && (forall k :: 0 <= k < |waiting| && k !in usedRequests ==> requests[waiting[k]].status == Waiting)
      && AssignedSince(fields0, views0, kept, waiting)
      && Valid()
    }

    /**
     * One turn of the loop of `_finalize_assigments`, on the accepted pair at
     * `j`: skipped when its driver or its request was used earlier in the
     * tick or its request is ASSIGNED, kept and assigned otherwise.
     */
    method FinalizeOne(accepted: seq<Match>, j: nat, waiting: seq<nat>, ghost statuses: seq<RequestStatus>,
                       ghost all: seq<Match>, kept: seq<Match>, usedDrivers: set<nat>, usedRequests: set<nat>,
                       ghost fields0: seq<DriverFields>, ghost views0: seq<RequestView>)
      returns (kept': seq<Match>, usedDrivers': set<nat>, usedRequests': set<nat>)
      requires Increasing(waiting) && forall k :: 0 <= k < |waiting| ==> waiting[k] < |requests|
      requires j < |accepted| && InLists(accepted, |drivers|, |waiting|)
      requires |statuses| == |waiting| && forall k :: 0 <= k < |statuses| ==> statuses[k] == Waiting
      requires FinalizedUpTo(j, accepted, waiting, statuses, all, kept, usedDrivers, usedRequests, fields0, views0)
      modifies holdings, drivers[accepted[j].driver], requests[waiting[accepted[j].request]]
      ensures requests == old(requests)
      ensures FinalizedUpTo(j + 1, accepted, waiting, statuses, all, kept', usedDrivers', usedRequests', fields0, views0)
    {
      var m := accepted[j];
      FirstComeFirstServedStep(accepted, j, statuses, usedDrivers, usedRequests, kept, all);
      var req := requests[waiting[m.request]];
      if m.request in usedRequests || m.driver in usedDrivers || req.status == Assigned {
        assert Skipped(m, statuses, usedDrivers, usedRequests);
        kept', usedDrivers', usedRequests' := kept, usedDrivers, usedRequests;
      } else {
        ghost var fields1, views1 := FieldsOfAll(drivers), RequestViews(requests);
        KeepPair(m, waiting, kept);
        KeepExtendsChanges(fields0, views0, fields1, views1, FieldsOfAll(drivers), RequestViews(requests), kept, m, waiting);
        AppendMatch(kept, m);
        kept', usedDrivers', usedRequests' := kept + [m], usedDrivers + {m.driver}, usedRequests + {m.request};
      }
    }

    /**
     * `_finalize_assigments(accepted)`: the accepted pairs are assigned first
     * come first served. Kept pairs have their driver heading to the request
     * with reward 0.0 (the tick is passed as the legacy second argument),
     * from where it stands, which becomes its assignment position. Every
     * other driver and request is left as it was, so the listed requests no
     * pair kept are still WAITING.
     */
    method FinalizeAssignments(accepted: seq<Match>, waiting: seq<nat>) returns (kept: seq<Match>)
      requires Valid()
      requires Increasing(waiting)
      requires forall k :: 0 <= k < |waiting| ==> waiting[k] < |requests| && requests[waiting[k]].status == Waiting
      requires InLists(accepted, |drivers|, |waiting|)
      modifies holdings, drivers, requests
      ensures kept == FirstComeFirstServed(accepted, AllWaiting(|waiting|), {}, {})
      ensures Serving(kept, waiting)
      ensures ChangedOnlyBy(old(FieldsOfAll(drivers)), old(RequestViews(requests)),
                            FieldsOfAll(drivers), RequestViews(requests), kept, waiting)
      ensures forall k :: 0 <= k < |waiting| && k !in RequestsOf(kept) ==> requests[waiting[k]].status == Waiting
      ensures Valid()
    {
      ghost var statuses := AllWaiting(|waiting|);
      ghost var all := FirstComeFirstServed(accepted, statuses, {}, {});
      ghost var fields0, views0 := FieldsOfAll(drivers), RequestViews(requests);
      FinalizeStarts(accepted, waiting, statuses, fields0, views0);
      kept := FinalizeEach(accepted, waiting, statuses, all, fields0, views0);
      FinalizeEnds(accepted, waiting, statuses, all, kept, fields0, views0);
    }

    /** Before the loop of `_finalize_assigments` nothing is kept and nothing has changed. */
    lemma FinalizeStarts(accepted: seq<Match>, waiting: seq<nat>, statuses: seq<RequestStatus>,
                         fields0: seq<DriverFields>, views0: seq<RequestView>)
      requires Valid()
      requires forall k :: 0 <= k < |waiting| ==> waiting[k] < |requests| && requests[waiting[k]].status == Waiting
      requires InLists(accepted, |drivers|, |waiting|)
      requires statuses == AllWaiting(|waiting|)
      requires fields0 == FieldsOfAll(drivers) && views0 == RequestViews(requests)
      ensures FinalizedUpTo(0, accepted, waiting, statuses, FirstComeFirstServed(accepted, statuses, {}, {}), [], {}, {},
                            fields0, views0)
    {
      NoPairsNoChange(fields0, views0, waiting);
      assert accepted[0..] == accepted;
    }

    /** After the loop of `_finalize_assigments` every accepted pair has been considered. */
    lemma FinalizeEnds(accepted: seq<Match>, waiting: seq<nat>, statuses: seq<RequestStatus>, all: seq<Match>,
                       kept: seq<Match>, fields0: seq<DriverFields>, views0: seq<RequestView>)
      requires FinalizedUpTo(|accepted|, accepted, waiting, statuses, all, kept, DriversOf(kept), RequestsOf(kept), fields0, views0)
      ensures kept == all && Serving(kept, waiting) && AssignedSince(fields0, views0, kept, waiting) && Valid()
      ensures forall k :: 0 <= k < |waiting| && k !in RequestsOf(kept) ==> requests[waiting[k]].status == Waiting
    {
      assert accepted[|accepted|..] == [];
    }

    /** The loop of `_finalize_assigments`: each accepted pair in turn, from the first. */
    method FinalizeEach(accepted: seq<Match>, waiting: seq<nat>, ghost statuses: seq<RequestStatus>,
                        ghost all: seq<Match>, ghost fields0: seq<DriverFields>, ghost views0: seq<RequestView>)
      returns (kept: seq<Match>)
      requires Increasing(waiting) && forall k :: 0 <= k < |waiting| ==> waiting[k] < |requests|
      requires InLists(accepted, |drivers|, |waiting|)
      requires |statuses| == |waiting| && forall k :: 0 <= k < |statuses| ==> statuses[k] == Waiting
      requires FinalizedUpTo(0, accepted, waiting, statuses, all, [], {}, {}, fields0, views0)
      modifies holdings, drivers, requests
      ensures requests == old(requests)
      ensures FinalizedUpTo(|accepted|, accepted, waiting, statuses, all, kept, DriversOf(kept), RequestsOf(kept), fields0, views0)
    {
      kept := [];
      var usedDrivers: set<nat> := {};
      var usedRequests: set<nat> := {};
      var j := 0;
      while j < |accepted|
        invariant requests == old(requests)
        invariant FinalizedUpTo(j, accepted, waiting, statuses, all, kept, usedDrivers, usedRequests, fields0, views0)
      {
        kept, usedDrivers, usedRequests :=
          FinalizeOne(accepted, j, waiting, statuses, all, kept, usedDrivers, usedRequests, fields0, views0);
        j := j + 1;
      }
    }

    // -------------------------------------------------------------------------
    // 6) `_move_drivers_and_handle_events`

    /** The arrival checks for a driver that held `q` in `status` before its step and is now at `position`. */
    function EventsAt(q: Request?, status: DriverStatus, position: Point): Arrival {
      if q == null then ArrivalsAfterStep(false, status, position, position, position, dist)
      else ArrivalsAfterStep(true, status, position, q.pickup, q.dropoff, dist)
    }

    /**
     * `driver.step(1.0)` and the pickup check for the driver at `a`: within
     * 1e-6 of the pickup of the request it heads to, `complete_pickup(time)`.
     */
    method StepAndPickUp(a: nat) returns (pickedUp: bool)
      requires Valid() && a < |drivers|
      modifies drivers[a], drivers[a].currentRequest
      ensures drivers[a].position == AfterStep(old(drivers[a].position), old(drivers[a].TargetPoint()), drivers[a].speed * 1.0, dist)
      ensures pickedUp == EventsAt(old(drivers[a].currentRequest), old(drivers[a].status), drivers[a].position).pickedUp
      ensures drivers[a].currentRequest == old(drivers[a].currentRequest)
      ensures drivers[a].status == if pickedUp then ToDropoff else old(drivers[a].status)
      ensures pickedUp ==>
        drivers[a].currentRequest.status == Picked
        && drivers[a].currentRequest.waitTime == time - drivers[a].currentRequest.creationTime
      ensures drivers[a].positionAtAssignment == old(drivers[a].positionAtAssignment)
      ensures drivers[a].assignedReward == old(drivers[a].assignedReward)
      ensures drivers[a].behaviour == old(drivers[a].behaviour) && drivers[a].history == old(drivers[a].history)
      ensures HasTrip(drivers[a], old(drivers[a].currentRequest),
                      TripAfterEvents(drivers[a].id, old(TripOf(drivers[a])), Arrival(pickedUp, false), time, dist))
      ensures Valid()
    {
      var d := drivers[a];
      d.Step(1.0, dist);
      pickedUp := false;
      if d.currentRequest != null && d.status == ToPickup && dist(d.position, d.currentRequest.pickup) < EventEpsilon {
        d.CompletePickup(time);
        pickedUp := true;
      }
    }

    /**
     * The dropoff check for the driver at `a`: within 1e-6 of the dropoff of
     * the request it heads to, `complete_dropoff(time)`, and one more served
     * request, one more completed delivery and that request's wait added to
     * the total, whether or not the driver recorded the trip.
     */
    method DropOffIfArrived(a: nat) returns (droppedOff: bool)
      requires Valid() && a < |drivers|
      modifies this, drivers[a], drivers[a].currentRequest
      ensures droppedOff <==>
        old(drivers[a].currentRequest) != null && old(drivers[a].status) == ToDropoff
        && dist(drivers[a].position, old(drivers[a].currentRequest).dropoff) < EventEpsilon
      ensures servedCount == old(servedCount) + (if droppedOff then 1 else 0)
      ensures completedDeliveries == old(completedDeliveries) + (if droppedOff then 1 else 0)
      ensures totalWaitTime == old(totalWaitTime) + (if droppedOff then old(drivers[a].currentRequest).waitTime else 0)
      ensures droppedOff && old(drivers[a].positionAtAssignment).Some? ==>
        old(drivers[a].currentRequest).status == Delivered
        && old(drivers[a].currentRequest).waitTime == time - old(drivers[a].currentRequest).creationTime
        && drivers[a].currentRequest == null && drivers[a].status == Idle
        && |drivers[a].history| == |old(drivers[a].history)| + 1
      ensures !(droppedOff && old(drivers[a].positionAtAssignment).Some?) ==>
        unchanged(drivers[a]) && (drivers[a].currentRequest != null ==> unchanged(drivers[a].currentRequest))
      ensures drivers[a].position == old(drivers[a].position) && drivers[a].behaviour == old(drivers[a].behaviour)
      ensures HasTrip(drivers[a], old(drivers[a].currentRequest),
                      TripAfterEvents(drivers[a].id, old(TripOf(drivers[a])), Arrival(false, droppedOff), time, dist))
      ensures old(drivers[a].currentRequest) != null ==>
        old(drivers[a].currentRequest).View()
        == RequestAfterEvents(old(TripOf(drivers[a])), Arrival(false, droppedOff), time).value
      ensures requests == old(requests) && time == old(time) && expiredCount == old(expiredCount)
      ensures Valid()
    {
      var d := drivers[a];
      droppedOff := false;
      if d.currentRequest != null && d.status == ToDropoff && dist(d.position, d.currentRequest.dropoff) < EventEpsilon {
        var req := d.currentRequest;
        d.CompleteDropoff(time, dist);
        servedCount := servedCount + 1;
        completedDeliveries := completedDeliveries + 1;
        totalWaitTime := totalWaitTime + req.waitTime;
        droppedOff := true;
      }
    }

    /**
     * One driver's turn in `_move_drivers_and_handle_events`: one
     * `step(1.0)`, then the pickup check, then the dropoff check. The result
     * is the events the checks found; each delivery counts once in the
     * served and completed counters and adds the request's wait to the total.
     */
    method MoveDriver(a: nat) returns (e: Arrival)
      requires Valid() && a < |drivers|
      modifies this, drivers[a], drivers[a].currentRequest
      ensures drivers[a].position == AfterStep(old(drivers[a].position), old(drivers[a].TargetPoint()), drivers[a].speed * 1.0, dist)
      ensures e == EventsAt(old(drivers[a].currentRequest), old(drivers[a].status), drivers[a].position)
      ensures servedCount == old(servedCount) + (if e.droppedOff then 1 else 0)
      ensures completedDeliveries == old(completedDeliveries) + (if e.droppedOff then 1 else 0)
      ensures totalWaitTime == old(totalWaitTime) + (if e.droppedOff then old(drivers[a].currentRequest).waitTime else 0)
      ensures totalWaitTime == old(totalWaitTime) + WaitAdded(old(TripOf(drivers[a])), e, time)
      ensures e.pickedUp ==>
        old(drivers[a].currentRequest).waitTime == time - old(drivers[a].currentRequest).creationTime
      ensures drivers[a].behaviour == old(drivers[a].behaviour)
      ensures HasTrip(drivers[a], old(drivers[a].currentRequest),
                      TripAfterEvents(drivers[a].id, old(TripOf(drivers[a])), e, time, dist))
      ensures old(drivers[a].currentRequest) != null ==>
        old(drivers[a].currentRequest).View() == RequestAfterEvents(old(TripOf(drivers[a])), e, time).value
      ensures requests == old(requests) && time == old(time) && expiredCount == old(expiredCount)
      ensures Valid()
    {
      ghost var before := TripOf(drivers[a]);
      var pickedUp := StepAndPickUp(a);
      assert TripOf(drivers[a]) == TripAfterEvents(drivers[a].id, before, Arrival(pickedUp, false), time, dist);
      var droppedOff := DropOffIfArrived(a);
      e := Arrival(pickedUp, droppedOff);
      TripEventsCompose(drivers[a].id, before, pickedUp, droppedOff, time, dist);
    }

    /** Driver `d` has taken its step of `leg`, with arrival checks `e` at time `now`. */
    ghost predicate Stepped(d: Driver, leg: Leg, e: Arrival, now: int)
      reads d, leg.request
    {
      0.0 <= d.speed * 1.0
      && d.position == AfterStep(leg.position, leg.target, d.speed * 1.0, dist)
      && e == EventsAt(leg.request, leg.trip.status, d.position)
      && HasTrip(d, leg.request, TripAfterEvents(d.id, leg.trip, e, now, dist))
      && (leg.request != null ==> leg.trip.held.Some? && leg.request.View() == RequestAfterEvents(leg.trip, e, now).value)
    }

    /** Driver `d` is still where `leg` found it. */
    static ghost predicate Unmoved(d: Driver, leg: Leg)
      reads d, leg.request
    {
      d.position == leg.position && d.TargetPoint() == leg.target && HasTrip(d, leg.request, leg.trip)
    }

    /**
     * The first `i` drivers of the legs have moved, producing `events`; the
     * rest have not moved yet. The legs' requests are distinct objects.
     */
    ghost predicate MovedUpTo(i: nat, legs: seq<Leg>, events: seq<Arrival>, served: int, completed: int)
      reads this, drivers, LegRequests(legs)
    {
      |legs| == |drivers| && i <= |drivers| && |events| == i
      && (forall k, l :: 0 <= k < l < |legs| && legs[k].request != null ==> legs[k].request != legs[l].request)
      && (forall k :: 0 <= k < |legs| ==> (legs[k].request != null <==> legs[k].trip.held.Some?))
      && (forall k :: 0 <= k < i ==> Stepped(drivers[k], legs[k], events[k], time))
      && (forall k :: i <= k < |drivers| ==> Unmoved(drivers[k], legs[k]))
      && (forall k :: 0 <= k < |drivers| ==> drivers[k].behaviour == legs[k].behaviour)
      && servedCount == served + Deliveries(events)
      && completedDeliveries == completed + Deliveries(events)
    }

    /** No request is held by two drivers. */
    lemma HeldOnce()
      requires Valid()
      ensures forall k, l :: 0 <= k < l < |drivers| && drivers[k].currentRequest != null ==>
        drivers[k].currentRequest != drivers[l].currentRequest
    {
      forall k, l | 0 <= k < l < |drivers| && drivers[k].currentRequest != null
        ensures drivers[k].currentRequest != drivers[l].currentRequest
      {
        if drivers[l].currentRequest != null {
          assert holdings.at[k] != holdings.at[l];
        }
      }
    }

    /** Moves the driver at `i`, the next one in list order. */
    method MoveNext(i: nat, ghost legs: seq<Leg>, events: seq<Arrival>, ghost served: int, ghost completed: int,
                    ghost views0: seq<RequestView>)
      returns (events': seq<Arrival>)
      requires Valid() && i < |drivers| && MovedUpTo(i, legs, events, served, completed)
      requires |views0| == |requests|
      requires forall b :: 0 <= b < |requests| && requests[b] !in LegRequests(legs) ==> requests[b].View() == views0[b]
      modifies this, drivers[i], drivers[i].currentRequest
      ensures requests == old(requests) && time == old(time) && expiredCount == old(expiredCount)
      ensures Valid() && MovedUpTo(i + 1, legs, events', served, completed)
      ensures events' == events + [events'[i]]
      ensures totalWaitTime == old(totalWaitTime) + WaitAdded(legs[i].trip, events'[i], time)
      ensures forall b :: 0 <= b < |requests| && requests[b] !in LegRequests(legs) ==> requests[b].View() == views0[b]
    {
      assert legs[i].request in LegRequests(legs);
      var e := MoveDriver(i);
      events' := events + [e];
      MovedOneMore(MoveStep(i, legs, events, e, served, completed));
    }

    /**
     * Moving the driver at `i`, and touching no other driver and no other
     * leg's request, extends the moved prefix by that driver.
     */
    twostate lemma MovedOneMore(m: MoveStep)
      requires old(Valid()) && m.i < |drivers| && old(MovedUpTo(m.i, m.legs, m.events, m.served, m.completed))
      requires time == old(time)
      requires forall k :: 0 <= k < |drivers| && k != m.i ==> unchanged(drivers[k])
      requires forall k :: 0 <= k < |m.legs| && k != m.i && m.legs[k].request != null ==> unchanged(m.legs[k].request)
      requires drivers[m.i].behaviour == old(drivers[m.i].behaviour)
      requires Stepped(drivers[m.i], m.legs[m.i], m.e, time)
      requires servedCount == old(servedCount) + (if m.e.droppedOff then 1 else 0)
      requires completedDeliveries == old(completedDeliveries) + (if m.e.droppedOff then 1 else 0)
      ensures MovedUpTo(m.i + 1, m.legs, m.events + [m.e], m.served, m.completed)
      ensures (m.events + [m.e])[..m.i] == m.events
    {
      assert (m.events + [m.e])[..m.i] == m.events;
    }

    /**
     * `_move_drivers_and_handle_events`: every driver, in list order, takes
     * exactly one `step(1.0)` and then its arrival checks. The results are
     * each driver's events; each driver's trip fields and the request it
     * held become `TripAfterEvents` and `RequestAfterEvents` of those events,
     * no other request changes, and the served and completed counters grow
     * by the number of deliveries.
     */
    method MoveDrivers() returns (events: seq<Arrival>)
      requires Valid()
      modifies this, drivers, requests
      ensures |events| == |drivers|
      ensures requests == old(requests) && time == old(time) && expiredCount == old(expiredCount)
      ensures forall k :: 0 <= k < |drivers| ==>
        drivers[k].position == AfterStep(old(drivers[k].position), old(drivers[k].TargetPoint()), drivers[k].speed * 1.0, dist)
      ensures forall k :: 0 <= k < |drivers| ==>
        events[k] == EventsAt(old(drivers[k].currentRequest), old(drivers[k].status), drivers[k].position)
      ensures forall k :: 0 <= k < |drivers| ==>
        HasTrip(drivers[k], old(drivers[k].currentRequest),
                TripAfterEvents(drivers[k].id, old(TripOf(drivers[k])), events[k], time, dist))
      ensures forall k :: 0 <= k < |drivers| && old(drivers[k].currentRequest) != null ==>
        old(drivers[k].currentRequest).View() == RequestAfterEvents(old(TripOf(drivers[k])), events[k], time).value
      ensures forall b :: 0 <= b < |requests| && requests[b] !in old(HeldBy(drivers)) ==>
        requests[b].View() == old(requests[b].View())
      ensures servedCount == old(servedCount) + Deliveries(events)
      ensures completedDeliveries == old(completedDeliveries) + Deliveries(events)
      ensures totalWaitTime == old(totalWaitTime) + DeliveredWait(old(TripsOf(drivers)), events, time)
      ensures forall k :: 0 <= k < |drivers| ==> drivers[k].behaviour == old(drivers[k].behaviour)
      ensures Valid()
    {
      ghost var legs := Legs(drivers);
      ghost var trips0 := TripsOf(drivers);
      assert LegTrips(legs) == trips0;
      StartLegs(legs);
      events := MoveEach(legs);
    }

    /** Before any driver moves, every driver still stands on its leg, and the legs hold what the drivers hold. */
    lemma StartLegs(legs: seq<Leg>)
      requires Valid() && legs == Legs(drivers)
      ensures MovedUpTo(0, legs, [], servedCount, completedDeliveries)
      ensures LegRequests(legs) == HeldBy(drivers)
    {
      HeldOnce();
      forall r | r in HeldBy(drivers) ensures r in LegRequests(legs) {
        var k :| 0 <= k < |drivers| && r == drivers[k].currentRequest;
        assert r == legs[k].request;
      }
    }

    /** The loop of `_move_drivers_and_handle_events`, from the legs the drivers start on. */
    method MoveEach(ghost legs: seq<Leg>) returns (events: seq<Arrival>)
      requires Valid() && MovedUpTo(0, legs, [], servedCount, completedDeliveries)
      modifies this, drivers, requests
      ensures requests == old(requests) && time == old(time) && expiredCount == old(expiredCount)
      ensures Valid() && MovedUpTo(|drivers|, legs, events, old(servedCount), old(completedDeliveries))
      ensures totalWaitTime == old(totalWaitTime) + DeliveredWait(LegTrips(legs), events, time)
      ensures forall b :: 0 <= b < |requests| && requests[b] !in LegRequests(legs) ==>
        requests[b].View() == old(requests[b].View())
    {
      ghost var views0 := RequestViews(requests);
      events := [];
      var i := 0;
      while i < |drivers|
        invariant requests == old(requests) && time == old(time) && expiredCount == old(expiredCount)
        invariant Valid() && MovedUpTo(i, legs, events, old(servedCount), old(completedDeliveries))
        invariant totalWaitTime == old(totalWaitTime) + DeliveredWait(LegTrips(legs), events, time)
        invariant forall b :: 0 <= b < |requests| && requests[b] !in LegRequests(legs) ==> requests[b].View() == views0[b]
      {
        ghost var before := events;
        events := MoveNext(i, legs, events, old(servedCount), old(completedDeliveries), views0);
        DeliveredWaitNext(LegTrips(legs), before, events[i], time);
        i := i + 1;
      }
    }

    /**
     * Step 7 of `tick`: the mutation rule, applied to every driver in list
     * order; `draws[k]` is the random draw the rule makes for driver `k`.
     */
    method MutateDrivers(draws: seq<real>)
      requires Valid() && |draws| == |drivers|
      modifies drivers
      ensures forall k :: 0 <= k < |drivers| ==>
        drivers[k].behaviour == MutationRules.RuleOutcome(rule, old(drivers[k].behaviour), drivers[k].history, draws[k])
      ensures forall k :: 0 <= k < |drivers| ==>
        drivers[k].position == old(drivers[k].position) && drivers[k].status == old(drivers[k].status)
        && drivers[k].currentRequest == old(drivers[k].currentRequest) && drivers[k].history == old(drivers[k].history)
        && drivers[k].positionAtAssignment == old(drivers[k].positionAtAssignment)
        && drivers[k].assignedReward == old(drivers[k].assignedReward)
      ensures Valid()
    {
      var i := 0;
      while i < |drivers|
        invariant i <= |drivers|
        invariant forall k :: 0 <= k < i ==>
          drivers[k].behaviour == MutationRules.RuleOutcome(rule, old(drivers[k].behaviour), drivers[k].history, draws[k])
        invariant forall k :: i <= k < |drivers| ==> drivers[k].behaviour == old(drivers[k].behaviour)
        invariant forall k :: 0 <= k < |drivers| ==>
          drivers[k].position == old(drivers[k].position) && drivers[k].status == old(drivers[k].status)
          && drivers[k].currentRequest == old(drivers[k].currentRequest) && drivers[k].history == old(drivers[k].history)
          && drivers[k].positionAtAssignment == old(drivers[k].positionAtAssignment)
          && drivers[k].assignedReward == old(drivers[k].assignedReward)
      {
        MutationRules.MaybeMutate(rule, drivers[i], draws[i], time);
        i := i + 1;
      }
      StageKeepsValid(this);
    }

    // -------------------------------------------------------------------------
    // `get_snapshot`

    /**
     * `get_snapshot()`: the clock, every driver's id, coordinates and status,
     * the pickups still to be reached, the dropoffs of the requests on
     * board, and the statistics.
     */
    function GetSnapshot(): (s: Snapshot)
      reads this, drivers, requests
      ensures s.time == time
      ensures |s.drivers| == |drivers|
      ensures forall i :: 0 <= i < |drivers| ==>
        s.drivers[i].id == drivers[i].id && s.drivers[i].status == drivers[i].status
        && Point(s.drivers[i].x, s.drivers[i].y) == drivers[i].position
      ensures forall p :: p in s.pickups <==>
        exists b :: 0 <= b < |requests| && (requests[b].status == Waiting || requests[b].status == Assigned)
                    && requests[b].pickup == p
      ensures forall p :: p in s.dropoffs <==>
        exists b :: 0 <= b < |requests| && requests[b].status == Picked && requests[b].dropoff == p
      ensures |s.pickups| + |s.dropoffs| <= |requests|
      ensures s.statistics.servedCount == servedCount && s.statistics.expiredCount == expiredCount
      ensures completedDeliveries != 0 ==> s.statistics.avgWait * completedDeliveries as real == totalWaitTime as real
      ensures completedDeliveries == 0 ==> s.statistics.avgWait == 0.0
    {
      var views := RequestViews(requests);
      PickupsAndDropoffsCount(views);
      Snapshot(time, DriverSnapshots(DriverViews(drivers)), Pickups(views), Dropoffs(views),
               Statistics(servedCount, expiredCount, AverageWait(totalWaitTime, completedDeliveries)))
    }

    // -------------------------------------------------------------------------
    // `tick`

    /** After the waiting-time update, the requests listed for dispatch are WAITING. */
    lemma DispatchListWaiting(before: seq<RequestView>, waiting: seq<nat>)
      requires |requests| == |before|
      requires forall i :: 0 <= i < |requests| ==> requests[i].View() == AfterWaitUpdate(before[i], time, timeout)
      requires waiting == StillWaiting(before, time, timeout)
      ensures forall k :: 0 <= k < |waiting| ==> waiting[k] < |requests| && requests[waiting[k]].status == Waiting
    {
      StillWaitingAfterUpdate(before, time, timeout);
      forall k | 0 <= k < |waiting|
        ensures requests[waiting[k]].status == Waiting
      {
        assert requests[waiting[k]].View() == AfterWaitUpdate(before[waiting[k]], time, timeout);
      }
    }

    /**
     * Steps 1 and 2 of `tick`: the generated requests join the list, then
     * the waiting-time update; `waiting` are the positions of the requests
     * that go on to dispatch.
     */
    method Prepare(generated: seq<Request>) returns (waiting: seq<nat>)
      requires Valid()
      requires forall i, j :: 0 <= i < j < |generated| ==> generated[i] != generated[j]
      requires forall r :: r in generated ==> r !in requests
      modifies this, requests + generated
      ensures requests == old(requests) + generated
      ensures waiting == StillWaiting(old(RequestViews(requests + generated)), time, timeout)
      ensures forall k :: 0 <= k < |waiting| ==> waiting[k] < |requests| && requests[waiting[k]].status == Waiting
      ensures expiredCount == old(expiredCount) + ExpiringCount(old(RequestViews(requests + generated)), time, timeout)
      ensures time == old(time) && servedCount == old(servedCount) && totalWaitTime == old(totalWaitTime)
      ensures Valid()
      ensures forall k :: 0 <= k < |drivers| ==> TripOf(drivers[k]) == old(TripOf(drivers[k]))
      ensures forall k :: 0 <= k < |drivers| ==> drivers[k].position == old(drivers[k].position)
    {
      ghost var views := RequestViews(requests + generated);
      GenerateNewRequests(generated);
      assert RequestViews(requests) == views;
      assert forall k :: 0 <= k < |drivers| ==>
        TripOf(drivers[k]) == old(TripOf(drivers[k])) && drivers[k].position == old(drivers[k].position);
      waiting := UpdateWaitingTime();
      DispatchListWaiting(views, waiting);
    }

    /**
     * Steps 3 and 4 of `tick`, which change nothing: the policy's proposals
     * on the drivers and the waiting requests, and the proposals whose
     * offers the drivers accept. False when the grid policy with cell size 0
     * raises on a non-empty list.
     */
    method ProposeAndOffer(waiting: seq<nat>) returns (ok: bool, proposals: seq<Match>, accepted: seq<Match>)
      requires forall k :: 0 <= k < |waiting| ==> waiting[k] < |requests|
      ensures ok <==> !(policy.GridPolicy? && policy.cellSize == 0.0 && |waiting| > 0)
      ensures ok ==> Proposal(policy, old(DriverViews(drivers)), Select(old(RequestViews(requests)), waiting), dist, proposals)
      ensures ok ==> InLists(proposals, |drivers|, |waiting|)
      ensures ok ==> accepted == Accepted(proposals, old(DriverViews(drivers)), old(BehavioursOf(drivers)),
                                          Select(old(RequestViews(requests)), waiting), old(time), dist)
      ensures InLists(accepted, |drivers|, |waiting|)
    {
      var driverViews := DriverViews(drivers);
      var selected := Select(RequestViews(requests), waiting);
      var proposed := ProposeAssignments(policy, driverViews, selected, dist);
      if proposed.None? {
        return false, [], [];
      }
      proposals := proposed.value;
      ProposalAtMostOnce(policy, driverViews, selected, dist, proposals);
      accepted := ProcessOffers(proposals, driverViews, BehavioursOf(drivers), selected, time, dist);
      ok := true;
    }

    /**
     * Steps 3 to 5 of `tick`: proposals, offers, and the
     * first-come-first-served assignment of the accepted pairs. `kept` are
     * the pairs `FinalizeAssignments` assigns.
     */
    method Dispatch(waiting: seq<nat>) returns (ok: bool, proposals: seq<Match>, kept: seq<Match>)
      requires Valid()
      requires Increasing(waiting)
      requires forall k :: 0 <= k < |waiting| ==> waiting[k] < |requests| && requests[waiting[k]].status == Waiting
      modifies holdings, drivers, requests
      ensures ok <==> !(policy.GridPolicy? && policy.cellSize == 0.0 && |waiting| > 0)
      ensures ok ==> Proposal(policy, old(DriverViews(drivers)), Select(old(RequestViews(requests)), waiting), dist, proposals)
      ensures ok ==> InLists(proposals, |drivers|, |waiting|)
      ensures ok ==> kept == FirstComeFirstServed(
        Accepted(proposals, old(DriverViews(drivers)), old(BehavioursOf(drivers)),
                 Select(old(RequestViews(requests)), waiting), old(time), dist),
        AllWaiting(|waiting|), {}, {})
      ensures Serving(kept, waiting)
      ensures !ok ==> kept == [] && FieldsOfAll(drivers) == old(FieldsOfAll(drivers))
                      && RequestViews(requests) == old(RequestViews(requests))
      ensures ChangedOnlyBy(old(FieldsOfAll(drivers)), old(RequestViews(requests)),
                            FieldsOfAll(drivers), RequestViews(requests), kept, waiting)
      ensures forall k :: 0 <= k < |waiting| && k !in RequestsOf(kept) ==> requests[waiting[k]].status == Waiting
      ensures Valid()
    {
      var accepted;
      ok, proposals, accepted := ProposeAndOffer(waiting);
      assert FieldsOfAll(drivers) == old(FieldsOfAll(drivers)) && RequestViews(requests) == old(RequestViews(requests));
      if !ok {
        NoPairsNoChange(FieldsOfAll(drivers), RequestViews(requests), waiting);
        return false, [], [];
      }
      kept := FinalizeAssignments(accepted, waiting);
    }

    /**
     * Steps 6 and 7 of `tick`: movement and events, then the mutation rule.
     * Each driver ends where its step takes it, with the trip fields its
     * events give and the behaviour the rule gives for its draw and its new
     * history; the requests the drivers held change as their events say,
     * and no other request changes.
     */
    method AdvanceFleet(draws: seq<real>) returns (events: seq<Arrival>)
      requires Valid() && |draws| == |drivers|
      modifies this, drivers, requests
      ensures |events| == |drivers|
      ensures requests == old(requests) && time == old(time) && expiredCount == old(expiredCount)
      ensures forall k :: 0 <= k < |drivers| ==>
        drivers[k].position == AfterStep(old(drivers[k].position), old(drivers[k].TargetPoint()), drivers[k].speed * 1.0, dist)
      ensures forall k :: 0 <= k < |drivers| ==>
        events[k] == EventsAt(old(drivers[k].currentRequest), old(drivers[k].status), drivers[k].position)
      ensures forall k :: 0 <= k < |drivers| ==>
        HasTrip(drivers[k], old(drivers[k].currentRequest),
                TripAfterEvents(drivers[k].id, old(TripOf(drivers[k])), events[k], time, dist))
      ensures forall k :: 0 <= k < |drivers| && old(drivers[k].currentRequest) != null ==>
        old(drivers[k].currentRequest).View() == RequestAfterEvents(old(TripOf(drivers[k])), events[k], time).value
      ensures forall b :: 0 <= b < |requests| && requests[b] !in old(HeldBy(drivers)) ==>
        requests[b].View() == old(requests[b].View())
      ensures forall k :: 0 <= k < |drivers| ==>
        drivers[k].behaviour == MutationRules.RuleOutcome(rule, old(drivers[k].behaviour), drivers[k].history, draws[k])
      ensures servedCount == old(servedCount) + Deliveries(events)
      ensures completedDeliveries == old(completedDeliveries) + Deliveries(events)
      ensures totalWaitTime == old(totalWaitTime) + DeliveredWait(old(TripsOf(drivers)), events, time)
      ensures Valid()
    {
      events := MoveDrivers();
      MutateDrivers(draws);
    }

    /**
     * Steps 6 to 8 of `tick` once the pairs `kept` are assigned, since the
     * drivers had the fields `fields0` and the places `places0`: every driver
     * moves from where it stood, toward the target it had or, when kept,
     * toward its new pickup; then the mutation rule runs and the clock
     * advances. A listed request no pair took is held by no driver, so it is
     * still WAITING. The total wait grows by what the deliveries of the
     * trips the drivers start on add.
     */
    method AdvanceDispatched(waiting: seq<nat>, kept: seq<Match>, draws: seq<real>,
                             ghost fields0: seq<DriverFields>, ghost views0: seq<RequestView>, ghost places0: Places)
      returns (events: seq<Arrival>)
      requires Valid() && |draws| == |drivers|
      requires forall k :: 0 <= k < |waiting| ==> waiting[k] < |requests|
      requires Serving(kept, waiting)
      requires forall k :: 0 <= k < |waiting| && k !in RequestsOf(kept) ==> requests[waiting[k]].status == Waiting
      requires AssignedSince(fields0, views0, kept, waiting) && places0.ReadOff(fields0)
      modifies this, drivers, requests
      ensures requests == old(requests) && expiredCount == old(expiredCount) && time == old(time) + 1
      ensures |events| == |drivers|
      ensures forall k :: 0 <= k < |drivers| ==>
        drivers[k].behaviour == MutationRules.RuleOutcome(rule, places0.behaviours[k], drivers[k].history, draws[k])
      ensures forall k :: 0 <= k < |drivers| && k !in DriversOf(kept) ==>
        drivers[k].position == AfterStep(places0.positions[k], places0.targets[k], drivers[k].speed * 1.0, dist)
      ensures forall j :: 0 <= j < |kept| ==>
        drivers[kept[j].driver].position
        == AfterStep(places0.positions[kept[j].driver], Some(requests[waiting[kept[j].request]].pickup),
                     drivers[kept[j].driver].speed * 1.0, dist)
      ensures forall k :: 0 <= k < |waiting| && k !in RequestsOf(kept) ==> requests[waiting[k]].status == Waiting
      ensures servedCount == old(servedCount) + Deliveries(events)
      ensures completedDeliveries == old(completedDeliveries) + Deliveries(events)
      ensures totalWaitTime == old(totalWaitTime) + DeliveredWait(old(TripsOf(drivers)), events, old(time))
      ensures Valid()
    {
      StandAsBefore(fields0, views0, kept, waiting, places0);
      forall k | 0 <= k < |waiting| && k !in RequestsOf(kept)
        ensures requests[waiting[k]] !in HeldBy(drivers)
      {
        WaitingNotHeld(waiting[k]);
      }
      events := AdvanceFleet(draws);
      AdvanceClock();
    }

    /**
     * `AdvanceDispatched` from the trips `trips0` the drivers had before
     * the pairs `kept` were assigned, read off `fields0` and `views0` with
     * the places `at0` of the held requests: `trips` are the trips the
     * drivers start the movement stage on, `AssignedTrips` of `trips0`.
     */
    method AdvanceAssigned(waiting: seq<nat>, kept: seq<Match>, draws: seq<real>,
                           ghost fields0: seq<DriverFields>, ghost views0: seq<RequestView>, ghost places0: Places,
                           ghost trips0: seq<Trip>, ghost at0: seq<nat>)
      returns (events: seq<Arrival>, ghost trips: seq<Trip>)
      requires Valid() && |draws| == |drivers|
      requires forall k :: 0 <= k < |waiting| ==> waiting[k] < |requests|
      requires Serving(kept, waiting)
      requires forall k :: 0 <= k < |waiting| && k !in RequestsOf(kept) ==> requests[waiting[k]].status == Waiting
      requires AssignedSince(fields0, views0, kept, waiting) && places0.ReadOff(fields0)
      requires TripsReadOff(trips0, fields0, views0, requests, at0)
      modifies this, drivers, requests
      ensures requests == old(requests) && expiredCount == old(expiredCount) && time == old(time) + 1
      ensures |events| == |drivers|
      ensures forall k :: 0 <= k < |drivers| ==>
        drivers[k].behaviour == MutationRules.RuleOutcome(rule, places0.behaviours[k], drivers[k].history, draws[k])
      ensures forall k :: 0 <= k < |drivers| && k !in DriversOf(kept) ==>
        drivers[k].position == AfterStep(places0.positions[k], places0.targets[k], drivers[k].speed * 1.0, dist)
      ensures forall j :: 0 <= j < |kept| ==>
        drivers[kept[j].driver].position
        == AfterStep(places0.positions[kept[j].driver], Some(requests[waiting[kept[j].request]].pickup),
                     drivers[kept[j].driver].speed * 1.0, dist)
      ensures forall k :: 0 <= k < |waiting| && k !in RequestsOf(kept) ==> requests[waiting[k]].status == Waiting
      ensures servedCount == old(servedCount) + Deliveries(events)
      ensures completedDeliveries == old(completedDeliveries) + Deliveries(events)
      ensures AssignedTrips(drivers, trips0, places0.positions, views0, kept, waiting, trips)
      ensures totalWaitTime == old(totalWaitTime) + DeliveredWait(trips, events, old(time))
      ensures Valid()
    {
      TripsAfterAssigning(trips0, fields0, views0, at0, places0, kept, waiting);
      trips := TripsOf(drivers);
      events := AdvanceDispatched(waiting, kept, draws, fields0, views0, places0);
    }

    /**
     * Steps 3 to 8 of `tick`, on the requests listed for dispatch: the
     * proposals, the pairs kept, and each driver's arrival events. When the
     * dispatch raises, nothing after it happens and nothing changes.
     */
    method DispatchAndAdvance(waiting: seq<nat>, draws: seq<real>)
      returns (ok: bool, proposals: seq<Match>, kept: seq<Match>, events: seq<Arrival>, ghost trips: seq<Trip>)
      requires Valid() && |draws| == |drivers|
      requires Increasing(waiting)
      requires forall k :: 0 <= k < |waiting| ==> waiting[k] < |requests| && requests[waiting[k]].status == Waiting
      modifies this, holdings, drivers, requests
      ensures ok <==> !(policy.GridPolicy? && policy.cellSize == 0.0 && |waiting| > 0)
      ensures requests == old(requests) && expiredCount == old(expiredCount)
      ensures ok ==> InLists(kept, |drivers|, |waiting|)
      ensures ok ==> |events| == |drivers|
      ensures ok ==> forall k :: 0 <= k < |drivers| ==>
        drivers[k].behaviour == MutationRules.RuleOutcome(rule, old(BehavioursOf(drivers))[k], drivers[k].history, draws[k])
      ensures ok ==> forall k :: 0 <= k < |drivers| && k !in DriversOf(kept) ==>
        drivers[k].position == AfterStep(old(PositionsOf(drivers))[k], old(TargetsOf(drivers))[k], drivers[k].speed * 1.0, dist)
      ensures ok ==> forall j :: 0 <= j < |kept| ==>
        drivers[kept[j].driver].position
        == AfterStep(old(PositionsOf(drivers))[kept[j].driver], Some(requests[waiting[kept[j].request]].pickup),
                     drivers[kept[j].driver].speed * 1.0, dist)
      ensures ok ==> forall k :: 0 <= k < |waiting| && k !in RequestsOf(kept) ==> requests[waiting[k]].status == Waiting
      ensures ok ==> servedCount == old(servedCount) + Deliveries(events)
      ensures ok ==> completedDeliveries == old(completedDeliveries) + Deliveries(events)
      ensures !ok ==> kept == [] && events == [] && servedCount == old(servedCount)
      ensures !ok ==> completedDeliveries == old(completedDeliveries) && totalWaitTime == old(totalWaitTime)
      ensures !ok ==> FieldsOfAll(drivers) == old(FieldsOfAll(drivers)) && RequestViews(requests) == old(RequestViews(requests))
      ensures time == old(time) + (if ok then 1 else 0)
      ensures Valid()
      ensures ok ==> Proposal(policy, old(DriverViews(drivers)), Select(old(RequestViews(requests)), waiting), dist, proposals)
      ensures ok ==> InLists(proposals, |drivers|, |waiting|)
      ensures ok ==> kept == FirstComeFirstServed(
        Accepted(proposals, old(DriverViews(drivers)), old(BehavioursOf(drivers)),
                 Select(old(RequestViews(requests)), waiting), old(time), dist),
        AllWaiting(|waiting|), {}, {})
      ensures ok ==> AssignedTrips(drivers, old(TripsOf(drivers)), old(PositionsOf(drivers)), old(RequestViews(requests)),
                                   kept, waiting, trips)
      ensures ok ==> totalWaitTime == old(totalWaitTime) + DeliveredWait(trips, events, old(time))
    {
      ghost var fields0, views0, places0, trips0, at0 := TakeSnapshots();
      ok, proposals, kept := Dispatch(waiting);
      if ok {
        events, trips := AdvanceAssigned(waiting, kept, draws, fields0, views0, places0, trips0, at0);
      } else {
        events, trips := [], [];
      }
    }

    /**
     * `tick()`: the eight stages in order. `generated` is what the request
     * generator returns at the current time and `draws` the mutation rule's
     * random draws, one per driver. `ok` is false when the grid policy with
     * cell size 0 raises on a non-empty list of waiting requests: the tick
     * stops there, after the first two stages, and the clock does not move.
     * `events` are the drivers' arrival events when the tick completes.
     */
    method Tick(generated: seq<Request>, draws: seq<real>) returns (ok: bool, events: seq<Arrival>, ghost trips: seq<Trip>)
      requires Valid() && |draws| == |drivers|
      requires forall i, j :: 0 <= i < j < |generated| ==> generated[i] != generated[j]
      requires forall r :: r in generated ==> r !in requests
      modifies this, holdings, drivers, requests + generated
      ensures requests == old(requests) + generated
      ensures ok <==>
        !(policy.GridPolicy? && policy.cellSize == 0.0
          && |StillWaiting(old(RequestViews(requests + generated)), old(time), timeout)| > 0)
      ensures time == old(time) + (if ok then 1 else 0)
      ensures expiredCount == old(expiredCount) + ExpiringCount(old(RequestViews(requests + generated)), old(time), timeout)
      ensures ok ==> |events| == |drivers|
      ensures servedCount == old(servedCount) + Deliveries(events)
      ensures completedDeliveries == old(completedDeliveries) + Deliveries(events)
      ensures Valid()
      ensures ok ==> |trips| == |drivers| && forall k :: 0 <= k < |drivers| ==>
        trips[k] == old(TripOf(drivers[k]))
        || NewAssignment(trips[k], drivers[k].id, old(drivers[k].position), old(drivers[k].history))
      ensures ok ==> totalWaitTime == old(totalWaitTime) + DeliveredWait(trips, events, old(time))
      ensures !ok ==> totalWaitTime == old(totalWaitTime)
    {
      var waiting := Prepare(generated);
      ghost var trips0, positions0, views0 := TripsOf(drivers), PositionsOf(drivers), RequestViews(requests);
      assert forall k :: 0 <= k < |drivers| ==>
        trips0[k] == old(TripOf(drivers[k])) && positions0[k] == old(drivers[k].position);
      var proposals, kept;
      ok, proposals, kept, events, trips := DispatchAndAdvance(waiting, draws);
      if ok {
        AssignedTripsPointwise(drivers, trips0, positions0, views0, kept, waiting, trips);
      }
    }
  }
}
