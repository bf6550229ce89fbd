/**
 * Acceptance behaviours: whether a driver takes an offer
 * (phase2/behaviour/lazy_behaviour.py, phase2/lazy_behaviour.py,
 * phase2/behaviour/greedy_distance_behaviour.py,
 * phase2/behaviour/earning_max_behaviour.py).
 *
 * Every behaviour is a pure decision: it changes neither the driver nor the
 * offer.
 */
module Behaviours {
  import opened Wrappers
  import opened Geometry
  import opened Requests
  import opened DriverStatuses
  import opened Offers

  datatype Behaviour =
      /** `behaviour.lazy_behaviour.LazyBehaviour(min_wait_time)` */
    | Lazy(minWaitTime: int)
      /** the older `lazy_behaviour.LazyBehaviour(max_idle)`, a different class */
    | LegacyLazy(maxIdle: int)
    | GreedyDistance(maxDistance: real)
    | EarningMax(minRatio: real)

  /** `LazyBehaviour()` waits for at least one tick by default. */
  const DefaultMinWaitTime: int := 1

  /** The earning threshold rises by 0.05% of `min_ratio` per tick. */
  function EarningThreshold(minRatio: real, time: int): real {
    minRatio * (1.0 + 0.0005 * time as real)
  }

  /** `behaviour.decide(driver, offer, time)` */
  function Decide(b: Behaviour, driver: DriverView, offer: Offer, time: int, dist: Metric): bool {
    match b
    case Lazy(minWaitTime) =>
      driver.status == Idle && offer.request.waitTime >= minWaitTime
    case LegacyLazy(maxIdle) =>
      offer.request.waitTime >= maxIdle
    case GreedyDistance(maxDistance) =>
      dist(driver.position, offer.request.pickup) < maxDistance
    case EarningMax(minRatio) =>
      if offer.estimatedReward.None? then false
      else if offer.estimatedTravelTime <= 0.0 then false
      else offer.estimatedReward.value / offer.estimatedTravelTime >= EarningThreshold(minRatio, time)
  }

  // ---------------------------------------------------------------------------
  // Lazy

  /**
   * Lazy accepts exactly an IDLE driver with a request that has waited at
   * least `min_wait_time` ticks, equality included; the time and the offer's
   * estimates play no part.
   */
  lemma LazyDecision(minWaitTime: int, driver: DriverView, offer: Offer, time: int, dist: Metric,
                     time': int, travel': real, reward': Option<real>, dist': Metric)
    ensures Decide(Lazy(minWaitTime), driver, offer, time, dist)
        <==> driver.status == Idle && offer.request.waitTime >= minWaitTime
    ensures driver.status != Idle ==> !Decide(Lazy(minWaitTime), driver, offer, time, dist)
    ensures driver.status == Idle && offer.request.waitTime == minWaitTime
        ==> Decide(Lazy(minWaitTime), driver, offer, time, dist)
    ensures Decide(Lazy(minWaitTime), driver, offer, time, dist)
        == Decide(Lazy(minWaitTime), driver,
                  offer.(estimatedTravelTime := travel', estimatedReward := reward'), time', dist')
  {
  }

  /**
   * The older lazy behaviour compares the wait with `max_idle` and never
   * looks at the driver's status or the time.
   */
  lemma LegacyLazyDecision(maxIdle: int, driver: DriverView, offer: Offer, time: int, dist: Metric,
                           status': DriverStatus, time': int)
    ensures Decide(LegacyLazy(maxIdle), driver, offer, time, dist) <==> offer.request.waitTime >= maxIdle
    ensures Decide(LegacyLazy(maxIdle), driver, offer, time, dist)
        == Decide(LegacyLazy(maxIdle), driver.(status := status'), offer, time', dist)
  {
  }

  /** Waiting 10 ticks against `max_idle` 5 is accepted; waiting 2 is not. */
  lemma LegacyLazyExamples(driver: DriverView, offer: Offer, dist: Metric)
    ensures Decide(LegacyLazy(5), driver, offer.(request := offer.request.(waitTime := 10)), 0, dist)
    ensures !Decide(LegacyLazy(5), driver, offer.(request := offer.request.(waitTime := 2)), 0, dist)
  {
  }

  // ---------------------------------------------------------------------------
  // Greedy distance

  /**
   * Greedy accepts exactly a pickup strictly closer than `max_distance`, so a
   * pickup at exactly that distance is rejected; the time and the estimates
   * play no part.
   */
  lemma GreedyDecision(maxDistance: real, driver: DriverView, offer: Offer, time: int, dist: Metric,
                       time': int, travel': real, reward': Option<real>)
    ensures Decide(GreedyDistance(maxDistance), driver, offer, time, dist)
        <==> dist(driver.position, offer.request.pickup) < maxDistance
    ensures dist(driver.position, offer.request.pickup) == maxDistance
        ==> !Decide(GreedyDistance(maxDistance), driver, offer, time, dist)
    ensures Decide(GreedyDistance(maxDistance), driver, offer, time, dist)
        == Decide(GreedyDistance(maxDistance), driver,
                  offer.(estimatedTravelTime := travel', estimatedReward := reward'), time', dist)
  {
  }

  /**
   * A driver at (0,0): a pickup at (3,4), distance 5, is accepted with
   * maximum 6 and rejected with maximum 5; a pickup at (10,0) is rejected with
   * maximum 5.
   */
  lemma GreedyExamples(dist: Metric, driver: DriverView, offer: Offer)
    requires Euclidean(dist)
    requires driver.position == Point(0.0, 0.0)
    ensures offer.request.pickup == Point(3.0, 4.0) ==> Decide(GreedyDistance(6.0), driver, offer, 0, dist)
    ensures offer.request.pickup == Point(3.0, 4.0) ==> !Decide(GreedyDistance(5.0), driver, offer, 0, dist)
    ensures offer.request.pickup == Point(10.0, 0.0) ==> !Decide(GreedyDistance(5.0), driver, offer, 0, dist)
  {
    DistThreeFourFive(dist);
    DistAlongAxis(dist, Point(0.0, 0.0), Point(10.0, 0.0));
  }

  // ---------------------------------------------------------------------------
  // Earning max

  /**
   * Earning-max rejects an offer without a reward and one whose travel time
   * is not positive (so it never divides by zero); otherwise it accepts
   * exactly when reward / travel time reaches the time-scaled threshold,
   * equality included.
   */
  lemma EarningMaxDecision(minRatio: real, driver: DriverView, offer: Offer, time: int, dist: Metric)
    ensures offer.estimatedReward.None? ==> !Decide(EarningMax(minRatio), driver, offer, time, dist)
    ensures offer.estimatedTravelTime <= 0.0 ==> !Decide(EarningMax(minRatio), driver, offer, time, dist)
    ensures offer.estimatedReward.Some? && offer.estimatedTravelTime > 0.0 ==>
      (Decide(EarningMax(minRatio), driver, offer, time, dist)
       <==> offer.estimatedReward.value / offer.estimatedTravelTime >= EarningThreshold(minRatio, time))
    ensures offer.estimatedReward.Some? && offer.estimatedTravelTime > 0.0
        && offer.estimatedReward.value / offer.estimatedTravelTime == EarningThreshold(minRatio, time)
        ==> Decide(EarningMax(minRatio), driver, offer, time, dist)
  {
  }

  lemma MulMonotoneLeft(z: real, x: real, y: real)
    requires x <= y && 0.0 <= z
    ensures z * x <= z * y
  {
  }

  /** With a non-negative `min_ratio` the threshold never falls as time goes on. */
  lemma EarningThresholdMonotone(minRatio: real, time: int, later: int)
    requires 0.0 <= minRatio && time <= later
    ensures EarningThreshold(minRatio, time) <= EarningThreshold(minRatio, later)
  {
    MulMonotoneLeft(minRatio, 1.0 + 0.0005 * time as real, 1.0 + 0.0005 * later as real);
  }

  /** With a non-negative `min_ratio`, an offer rejected now is rejected at every later time. */
  lemma EarningMaxStricterOverTime(minRatio: real, driver: DriverView, offer: Offer, time: int, later: int, dist: Metric)
    requires 0.0 <= minRatio && time <= later
    requires !Decide(EarningMax(minRatio), driver, offer, time, dist)
    ensures !Decide(EarningMax(minRatio), driver, offer, later, dist)
  {
    EarningThresholdMonotone(minRatio, time, later);
  }

  /**
   * At time 0: reward 20 over travel time 5 (ratio 4) is accepted against
   * `min_ratio` 3; reward 10 over travel time 10 (ratio 1) is rejected against
   * `min_ratio` 2.
   */
  lemma EarningMaxExamples(driver: DriverView, offer: Offer, dist: Metric)
    ensures Decide(EarningMax(3.0), driver,
                   offer.(estimatedTravelTime := 5.0, estimatedReward := Some(20.0)), 0, dist)
    ensures !Decide(EarningMax(2.0), driver,
                    offer.(estimatedTravelTime := 10.0, estimatedReward := Some(10.0)), 0, dist)
  {
  }
}
