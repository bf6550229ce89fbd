/**
 * A proposed (driver, request) pairing with its estimates (phase2/offer.py).
 */
module Offers {
  import opened Wrappers
  import opened Requests
  import opened DriverStatuses

  /**
   * The outcome of `float(x)` on a constructor argument: a number, or a value
   * the conversion rejects.
   */
  datatype RawNumber = Numeric(value: real) | NotNumeric

  datatype Offer = Offer(
    driver: DriverView,
    request: RequestView,
    estimatedTravelTime: real,
    estimatedReward: Option<real>)

  /** True when `float` accepts the travel time and the reward, if one is given. */
  predicate Converts(travelTime: RawNumber, reward: Option<RawNumber>) {
    travelTime.Numeric? && (reward.None? || reward.value.Numeric?)
  }

  /**
   * `Offer(driver, request, estimated_travel_time, estimated_reward=None)`.
   * When a conversion fails, the offer keeps the driver and the request and
   * falls back to travel time 0.0 and no reward.
   */
  function NewOffer(driver: DriverView, request: RequestView, travelTime: RawNumber, reward: Option<RawNumber>): (o: Offer)
    ensures o.driver == driver && o.request == request
    ensures Converts(travelTime, reward) ==> o.estimatedTravelTime == travelTime.value
    ensures Converts(travelTime, reward) ==> (o.estimatedReward.Some? <==> reward.Some?)
    ensures Converts(travelTime, reward) && reward.Some? ==> o.estimatedReward.value == reward.value.value
    ensures !Converts(travelTime, reward) ==> o.estimatedTravelTime == 0.0 && o.estimatedReward == None
  {
    match (travelTime, reward)
    case (Numeric(t), None) => Offer(driver, request, t, None)
    case (Numeric(t), Some(Numeric(r))) => Offer(driver, request, t, Some(r))
    case _ => Offer(driver, request, 0.0, None)
  }

  /** Reading the fields back gives what was stored, including a zero reward and a zero travel time. */
  lemma NewOfferStoresNumbers(driver: DriverView, request: RequestView, t: real, r: real)
    ensures NewOffer(driver, request, Numeric(t), None) == Offer(driver, request, t, None)
    ensures NewOffer(driver, request, Numeric(t), Some(Numeric(r))) == Offer(driver, request, t, Some(r))
    ensures NewOffer(driver, request, Numeric(0.0), Some(Numeric(0.0))).estimatedReward == Some(0.0)
  {
  }
}
