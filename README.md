# Delivery-fleet simulator: a verified model

This project models the core of a discrete-time simulator of a food-delivery
fleet, `phase2/`, in Dafny. Each tick the engine runs eight steps in order:

1. New requests (customer orders) arrive.
2. Waiting requests age, and those past the timeout expire.
3. A dispatch policy proposes (driver, request) pairs.
4. Each proposed driver's acceptance behaviour decides on an offer.
5. The accepted pairs are assigned first come, first served.
6. Every driver moves one step, and pickups and dropoffs are detected.
7. A mutation rule may replace each driver's behaviour.
8. The clock advances.

The engine keeps four counters: served, expired, total wait and completed deliveries.

The model keeps the form of the original:

- **Objects the original mutates are classes.**
  - `Request` changes its status and wait time.
  - `Driver` changes its position, status, current request, assignment position, reward, history and behaviour.
  - `DeliverySimulation` changes the request list, the clock and the counters.
  - `PointCell` models the in-place `+=` and `-=` on points.
- **Values are datatypes and functions.**
  - `Point` and `Offer` are datatypes.
  - The acceptance behaviours and mutation rules are datatypes with pure decision functions.
- **Each dispatch policy is a method with the original's loops:**
  - nearest neighbour;
  - grid-bucketed nearest neighbour;
  - global greedy (sort, then sweep).
  
  Each method is proved against a description of its result: each pair is the closest, or greedy-first, pair remaining after the ones before it. Lemmas then prove the properties of that description:
  - at most one pair per driver and per request;
  - only IDLE drivers, where the policy filters for them;
  - sizes;
  - ordering;
  - uniqueness of the result.
- **Each engine step is a method on the objects,** proved against a value function of module `EngineStages` (`AfterWaitUpdate`, `StillWaiting`, `Accepted`, `FirstComeFirstServed`, `ArrivalsAfterStep`, ...). The engine keeps an invariant `Valid()` from tick to tick:
  - every request a driver holds is in the request list and in service;
  - no request is held twice;
  - served count equals completed deliveries;
  - no count is negative.

**Distance.** Dafny has no square root, so the distance is a parameter `dist` of type `Metric`. Every member that measures uses `Euclidean(dist)`, which requires `dist(p, q)` to be the non-negative number whose square is dx² + dy². That pins `dist` down to the Euclidean distance.

**Randomness and request generation.** The request generator and the random draws of the exploration rule are inputs to `Tick`: the list of requests generated this tick, and one draw per driver.

Modules, one per file:

- `wrappers.dfy`, module `Wrappers`: Python's `None`
- `geometry.dfy`, module `Geometry`: phase2/point.py
- `requests.dfy`, module `Requests`: phase2/request.py
- `driver_status.dfy`, module `DriverStatuses`: the driver's status label and read-only view
- `offers.dfy`, module `Offers`: phase2/offer.py
- `behaviours.dfy`, module `Behaviours`: phase2/behaviour/*.py, phase2/lazy_behaviour.py
- `drivers.dfy`, module `Drivers`: phase2/driver.py
- `dispatch.dfy`, module `Dispatch`: the contract shared by the policies
- `nearest_neighbor.dfy`, module `NearestNeighbor`: phase2/policies/nearest_neighbor_policy.py
- `grid_nearest_neighbor.dfy`, module `GridNearestNeighbor`: phase2/policies/nearest_neigbor_policy_test.py
- `global_greedy.dfy`, module `GlobalGreedy`: phase2/policies/global_greedy_policy.py
- `mutation_rules.dfy`, module `MutationRules`: phase2/mutationrule/exploration.py, performance.py
- `engine_stages.dfy`, module `EngineStages`: the steps of phase2/delivery_simulation.py as functions
- `simulation.dfy`, module `Simulation`: phase2/delivery_simulation.py
- `aliased_trip.dfy`, module `AliasedTrip`: the shared-point behaviour of phase2/driver.py (see Findings)

## Model

| member | source | states |
|---|---|---|
| Geometry.AddCommutes | phase2/point.py:48-63 | `a + b == b + a` |
| Geometry.AddSubRoundTrip | phase2/point.py:48-100 | `(a + b) - b == a`: subtraction undoes addition |
| Geometry.SubAddRoundTrip | phase2/point.py:48-100 | `(a - b) + b == a`: addition undoes subtraction |
| Geometry.SubIsAddNegated | phase2/point.py:48-137 | `a - b == a + b * -1` |
| Geometry.ScaleByOne | phase2/point.py:122-154 | scaling by 1, with `p * 1` or `1 * p`, gives the point back |
| Geometry.ScaleCompose | phase2/point.py:122-154 | `(p * k) * m == p * (k·m)`, and the same for `k * (m * p)` |
| Geometry.ScaleDistributes | phase2/point.py:48-137 | `(a + b) * k == a * k + b * k` |
| Geometry.DistNonNegativeSymmetric | phase2/point.py:30-46 | the distance is non-negative and symmetric |
| Geometry.DistZeroIffEqual | phase2/point.py:30-46 | the distance is zero exactly between equal points, in both directions |
| Geometry.DistThreeFourFive | phase2/point.py:30-46 | the documented example: (0,0) to (3,4) is 5 |
| Geometry.DistAlongAxis | phase2/point.py:30-46 | points with equal y are the absolute x-difference apart |
| Geometry.DistAlongVertical | phase2/point.py:30-46 | points with equal x are the absolute y-difference apart |
| Geometry.DistLessIffSqDistLess | phase2/point.py:30-46 | comparing distances is the same as comparing squared distances, in both directions |
| Geometry.PointCell.constructor | phase2/point.py:14-28 | a point object holds the given coordinates |
| Geometry.PointCell.AddInPlace | phase2/point.py:65-83 | `p += q` changes p's coordinates to the sum and returns p itself |
| Geometry.PointCell.SubInPlace | phase2/point.py:102-120 | `p -= q` changes p's coordinates to the difference and returns p itself |
| Requests.Request.constructor | phase2/request.py:20-46 | a new request stores its id, points and creation time, and is WAITING, unassigned, with wait 0 |
| Requests.Request.IsActive | phase2/request.py:48-56 | true exactly when the status is one of the five lifecycle labels |
| Requests.Request.MarkAssigned | phase2/request.py:58-75 | ASSIGNED to the given driver, whatever the prior status; the wait is kept |
| Requests.Request.MarkPicked | phase2/request.py:77-94 | PICKED, with wait = t − creation time; the assigned driver is kept |
| Requests.Request.MarkDelivered | phase2/request.py:96-113 | DELIVERED, with the wait recomputed as t − creation time |
| Requests.Request.MarkExpired | phase2/request.py:115-133 | EXPIRED, with wait = t − creation time |
| Requests.Request.UpdateWait | phase2/request.py:135-148 | only the wait changes, to t − creation time; status and driver are unchanged |
| Offers.NewOffer | phase2/offer.py:14-40 | stores the driver and request as given. If both conversions succeed, it stores the travel time and the reward, with no reward when none is given. If a conversion fails, it stores travel time 0.0 and no reward |
| Offers.NewOfferStoresNumbers | phase2/offer.py:30-34 | the stored numbers read back unchanged, including a zero travel time and a zero reward |
| Behaviours.LazyDecision | phase2/behaviour/lazy_behaviour.py:34-51 | accepts exactly an IDLE driver whose request has waited at least `min_wait_time`, equality included. A busy driver is rejected. Time and the offer's estimates play no part |
| Behaviours.LegacyLazyDecision | phase2/lazy_behaviour.py:9-10 | accepts exactly when the wait is at least `max_idle`; the driver's status and the time play no part |
| Behaviours.LegacyLazyExamples | phase2/lazy_behaviour.py:9-10 | wait 10 against 5 is accepted, and wait 2 against 5 is rejected |
| Behaviours.GreedyDecision | phase2/behaviour/greedy_distance_behaviour.py:30-53 | accepts exactly a pickup strictly closer than `max_distance`, so equality is rejected. Time and the estimates play no part |
| Behaviours.GreedyExamples | phase2/behaviour/greedy_distance_behaviour.py:46-53 | distance 5 is accepted against 6 and rejected against 5; distance 10 is rejected against 5 |
| Behaviours.EarningMaxDecision | phase2/behaviour/earning_max_behaviour.py:59-92 | rejects an offer with no reward or with travel time ≤ 0, so there is no division by zero. Otherwise it accepts exactly when reward/time ≥ min_ratio·(1 + 0.0005·time), equality included |
| Behaviours.EarningThresholdMonotone | phase2/behaviour/earning_max_behaviour.py:84 | with min_ratio ≥ 0, the threshold never falls as time goes on |
| Behaviours.EarningMaxStricterOverTime | phase2/behaviour/earning_max_behaviour.py:84-92 | with min_ratio ≥ 0, an offer rejected at time t is also rejected at every later time |
| Behaviours.EarningMaxExamples | phase2/behaviour/earning_max_behaviour.py:84-92 | ratio 4 against 3 is accepted at time 0, and ratio 1 against 2 is rejected |
| Drivers.StepTowardNoOvershoot | phase2/driver.py:147-156 | a target within reach is reached exactly. Otherwise the driver covers exactly `speed·dt`, and the remaining distance shrinks by exactly that much |
| Drivers.StepTowardExample | phase2/driver.py:147-156 | from (0,0) at speed 2 toward (10,0), one tick ends at (2,0) |
| Drivers.Driver.constructor | phase2/driver.py:18-46 | stores the given fields, with no assignment position, reward 0.0, and the given history or an empty one |
| Drivers.Driver.TargetPoint | phase2/driver.py:110-126 | the pickup when TO_PICKUP and the dropoff when TO_DROPOFF. None with no request, when IDLE, or for any other status |
| Drivers.Driver.AtPickup | phase2/driver.py:88-97 | true exactly when heading to the pickup and within 1e-3 of it, inclusive |
| Drivers.Driver.AtDropoff | phase2/driver.py:99-108 | true exactly when heading to the dropoff and within 1e-3 of it, inclusive |
| Drivers.Driver.AssignRequest | phase2/driver.py:48-72 | records the current position as the assignment position and takes the request with status TO_PICKUP. The reward is the given one, or 0.0 without one, whatever the legacy second argument is. The request becomes ASSIGNED to this driver |
| Drivers.Driver.Step | phase2/driver.py:128-156 | does not move without a target; otherwise moves `StepToward` the target by speed·dt. Nothing else changes |
| Drivers.Driver.CompletePickup | phase2/driver.py:158-171 | only a driver heading to a pickup changes: it becomes TO_DROPOFF and its request PICKED with the wait set. Otherwise nothing changes |
| Drivers.Driver.CompleteDropoff | phase2/driver.py:173-206 | only a TO_DROPOFF driver with an assignment position delivers. Its request becomes DELIVERED, and exactly one trip record is appended with earnings = reward and distance = d(assignment position, pickup) + d(pickup, dropoff). The driver then resets to IDLE with no request, no assignment position and reward 0.0. Otherwise nothing changes |
| Dispatch.RemoveValue | phase2/policies/nearest_neighbor_policy.py:64-65 | `list.remove(x)` drops exactly x, keeps the order, and is one shorter when x was present |
| Dispatch.IdleIndices | phase2/policies/nearest_neighbor_policy.py:39 | the IDLE drivers, exactly, in list order |
| Dispatch.AllIndices | phase2/policies/nearest_neighbor_policy.py:40 | the copy `requests[:]`: every request position, in order |
| Dispatch.MatchingSizeBound | phase2/policies/dispatch_policy.py:29-30 | a matching with no driver or request used twice is no longer than either list |
| Dispatch.MaximalMatchingSize | phase2/policies/global_greedy_policy.py:44-48 | a matching that is also maximal has exactly min(#drivers, #requests) pairs |
| NearestNeighbor.ScanRequests | phase2/policies/nearest_neighbor_policy.py:47-56 | the inner scan over the requests for one driver keeps the first pair at the smallest distance seen so far |
| NearestNeighbor.ClosestPair | phase2/policies/nearest_neighbor_policy.py:43-56 | the pair found is at minimum distance among free IDLE drivers × free requests. It is strictly closer than every pair before it in driver-major order, so ties go to the first |
| NearestNeighbor.Assign | phase2/policies/nearest_neighbor_policy.py:36-67 | the result has min(#IDLE, #requests) pairs, each the closest remaining pair after the ones before it |
| NearestNeighbor.NearestNeighborAtMostOnce | phase2/policies/nearest_neighbor_policy.py:39-65 | no driver or request appears twice, every pair is within the lists, and only IDLE drivers are matched |
| NearestNeighbor.NearestNeighborDistancesNonDecreasing | phase2/policies/nearest_neighbor_policy.py:42-65 | the distances of successive pairs never decrease |
| NearestNeighbor.ClosestRemainingUnique | phase2/policies/nearest_neighbor_policy.py:46-56 | the closest remaining pair, with its tie-break, is unique |
| NearestNeighbor.NearestNeighborDeterministic | phase2/policies/nearest_neighbor_policy.py:36-67 | two results that fit the description are equal: the result is a function of the inputs |
| NearestNeighbor.NearestNeighborTieExample | phase2/policies/nearest_neighbor_policy.py:54-56 | two drivers tied for a request: the strict `<` gives it to the first driver, and the second driver takes the other request |
| GridNearestNeighbor.CellOfFloors | phase2/policies/nearest_neigbor_policy_test.py:21-25 | the cell is (⌊x/size⌋, ⌊y/size⌋) |
| GridNearestNeighbor.CellOfExamples | phase2/policies/nearest_neigbor_policy_test.py:18-25 | with the default size 5, (12,−3) is in cell (2,−1) and (0,4.9) is in cell (0,0) |
| GridNearestNeighbor.AppendToCell | phase2/policies/nearest_neigbor_policy_test.py:39 | `setdefault(cell, []).append(r)` puts the next request in its pickup's cell and keeps every cell sorted |
| GridNearestNeighbor.BuildGrid | phase2/policies/nearest_neigbor_policy_test.py:36-39 | every request is in exactly the cell of its pickup, in list order, with no empty cell |
| GridNearestNeighbor.ScanCellList | phase2/policies/nearest_neigbor_policy_test.py:53-57 | the loop over one cell's requests keeps the first pair at the smallest distance |
| GridNearestNeighbor.ScanCell | phase2/policies/nearest_neigbor_policy_test.py:52-57 | `grid.get(cell, [])` for the neighbouring cell (dx, dy), then that cell's scan |
| GridNearestNeighbor.ScanDriver | phase2/policies/nearest_neigbor_policy_test.py:48-57 | the 3×3 block of one driver, scanned dx-major from −1 to 1 |
| GridNearestNeighbor.ClosestNearPair | phase2/policies/nearest_neigbor_policy_test.py:43-60 | either no free IDLE driver has a request within one cell on both axes, or the pair found is the nearby pair at minimum distance, first in scan order among ties |
| GridNearestNeighbor.Withdraw | phase2/policies/nearest_neigbor_policy_test.py:66-69 | `remove` of the request from its cell, and `del` of a cell left empty |
| GridNearestNeighbor.WithdrawHolds | phase2/policies/nearest_neigbor_policy_test.py:62-69 | after a pair is taken, the grid holds exactly the unused requests, each in its cell, with no empty cell |
| GridNearestNeighbor.AssignInCells | phase2/policies/nearest_neigbor_policy_test.py:34-71 | each pair is the closest nearby pair after the ones before it. When the loop stops, no free IDLE driver has a free request nearby. At most min(#IDLE, #requests) pairs |
| GridNearestNeighbor.NoNearPairLeft | phase2/policies/nearest_neigbor_policy_test.py:59-60 | a round that finds no pair means no free IDLE driver and free request are in neighbouring cells |
| GridNearestNeighbor.Assign | phase2/policies/nearest_neigbor_policy_test.py:27-71 | cell size 0 with a request is a division by zero (None). With no requests nothing is matched. Otherwise the result is the grid matching for `_cell_of` |
| GridNearestNeighbor.GridAtMostOnce | phase2/policies/nearest_neigbor_policy_test.py:41-69 | no driver or request appears twice, drivers are IDLE, and each pair lies in neighbouring cells |
| GridNearestNeighbor.ClosestNearbyUnique | phase2/policies/nearest_neigbor_policy_test.py:47-57 | the chosen nearby pair, with its tie-break, is unique |
| GridNearestNeighbor.GridDeterministic | phase2/policies/nearest_neigbor_policy_test.py:27-71 | two results that fit the description are equal |
| GridNearestNeighbor.GridFarRequestExample | phase2/policies/nearest_neigbor_policy_test.py:48-60 | an IDLE driver at (0,0) and a request at (12,0) are two cells apart, so nothing is matched although both are free |
| GlobalGreedy.KeyBeforeOrder | phase2/policies/global_greedy_policy.py:38 | the sort key (distance, driver id, request id), with ties kept in list order, is a strict total order on distinct pairs |
| GlobalGreedy.SortByKey | phase2/policies/global_greedy_policy.py:38 | `combos.sort(key=...)` gives a permutation of the entries, sorted by the key |
| GlobalGreedy.AllCombos | phase2/policies/global_greedy_policy.py:32-36 | every driver, IDLE or not, against every request, in driver-major order, each entry with its distance |
| GlobalGreedy.Sweep | phase2/policies/global_greedy_policy.py:40-48 | the sweep takes, in key order, each pair whose driver and request are both unused |
| GlobalGreedy.Assign | phase2/policies/global_greedy_policy.py:19-50 | each pair is the greedy choice after the ones before it, and no unused driver is left with an unused request |
| GlobalGreedy.GreedyAtMostOnce | phase2/policies/global_greedy_policy.py:40-48 | no driver or request appears twice, and every pair is within the lists |
| GlobalGreedy.GreedySize | phase2/policies/global_greedy_policy.py:33-48 | the output has exactly min(#drivers, #requests) pairs, busy drivers included |
| GlobalGreedy.GreedyKeysIncreasing | phase2/policies/global_greedy_policy.py:38-48 | the pairs come out in strictly increasing key order, so distances never decrease |
| GlobalGreedy.GreedyFirstIsMinimum | phase2/policies/global_greedy_policy.py:38-48 | the first pair has the smallest key of all drivers × requests |
| GlobalGreedy.GreedyChoiceUnique | phase2/policies/global_greedy_policy.py:44-48 | the greedy choice after a prefix is unique |
| GlobalGreedy.GreedyDeterministic | phase2/policies/global_greedy_policy.py:19-50 | two results that fit the description are equal |
| GlobalGreedy.GreedySingleMatchExample | phase2/policies/global_greedy_policy.py:32-48 | one driver at (0,0) with pickups at (10,0) and (1,0) takes the nearer one |
| GlobalGreedy.GreedyClustersExample | phase2/policies/global_greedy_policy.py:32-48 | two far-apart clusters are paired locally |
| MutationRules.ExplorationNextAsWritten | phase2/mutationrule/exploration.py:59-66 | Lazy becomes Greedy(10) and Greedy becomes EarningMax(1). Any other behaviour raises (None), because of the constructor keyword mismatch |
| MutationRules.ExplorationEffectAsWritten | phase2/delivery_simulation.py:88-96 | the engine swallows that error, so the behaviour stays as it was; otherwise it becomes the new behaviour |
| MutationRules.ExplorationAsWrittenStuck | phase2/mutationrule/exploration.py:65-66 | as written, an EarningMax driver stays EarningMax however many draws succeed |
| MutationRules.ExplorationNext | phase2/mutationrule/exploration.py:59-66 | Lazy becomes Greedy(10), Greedy becomes EarningMax(1), and anything else becomes Lazy(5). The behaviour always changes |
| MutationRules.ExplorationNextAgrees | phase2/mutationrule/exploration.py:59-66 | the corrected rotation agrees with the code wherever the code does not raise |
| MutationRules.ExplorationRotation | phase2/mutationrule/exploration.py:59-66 | after one switch, every behaviour is on the 3-cycle Greedy(10) → EarningMax(1) → Lazy(5) |
| MutationRules.ExplorationMaybeMutate | phase2/mutationrule/exploration.py:37-66 | the code as written. A draw ≥ probability changes nothing. A smaller draw makes Lazy into Greedy(10) and Greedy into EarningMax(1). Any other behaviour raises the TypeError (`raised`), exactly then, and keeps its behaviour. No other field changes, and time plays no part |
| MutationRules.ServedValues | phase2/mutationrule/performance.py:79-91 | the usable "served" values: at most one per entry |
| MutationRules.CollectServed | phase2/mutationrule/performance.py:79-91 | the loop collects exactly the usable "served" values of the last N entries, skipping the others |
| MutationRules.PerformanceOutcome | phase2/mutationrule/performance.py:64-108 | unchanged when N ≤ 0 or the history is shorter than N. Unchanged when the last N entries hold no usable "served" value, or their mean is at least the threshold. Greedy(10) when that mean is below the threshold |
| MutationRules.PerformanceSwitchesIff | phase2/mutationrule/performance.py:93-106 | the behaviour changes exactly when N fits the history, the last N entries hold usable "served" values, their mean is below the threshold, and the driver is not already Greedy(10) |
| MutationRules.PerformanceMaybeMutate | phase2/mutationrule/performance.py:36-108 | the behaviour becomes `PerformanceOutcome`; history and every other field are unchanged, and time plays no part |
| MutationRules.PerformanceIdempotent | phase2/mutationrule/performance.py:104-106 | applying the rule twice is the same as applying it once |
| MutationRules.PerformanceIgnoresDropoffHistory | phase2/mutationrule/performance.py:79-94 | on a history with no "served" key, which is what `complete_dropoff` writes, the rule never mutates |
| MutationRules.PerformanceOnlyRecent | phase2/mutationrule/performance.py:73-74 | entries older than the last N make no difference |
| MutationRules.PerformanceMeanAtThreshold | phase2/mutationrule/performance.py:96-104 | a mean equal to the threshold leaves the behaviour unchanged |
| MutationRules.PerformanceMutatesExample | phase2/mutationrule/performance.py:96-106 | served 0, 1, 0 against 1.1 switches the driver to Greedy(10) |
| MutationRules.PerformanceKeepsExample | phase2/mutationrule/performance.py:96-104 | served 1, 1, 1 against 1.0 keeps the behaviour |
| MutationRules.MaybeMutate | phase2/delivery_simulation.py:88-96 | the call inside the engine's `try`. The behaviour becomes `RuleOutcome`: for exploration, the as-written switch, with the caught TypeError leaving the behaviour as it was; for the performance rule, `PerformanceOutcome`. Position, status, request, assignment position, reward and history are unchanged |
| EngineStages.AfterWaitUpdate | phase2/delivery_simulation.py:150-157 | a request that is not WAITING is untouched. A WAITING one gets wait = time − creation; it is EXPIRED exactly when that exceeds the timeout, and stays WAITING otherwise |
| EngineStages.WaitUpdateIdempotent | phase2/delivery_simulation.py:150-157 | a second update at the same time changes nothing, and an expired request never expires again |
| EngineStages.ExpiringCount | phase2/delivery_simulation.py:153-155 | the number of requests expiring in one update is at most the number of requests |
| EngineStages.StillWaiting | phase2/delivery_simulation.py:149-158 | the positions of exactly the WAITING requests that did not time out, in list order |
| EngineStages.StillWaitingAfterUpdate | phase2/delivery_simulation.py:149-158 | the requests passed to dispatch are exactly those that are still WAITING after the update |
| EngineStages.WaitingSplits | phase2/delivery_simulation.py:151-157 | the number of requests that expire plus the number that go to dispatch is exactly the number that were WAITING: each does one or the other |
| EngineStages.ProposeAssignments | phase2/delivery_simulation.py:161-167 | no pairs without a policy; otherwise the policy's pairs. None is the uncaught division by zero of a grid with cell size 0 |
| EngineStages.ProposalAtMostOnce | phase2/delivery_simulation.py:161-167 | every policy proposes each driver and request at most once. The nearest-neighbour policies propose only IDLE drivers |
| EngineStages.ProposalSizeBound | phase2/delivery_simulation.py:161-167 | at most min(#drivers, #requests) proposals, and at most #IDLE for the nearest-neighbour policies |
| EngineStages.BusyDriverProposed | phase2/delivery_simulation.py:165-166 | global greedy proposes a busy driver, while nearest neighbour does not |
| EngineStages.SpeedOrOne | phase2/delivery_simulation.py:174 | `speed or 1`: never zero, and the speed itself when that is non-zero |
| EngineStages.EngineOffer | phase2/delivery_simulation.py:172-175 | the offer has no reward, and travel time × (speed or 1) is the distance to the pickup |
| EngineStages.Accepted | phase2/delivery_simulation.py:170-180 | exactly the proposals whose driver's behaviour accepts the engine's offer |
| EngineStages.ProcessOffers | phase2/delivery_simulation.py:170-180 | the loop yields `Accepted(proposals)` |
| EngineStages.AcceptedKeepsOrder | phase2/delivery_simulation.py:170-180 | filtering keeps proposal order: the pairs kept from a concatenation are the pairs kept from each part, in turn |
| EngineStages.EarningMaxRejectsEngineOffers | phase2/delivery_simulation.py:175-177 | engine offers carry no reward, so an EarningMax driver never accepts one |
| EngineStages.LazyAcceptsEngineOffer | phase2/delivery_simulation.py:172-178 | a Lazy driver accepts an engine offer exactly when it is IDLE and the request has waited long enough |
| EngineStages.FirstComeFirstServed | phase2/delivery_simulation.py:182-191 | kept pairs come from the accepted ones, reuse no driver or request, and never have an ASSIGNED request |
| EngineStages.FirstComeFirstServedMaximal | phase2/delivery_simulation.py:185-188 | a pair is skipped only for cause: its driver or request was already used, or its request is ASSIGNED |
| EngineStages.SameRequestKeptOnce | phase2/delivery_simulation.py:185-191 | two drivers accepted for one request: the first is kept |
| EngineStages.SamePairKeptOnce | phase2/delivery_simulation.py:185-191 | a pair accepted twice is assigned once |
| EngineStages.ArrivalsAfterStep | phase2/delivery_simulation.py:197-206 | a pickup happens only for a driver holding a request in TO_PICKUP. A dropoff happens only in TO_DROPOFF, or right after a pickup this tick |
| EngineStages.PickupAtDropoffDeliversAtOnce | phase2/delivery_simulation.py:197-206 | a request whose pickup is its dropoff is picked up and delivered in the same tick |
| EngineStages.NoEventsWithoutTrip | phase2/delivery_simulation.py:198-203 | a driver with no request, or an IDLE one, triggers no event |
| EngineStages.DropoffLegEvents | phase2/delivery_simulation.py:202-203 | a TO_DROPOFF driver is delivered exactly when it is closer than 1e-6 to the dropoff, and is not picked up again |
| EngineStages.TripEventsCompose | phase2/delivery_simulation.py:197-206 | the pickup check followed by the dropoff check has the same effect on the driver's trip fields and on its request as both events together |
| EngineStages.WaitAddedCases | phase2/delivery_simulation.py:202-210 | a driver's turn adds to the total wait only when the dropoff check fires. A delivery adds the time since the request was created, which `mark_delivered` has just set (phase2/request.py:111). A dropoff that `complete_dropoff` does not act on adds the wait as it stands: the time since creation after a pickup this turn, the old wait otherwise |
| EngineStages.NoDropoffsNoWait | phase2/delivery_simulation.py:202-210 | turns in which no dropoff check fires leave the total wait where it was |
| EngineStages.ReleaseIffDelivered | phase2/driver.py:158-206 | a driver lets go of its ASSIGNED or PICKED request exactly when the request becomes DELIVERED; a request it still holds is still ASSIGNED or PICKED |
| EngineStages.DeliveryRecordsTrip | phase2/driver.py:183-206 | a delivery appends exactly one trip record, for the held request, with the assigned reward and the current time, and leaves the driver IDLE with reward 0.0 and no assignment position. Without a delivery the history is unchanged |
| EngineStages.AverageWait | phase2/delivery_simulation.py:123 | avg × completed = total wait when there are deliveries, and 0.0 when there are none |
| EngineStages.DriverSnapshots | phase2/delivery_simulation.py:110-118 | one entry per driver: id, coordinates and status |
| EngineStages.Pickups | phase2/delivery_simulation.py:120 | a point is listed exactly when it is the pickup of a WAITING or ASSIGNED request |
| EngineStages.Dropoffs | phase2/delivery_simulation.py:121 | a point is listed exactly when it is the dropoff of a PICKED request |
| EngineStages.PickupsAndDropoffsCount | phase2/delivery_simulation.py:120-121 | together the two lists have at most one point per request, because no request is both pickup-pending and PICKED |
| Simulation.DeliverySimulation.constructor | phase2/delivery_simulation.py:23-57 | stores the drivers, requests, policy, rule and timeout; the time and all counters start at 0 |
| Simulation.DeliverySimulation.GenerateNewRequests | phase2/delivery_simulation.py:137-140 | the generated requests are appended in order, and nothing else changes: clock, counters, total wait, every driver's position and trip |
| Simulation.DeliverySimulation.UpdateRequestWait | phase2/delivery_simulation.py:150-157 | one request becomes `AfterWaitUpdate` of itself, reporting whether it expired and whether it goes to dispatch |
| Simulation.DeliverySimulation.UpdateEachRequest | phase2/delivery_simulation.py:149-158 | each request becomes `AfterWaitUpdate` of itself, and non-WAITING ones keep their status. The result is `StillWaiting` and the number that expired |
| Simulation.DeliverySimulation.UpdateWaitingTime | phase2/delivery_simulation.py:143-158 | as above, with the expired counter raised by exactly the number that expired. Clock, other counters and total wait are unchanged, and so is every driver's position and trip, since a held request is not WAITING. The invariant is kept |
| Simulation.DeliverySimulation.AssignOne | phase2/delivery_simulation.py:189 | `assign_request(req, self.time)`: the driver heads to the request with reward 0.0 from where it stands, which becomes its assignment position. The request becomes ASSIGNED to it and keeps its wait. No other driver or request changes |
| Simulation.DeliverySimulation.FinalizeAssignments | phase2/delivery_simulation.py:182-191 | the pairs assigned are `FirstComeFirstServed(accepted)`. Each kept driver stays where it stood, makes that its assignment position, and heads with reward 0.0 to its request, now ASSIGNED to it. A kept request changes only its status and driver, so its wait is kept. Every other driver and request is unchanged, so the listed requests no pair took are still WAITING. The invariant is kept |
| Simulation.DeliverySimulation.StepAndPickUp | phase2/delivery_simulation.py:195-200 | one `step(1.0)` toward the target the driver had. The pickup fires exactly when the driver heads to its pickup and ends closer than 1e-6 to it: the driver becomes TO_DROPOFF and the request PICKED, with the wait measured at this tick. The driver's trip fields become `TripAfterEvents` of that event; behaviour, history, reward and assignment position are unchanged |
| Simulation.DeliverySimulation.DropOffIfArrived | phase2/delivery_simulation.py:202-210 | delivery exactly when TO_DROPOFF and closer than 1e-6 to the dropoff. Served and completed each rise by one, and the request's wait is added to the total. With an assignment position the request becomes DELIVERED, the driver IDLE with no request and one more trip record; without one, the driver and the request are unchanged. Position and behaviour are unchanged, and the requests list, clock and expired count too |
| Simulation.DeliverySimulation.MoveDriver | phase2/delivery_simulation.py:194-210 | one driver's turn. It ends at `AfterStep` of where it stood and the target it had. The events are `ArrivalsAfterStep` at the new position. Its trip fields become `TripAfterEvents` and its request `RequestAfterEvents` of those events: a pickup alone turns the driver TO_DROPOFF and the request PICKED; a dropoff, when the driver has an assignment position, leaves it IDLE with no request and one more trip record, and the request DELIVERED; otherwise neither changes. The counters rise by the deliveries, and total wait by `WaitAdded` of the trip it started on, which is the wait of the request it held when the dropoff fires. Behaviour, requests list, clock and expired count are unchanged |
| Simulation.DeliverySimulation.MoveDrivers | phase2/delivery_simulation.py:193-210 | every driver, in list order, takes exactly one step from where it stood toward the target it had. Each driver's events, trip fields and held request are as `MoveDriver` states; every request no driver held is unchanged. Served and completed rise by the number of deliveries. Total wait rises by `DeliveredWait` of the trips before the stage: each driver's `WaitAdded`. Behaviours, requests list, clock and expired count are unchanged |
| Simulation.DeliverySimulation.MutateDrivers | phase2/delivery_simulation.py:87-96 | each driver's behaviour becomes `RuleOutcome` of the rule, its behaviour and its draw, a caught TypeError included. Position, status, request, history, assignment position and reward are unchanged |
| Simulation.DeliverySimulation.GetSnapshot | phase2/delivery_simulation.py:101-135 | time; each driver's id, coordinates and status; pickups of WAITING/ASSIGNED requests and dropoffs of PICKED ones; served and expired counts; the average wait |
| Simulation.DeliverySimulation.Prepare | phase2/delivery_simulation.py:74-77 | generated requests are appended, then the wait update. The dispatch list is `StillWaiting` of the requests, all WAITING, and expired rises by `ExpiringCount`. Clock, served count and total wait are unchanged, and so is every driver's position and trip |
| Simulation.DeliverySimulation.ProposeAndOffer | phase2/delivery_simulation.py:78-81 | the proposals fit the policy's description on the drivers and the dispatch list, and the accepted ones are `Accepted(proposals)`. False exactly for the grid's division by zero. Nothing changes |
| Simulation.DeliverySimulation.Dispatch | phase2/delivery_simulation.py:78-83 | the proposals, and the assigned pairs = `FirstComeFirstServed(Accepted(proposals))`. Each kept pair has its driver heading to its now ASSIGNED request, which changes only its status and driver. Only the kept drivers and requests change, and the other listed requests stay WAITING. After the division by zero nothing is kept and nothing changes. The invariant is kept |
| Simulation.DeliverySimulation.AdvanceFleet | phase2/delivery_simulation.py:85-96 | movement, then mutation. Each driver's position, events, trip fields and held request are as `MoveDrivers` states, and its behaviour is `RuleOutcome` for its draw and its new history. Requests no driver held are unchanged. Served and completed rise by the deliveries, and total wait by `DeliveredWait` of the trips before the stage. Requests list, clock and expired count are unchanged |
| Simulation.DeliverySimulation.DispatchAndAdvance | phase2/delivery_simulation.py:78-99 | when dispatch succeeds: the kept pairs are `FirstComeFirstServed(Accepted(proposals))`. A kept driver steps from where it stood toward its new pickup, and every other driver toward the target it had. Each behaviour is `RuleOutcome` of the behaviour before the tick. The listed requests no pair took are still WAITING. Each driver starts moving on `trips`: its trip before the tick, or for a kept driver that trip's request ASSIGNED to it, heading TO_PICKUP from where it stood with reward 0.0 (`AssignedTrips`). Total wait rises by `DeliveredWait` of those trips and the events. Served and completed rise by the deliveries, and the clock by 1. After the grid's division by zero, nothing after dispatch happens: no driver or request changes, and neither do the counters or total wait |
| Simulation.DeliverySimulation.AdvanceDispatched | phase2/delivery_simulation.py:84-99 | steps 6 to 8 once the kept pairs are assigned. A kept driver moves from where it stood before assignment toward its new pickup, and every other driver toward the target it had. Behaviours are `RuleOutcome` of the behaviours before assignment. Unassigned listed requests stay WAITING. Served and completed rise by the deliveries, total wait by `DeliveredWait` of the trips after assignment, and the clock by 1 |
| Simulation.DeliverySimulation.AdvanceAssigned | phase2/delivery_simulation.py:84-99 | the same steps, read from the trips before assignment: the trips the drivers move on are those trips, with each kept driver's request ASSIGNED to it and the driver TO_PICKUP from where it stood with reward 0.0 (`AssignedTrips`). Total wait rises by `DeliveredWait` of those trips and the events |
| Simulation.DeliverySimulation.AdvanceClock | phase2/delivery_simulation.py:98-99 | the clock rises by exactly 1, and nothing else changes |
| Simulation.DeliverySimulation.Tick | phase2/delivery_simulation.py:59-99 | requests are appended in order. Expired rises by exactly `ExpiringCount`. False exactly when the grid raises on a non-empty dispatch list. The clock rises by 1 unless dispatch raises. Served and completed rise by the deliveries among the events. Each driver moves on a trip that is its trip before the tick, or a new assignment (`NewAssignment`: ASSIGNED to it, TO_PICKUP from where it stood, reward 0.0, same history). Total wait rises by `DeliveredWait` of those trips and the events, and is unchanged when dispatch raises. The invariant is kept |
| AliasedTrip.AliasedDriver.constructor | phase2/driver.py:18-46 | a driver object starts IDLE with no request, no assignment position and no trip recorded, holding the given position object |
| AliasedTrip.AliasedDriver.Target | phase2/driver.py:110-126 | the target object exists exactly with a request in TO_PICKUP or TO_DROPOFF |
| AliasedTrip.AliasedDriver.AssignRequest | phase2/driver.py:64 | the assignment position is the driver's own position object |
| AliasedTrip.AliasedDriver.Step | phase2/driver.py:147-156 | a reachable target object becomes the position object; otherwise the position object itself moves |
| AliasedTrip.AliasedDriver.CompletePickup | phase2/driver.py:169-171 | a driver heading to its pickup turns to the dropoff |
| AliasedTrip.AliasedDriver.CompleteDropoff | phase2/driver.py:183-206 | the distance recorded is measured on whatever the shared point objects hold at dropoff time |
| AliasedTrip.AliasedTripRun | phase2/driver.py:147-156 | the recorded distance is d(first step, third step) + d(third step, dropoff), and the request's pickup object ends at the third step |
| AliasedTrip.AliasedTripExample | phase2/driver.py:147-156 | (0,0) → (4,0) → (4,4) at speed 2 records √8 + 2, not 8, and the request's pickup ends at (4,2) |
| AliasedTrip.CorrectedTripRun | phase2/driver.py:173-206 | with points as values, the recorded distance is d(start, pickup) + d(pickup, dropoff) |
| AliasedTrip.CorrectedTripExample | phase2/driver.py:173-206 | the same example trip with values records 8 |

## Left out

- **Floating point.**
  - Coordinates, distances and ratios are mathematical reals. IEEE rounding is not modelled.
  - The two arrival thresholds, 1e-3 (inclusive) and 1e-6 (strict), are exact reals.
  - Float conversion failures are modelled only where the code branches on them: the `Offer` fallback.
- **Square root.** `distance_to` is a parameter constrained by `Euclidean`, which determines it uniquely.
- **Randomness and request generation.**
  - `phase2/request_generator.py` is not part of this model; `Tick` takes its output as the list `generated`.
  - The draws of `random.random()` are the list `draws`.
  - The exploration rule's docstring says the probability grows with time; the code ignores time, and the model follows the code.
- **Printing and the `try/except` blocks that log.** The message is not modelled; a caught error means "no effect", as in the code. The engine's catch of the exploration rule's TypeError is part of `MutationRules.RuleOutcome`. The behaviours' own `try` blocks cannot fail on the values the model passes.
- **The adapter, plotting, the legacy `food_delivery/` copies and the abstract interfaces** are not part of this model.
- **Integers** are unbounded, as in Python.
- **`Drivers.Driver.Step`** requires `speed * dt ≥ 0`. With negative movement the original can divide by zero, a case the engine never creates, since speeds are fixed at construction.
- **`Simulation.DeliverySimulation.constructor`** requires what `Valid()` needs, which the original does not check:
  - distinct driver and request objects;
  - non-negative speeds;
  - every held request in the list and ASSIGNED or PICKED;
  - no request held twice.
- **Behaviours.** Every driver has a behaviour. The original's `AttributeError` for a missing behaviour is not modelled.
- **Simulation.Holdings** is proof bookkeeping: for each driver, where its request sits in the list. It has no counterpart in the source.
- **Simulation.DeliverySimulation.DropOffIfArrived** raises the counters whenever the dropoff check fires, as the source does. Total wait is not claimed monotone, because a wait can be negative when a request's creation time lies in the future.
- Simulation.DeliverySimulation.Tick states the request list, the clock, the served, completed and expired counters, the total wait (through the trips each driver moves on) and the invariant. The new position and behaviour of each driver and the fate of each listed request are stated by `DispatchAndAdvance`, on the dispatch list `Prepare` returns. Events and trip fields are stated per driver by `AdvanceFleet` and `MoveDrivers`, from the state after assignment.
- Simulation.DeliverySimulation.DispatchAndAdvance states positions, behaviours, the trips the drivers move on and the total wait from the state before the tick, but each driver's events and trip fields after moving only through `AdvanceFleet`, from the state after assignment.
- **Point aliasing.** The main model treats points as values. The shared, mutable `Point` objects of `phase2/driver.py` are modelled only in module `AliasedTrip` (see Findings).
- **Errors.** The grid policy's `ZeroDivisionError` with cell size 0 is not caught by the engine. The model returns `None` from the policy and `false` from `Tick`, and the rest of that tick does not happen.

## Findings

| source | as written | input that shows it | evidently intended | confidence | as-written member | corrected member |
|---|---|---|---|---|---|---|
| phase2/driver.py:64 | `position_at_assignment` is the driver's live position object. `step` moves it with `+=` (phase2/point.py:81-83), and after the snap at line 151 the request's pickup object is the driver's position too | a driver at (0,0), speed 2, takes a request from (4,0) to (4,4), then 4 ticks. The recorded distance is √8 + 2 instead of 8, and the request's pickup ends at (4,2) | record the distance from where the driver was at assignment to the pickup, plus pickup to dropoff, without moving any request's points | not executed | AliasedTrip.AliasedTripExample | AliasedTrip.CorrectedTripExample |
| phase2/mutationrule/exploration.py:66 | the fallback calls `LazyBehaviour(max_idle=5)`, but that class's constructor takes `min_wait_time` (phase2/behaviour/lazy_behaviour.py:19). The TypeError is swallowed at phase2/delivery_simulation.py:91-96, so an EarningMax driver never rotates back. The engine model runs the code as written: its mutation stage uses `ExplorationEffectAsWritten`, and the corrected rotation is proved on its own | an EarningMax driver with any number of draws below the probability stays EarningMax | rotate back to a lazy behaviour with a wait of 5 | not executed | MutationRules.ExplorationAsWrittenStuck | MutationRules.ExplorationNext |
