/**
 * Mutation rules (phase2/mutationrule/): after every tick each driver's
 * behaviour may be replaced.
 *
 * - Exploration rotates Lazy -> GreedyDistance -> EarningMax -> Lazy when a
 *   random draw falls below the rule's probability. The draw is a parameter.
 * - Performance-based switches an under-performing driver to GreedyDistance
 *   after averaging the "served" values of its last N trips.
 *
 * A rule only ever reassigns `driver.behaviour`.
 */
module MutationRules {
  import opened Wrappers
  import opened Behaviours
  import opened Drivers

  datatype MutationRule =
    | Exploration(probability: real)
    | PerformanceBased(threshold: real, window: int)

  // ---------------------------------------------------------------------------
  // Exploration

  /**
   * The behaviour exploration switches to, as the code is written. `None`
   * stands for the TypeError raised when the fallback calls the lazy
   * behaviour's constructor with the keyword `max_idle`, which it does not
   * take: nothing is assigned.
   */
  function ExplorationNextAsWritten(b: Behaviour): (r: Option<Behaviour>)
    ensures b.Lazy? ==> r == Some(GreedyDistance(10.0))
    ensures b.GreedyDistance? ==> r == Some(EarningMax(1.0))
    ensures r.None? <==> !(b.Lazy? || b.GreedyDistance?)
  {
    match b
    case Lazy(_) => Some(GreedyDistance(10.0))
    case GreedyDistance(_) => Some(EarningMax(1.0))
    case _ => None
  }

  /** The engine catches that TypeError, so the driver keeps its behaviour. */
  function ExplorationEffectAsWritten(b: Behaviour): (r: Behaviour)
    ensures ExplorationNextAsWritten(b).None? ==> r == b
    ensures ExplorationNextAsWritten(b).Some? ==> r == ExplorationNextAsWritten(b).value
  {
    match ExplorationNextAsWritten(b)
    case None => b
    case Some(next) => next
  }

  /** `k` successful exploration draws in a row, as written. */
  function ExplorationRepeatAsWritten(b: Behaviour, k: nat): Behaviour
    decreases k
  {
    if k == 0 then b else ExplorationRepeatAsWritten(ExplorationEffectAsWritten(b), k - 1)
  }

  /**
   * As written, the rotation never closes: an EarningMax driver stays
   * EarningMax however many draws succeed, and never becomes Lazy again.
   */
  lemma {:induction false} ExplorationAsWrittenStuck(minRatio: real, k: nat)
    ensures ExplorationRepeatAsWritten(EarningMax(minRatio), k) == EarningMax(minRatio)
    ensures !ExplorationRepeatAsWritten(EarningMax(minRatio), k).Lazy?
  {
    if k > 0 {
      assert ExplorationEffectAsWritten(EarningMax(minRatio)) == EarningMax(minRatio);
      ExplorationAsWrittenStuck(minRatio, k - 1);
    }
  }

  /** The lazy behaviour exploration falls back to, with `min_wait_time` 5. */
  const ExplorationLazyWait: int := 5

  /**
   * The behaviour exploration switches to: Lazy becomes GreedyDistance(10),
   * GreedyDistance becomes EarningMax(1), and anything else becomes
   * Lazy(min_wait_time 5).
   */
  function ExplorationNext(b: Behaviour): (r: Behaviour)
    ensures b.Lazy? ==> r == GreedyDistance(10.0)
    ensures b.GreedyDistance? ==> r == EarningMax(1.0)
    ensures !(b.Lazy? || b.GreedyDistance?) ==> r == Lazy(ExplorationLazyWait)
    ensures r != b
  {
    match b
    case Lazy(_) => GreedyDistance(10.0)
    case GreedyDistance(_) => EarningMax(1.0)
    case _ => Lazy(ExplorationLazyWait)
  }

  /** The corrected rule agrees with the code wherever the code does not raise. */
  lemma ExplorationNextAgrees(b: Behaviour)
    ensures ExplorationNextAsWritten(b).Some? ==> ExplorationNext(b) == ExplorationNextAsWritten(b).value
    ensures ExplorationNextAsWritten(b).None? ==> ExplorationNext(b) == Lazy(ExplorationLazyWait)
  {
  }

  /** After one switch every behaviour is on the cycle Greedy(10) -> EarningMax(1) -> Lazy(5). */
  lemma ExplorationRotation(b: Behaviour)
    ensures ExplorationNext(b) in {GreedyDistance(10.0), EarningMax(1.0), Lazy(ExplorationLazyWait)}
    ensures ExplorationNext(ExplorationNext(ExplorationNext(ExplorationNext(b)))) == ExplorationNext(b)
  {
  }

  /**
   * `maybe_mutate` of the exploration rule, as written: a draw at or above
   * the probability changes nothing; otherwise Lazy and GreedyDistance
   * switch, and any other behaviour makes the fallback raise the TypeError
   * (`raised`) before anything is assigned. The time plays no part.
   */
  method ExplorationMaybeMutate(probability: real, driver: Driver, draw: real, time: int) returns (raised: bool)
    modifies driver
    ensures raised <==> draw < probability && ExplorationNextAsWritten(old(driver.behaviour)).None?
    ensures draw >= probability || raised ==> driver.behaviour == old(driver.behaviour)
    ensures draw < probability && !raised ==> driver.behaviour == ExplorationNextAsWritten(old(driver.behaviour)).value
    ensures driver.position == old(driver.position) && driver.status == old(driver.status)
    ensures driver.currentRequest == old(driver.currentRequest)
    ensures driver.positionAtAssignment == old(driver.positionAtAssignment)
    ensures driver.assignedReward == old(driver.assignedReward) && driver.history == old(driver.history)
  {
    raised := false;
    if draw >= probability {
      return;
    }
    match ExplorationNextAsWritten(driver.behaviour)
    case Some(next) =>
      driver.behaviour := next;
    case None =>
      raised := true;
  }

  // ---------------------------------------------------------------------------
  // Performance-based

  /** The usable "served" values of some history entries, in order. */
  function ServedValues(entries: seq<TripRecord>): (served: seq<real>)
    ensures |served| <= |entries|
  {
    if |entries| == 0 then []
    else
      var init := ServedValues(entries[..|entries| - 1]);
      var last := entries[|entries| - 1];
      if last.served.Some? then init + [last.served.value] else init
  }

  /** `sum(values)`, left to right. */
  function Sum(values: seq<real>): real {
    if |values| == 0 then 0.0 else Sum(values[..|values| - 1]) + values[|values| - 1]
  }

  /** `sum(values) / len(values)` on a non-empty list. */
  function Mean(values: seq<real>): real
    requires |values| > 0
  {
    Sum(values) / (|values| as real)
  }

  /** The last `window` entries, `history[-window:]` for a window within the history. */
  function Recent(history: seq<TripRecord>, window: int): seq<TripRecord>
    requires 0 < window <= |history|
  {
    history[|history| - window..]
  }

  /**
   * The behaviour after the performance rule: unchanged with a window that
   * is not positive or longer than the history, or when none of the last
   * `window` entries has a usable "served" value; GreedyDistance(10) when
   * their mean is below the threshold; unchanged otherwise.
   */
  function PerformanceOutcome(b: Behaviour, history: seq<TripRecord>, threshold: real, window: int): (r: Behaviour)
    ensures r == b || r == GreedyDistance(10.0)
    ensures window <= 0 || |history| < window ==> r == b
    ensures (0 < window <= |history| && |ServedValues(Recent(history, window))| > 0
             && Mean(ServedValues(Recent(history, window))) < threshold)
            ==> r == GreedyDistance(10.0)
    ensures (0 < window <= |history|
             && (|ServedValues(Recent(history, window))| == 0 || Mean(ServedValues(Recent(history, window))) >= threshold))
            ==> r == b
  {
    if |history| < window || window <= 0 then b
    else
      var served := ServedValues(Recent(history, window));
      if |served| == 0 then b
      else if Mean(served) < threshold then GreedyDistance(10.0)
      else b
  }

  /** The "served" values collected one entry at a time. */
  lemma ServedValuesAppend(entries: seq<TripRecord>, e: TripRecord)
    ensures ServedValues(entries + [e])
         == ServedValues(entries) + (if e.served.Some? then [e.served.value] else [])
  {
    assert (entries + [e])[..|entries|] == entries;
  }

  /**
   * The loop of `maybe_mutate` that gathers the usable "served" values of the
   * last `window` entries; entries without one are skipped.
   */
  method CollectServed(history: seq<TripRecord>, window: int) returns (servedCounts: seq<real>)
    requires 0 < window <= |history|
    ensures servedCounts == ServedValues(Recent(history, window))
  {
    var start := |history| - window;
    servedCounts := [];
    var i := start;
    while i < |history|
      invariant start <= i <= |history|
      invariant servedCounts == ServedValues(history[start..i])
    {
      ServedValuesAppend(history[start..i], history[i]);
      assert history[start..i + 1] == history[start..i] + [history[i]];
      if history[i].served.Some? {
        servedCounts := servedCounts + [history[i].served.value];
      }
      i := i + 1;
    }
    assert history[start..i] == Recent(history, window);
  }

  /**
   * `maybe_mutate` of the performance rule. It reads the history without
   * changing it, and the time plays no part.
   */
  method PerformanceMaybeMutate(threshold: real, window: int, driver: Driver, time: int)
    modifies driver
    ensures driver.behaviour == PerformanceOutcome(old(driver.behaviour), driver.history, threshold, window)
    ensures driver.position == old(driver.position) && driver.status == old(driver.status)
    ensures driver.currentRequest == old(driver.currentRequest)
    ensures driver.positionAtAssignment == old(driver.positionAtAssignment)
    ensures driver.assignedReward == old(driver.assignedReward) && driver.history == old(driver.history)
  {
    var history := driver.history;
    if |history| < window || window <= 0 {
      return;
    }
    var servedCounts := CollectServed(history, window);
    if |servedCounts| == 0 {
      return;
    }
    var average := Mean(servedCounts);
    if average < threshold {
      driver.behaviour := GreedyDistance(10.0);
    }
  }

  /** Applying the performance rule a second time changes nothing more. */
  lemma PerformanceIdempotent(b: Behaviour, history: seq<TripRecord>, threshold: real, window: int)
    ensures PerformanceOutcome(PerformanceOutcome(b, history, threshold, window), history, threshold, window)
         == PerformanceOutcome(b, history, threshold, window)
  {
  }

  /**
   * The rule changes a behaviour exactly when the window fits the history,
   * the window holds usable "served" values, their mean is below the
   * threshold, and the driver is not already GreedyDistance(10).
   */
  lemma PerformanceSwitchesIff(b: Behaviour, history: seq<TripRecord>, threshold: real, window: int)
    ensures PerformanceOutcome(b, history, threshold, window) != b
        <==> b != GreedyDistance(10.0) && 0 < window <= |history|
             && |ServedValues(Recent(history, window))| > 0
             && Mean(ServedValues(Recent(history, window))) < threshold
  {
  }

  /** Entries without a "served" value contribute nothing. */
  lemma {:induction false} NoServedValues(entries: seq<TripRecord>)
    requires forall j :: 0 <= j < |entries| ==> entries[j].served.None?
    ensures ServedValues(entries) == []
  {
    if |entries| > 0 {
      NoServedValues(entries[..|entries| - 1]);
    }
  }

  /**
   * On a history written by `complete_dropoff`, whose entries never carry a
   * "served" key, the performance rule never changes the behaviour.
   */
  lemma PerformanceIgnoresDropoffHistory(b: Behaviour, history: seq<TripRecord>, threshold: real, window: int)
    requires forall j :: 0 <= j < |history| ==> history[j].served.None?
    ensures PerformanceOutcome(b, history, threshold, window) == b
  {
    if 0 < window <= |history| {
      NoServedValues(Recent(history, window));
    }
  }

  /** Only the last `window` entries count: older entries make no difference. */
  lemma PerformanceOnlyRecent(b: Behaviour, older: seq<TripRecord>, history: seq<TripRecord>,
                              threshold: real, window: int)
    ensures PerformanceOutcome(b, older + history, threshold, window)
         == PerformanceOutcome(b, history, threshold, window)
    || |history| < window
  {
    if 0 < window <= |history| {
      assert Recent(older + history, window) == Recent(history, window);
    }
  }

  /** A mean equal to the threshold is not below it: the behaviour stays. */
  lemma PerformanceMeanAtThreshold(b: Behaviour, history: seq<TripRecord>, threshold: real, window: int)
    requires 0 < window <= |history|
    requires |ServedValues(Recent(history, window))| > 0
    requires Mean(ServedValues(Recent(history, window))) == threshold
    ensures PerformanceOutcome(b, history, threshold, window) == b
  {
  }

  /** A trip record with the given "served" value. */
  function Served(value: real): TripRecord {
    TripRecord(0, 0, 0, 0.0, 0.0, Some(value))
  }

  /** Three trips that all carry a "served" value. */
  lemma ThreeServed(x: real, y: real, z: real)
    ensures Recent([Served(x), Served(y), Served(z)], 3) == [Served(x), Served(y), Served(z)]
    ensures ServedValues([Served(x), Served(y), Served(z)]) == [x, y, z]
    ensures Sum([x, y, z]) == x + y + z
  {
    ServedValuesThree(x, y, z);
    SumThree(x, y, z);
  }

  /** The "served" values of three such trips, in order. */
  lemma ServedValuesThree(x: real, y: real, z: real)
    ensures ServedValues([Served(x), Served(y), Served(z)]) == [x, y, z]
  {
    var one, two, three := [Served(x)], [Served(x), Served(y)], [Served(x), Served(y), Served(z)];
    ServedValuesAppend([], Served(x));
    assert [] + [Served(x)] == one;
    ServedValuesAppend(one, Served(y));
    assert one + [Served(y)] == two;
    ServedValuesAppend(two, Served(z));
    assert two + [Served(z)] == three;
  }

  /** `sum` of three values, unfolded. */
  lemma SumThree(x: real, y: real, z: real)
    ensures Sum([x, y, z]) == x + y + z
  {
    assert [x, y, z][..2] == [x, y];
    assert [x, y][..1] == [x];
    assert [x][..0] == [];
    assert Sum([x]) == x;
    assert Sum([x, y]) == x + y;
  }

  /** Served 0, 1, 0 over a window of 3 averages 1/3: below 1.1 the driver switches to GreedyDistance. */
  lemma PerformanceMutatesExample(b: Behaviour)
    ensures PerformanceOutcome(b, [Served(0.0), Served(1.0), Served(0.0)], 1.1, 3) == GreedyDistance(10.0)
  {
    ThreeServed(0.0, 1.0, 0.0);
  }

  /** Served 1, 1, 1 averages 1: against threshold 1.0 the driver keeps its behaviour. */
  lemma PerformanceKeepsExample(b: Behaviour)
    ensures PerformanceOutcome(b, [Served(1.0), Served(1.0), Served(1.0)], 1.0, 3) == b
  {
    ThreeServed(1.0, 1.0, 1.0);
  }

  // ---------------------------------------------------------------------------
  // The rule the engine holds

  /**
   * `mutation_rule.maybe_mutate(driver, time)` inside the engine's `try`:
   * `draw` is the value `random.random()` returns to the exploration rule,
   * and a TypeError the rule raises is caught, so the driver keeps its
   * behaviour.
   */
  method MaybeMutate(rule: MutationRule, driver: Driver, draw: real, time: int)
    modifies driver
    ensures driver.behaviour == RuleOutcome(rule, old(driver.behaviour), driver.history, draw)
    ensures driver.position == old(driver.position) && driver.status == old(driver.status)
    ensures driver.currentRequest == old(driver.currentRequest)
    ensures driver.positionAtAssignment == old(driver.positionAtAssignment)
    ensures driver.assignedReward == old(driver.assignedReward) && driver.history == old(driver.history)
  {
    match rule
    case Exploration(probability) =>
      var raised := ExplorationMaybeMutate(probability, driver, draw, time);
    case PerformanceBased(threshold, window) =>
      PerformanceMaybeMutate(threshold, window, driver, time);
  }

  /** The behaviour a rule leaves a driver with, an error the engine catches included. */
  function RuleOutcome(rule: MutationRule, b: Behaviour, history: seq<TripRecord>, draw: real): Behaviour {
    match rule
    case Exploration(probability) => if draw >= probability then b else ExplorationEffectAsWritten(b)
    case PerformanceBased(threshold, window) => PerformanceOutcome(b, history, threshold, window)
  }
}
