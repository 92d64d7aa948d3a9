/**
 * The alert decision of the price tracker's monitor loop (main in
 * automatic_price_taker.py).
 *
 * The only state carried from one poll cycle to the next is the last
 * alerted price, initially unset. A cycle that observes a price at most the
 * threshold, and either with no earlier alert or strictly below the last
 * alerted price, sends an alert and records that price; every other cycle
 * leaves the state alone. Sending an alert is modelled as appending the
 * price to a list of alerts.
 */
module Monitor {
  import opened Wrappers

  /** What one cycle reports: the four status branches of the loop body. */
  datatype Status = Unavailable | AboveThreshold | NoNewDrop | Alerted

  /** The outcome of one cycle: its status and the new last alerted price. */
  datatype Cycle = Cycle(status: Status, last: Option<real>)

  /** The alerts sent so far, oldest first, and the last alerted price. */
  datatype Trace = Trace(alerts: seq<real>, last: Option<real>)

  /** The alert condition of one cycle, stated as a single formula. */
  predicate ShouldAlert(last: Option<real>, observed: Option<real>, threshold: real)
  {
    observed.Some? && observed.value <= threshold &&
    (last.None? || observed.value < last.value)
  }

  /** One poll cycle: the nested decisions of the loop body. */
  function Step(last: Option<real>, observed: Option<real>, threshold: real): (c: Cycle)
    ensures c.status == Alerted <==> ShouldAlert(last, observed, threshold)
    ensures c.status == Unavailable <==> observed.None?
    ensures c.status == AboveThreshold <==> observed.Some? && observed.value > threshold
    ensures c.status == NoNewDrop <==>
      observed.Some? && observed.value <= threshold && last.Some? && observed.value >= last.value
    ensures c.status == Alerted ==> c.last == observed
    ensures c.status != Alerted ==> c.last == last
  {
    match observed
    case None => Cycle(Unavailable, last)
    case Some(price) =>
      if price <= threshold then
        if last.None? || price < last.value then Cycle(Alerted, observed)
        else Cycle(NoNewDrop, last)
      else Cycle(AboveThreshold, last)
  }

  /** Runs the cycles over the observations from a given last alerted price. */
  function RunFrom(last: Option<real>, observations: seq<Option<real>>, threshold: real): Trace
    decreases |observations|
  {
    if observations == [] then Trace([], last)
    else
      var c := Step(last, observations[0], threshold);
      var rest := RunFrom(c.last, observations[1..], threshold);
      var sent := if c.status == Alerted then [observations[0].value] else [];
      Trace(sent + rest.alerts, rest.last)
  }

  /** The monitor from start-up, where no alert has been sent. */
  function Run(observations: seq<Option<real>>, threshold: real): Trace
  {
    RunFrom(None, observations, threshold)
  }

  predicate StrictlyDecreasing(s: seq<real>)
  {
    forall i, j :: 0 <= i < j < |s| ==> s[j] < s[i]
  }

  predicate AllAtMost(s: seq<real>, bound: real)
  {
    forall i :: 0 <= i < |s| ==> s[i] <= bound
  }

  /** The last element of s, or the given default when s is empty. */
  function LastOr(s: seq<real>, default: Option<real>): Option<real>
  {
    if s == [] then default else Some(s[|s| - 1])
  }

  // ---------------------------------------------------------------------
  // One cycle
  // ---------------------------------------------------------------------

  /** A cycle never raises the last alerted price and never unsets it. */
  lemma {:induction false} StepNeverRaises(last: Option<real>, observed: Option<real>, threshold: real)
    ensures var c := Step(last, observed, threshold);
      (last.Some? ==> c.last.Some? && c.last.value <= last.value) &&
      (c.status == Alerted && last.Some? ==> c.last.value < last.value)
  {
  }

  /** Observing the same value twice in a row alerts at most once. */
  lemma {:induction false} StepRepeatNoAlert(last: Option<real>, observed: Option<real>, threshold: real)
    ensures var c := Step(last, observed, threshold);
      Step(c.last, observed, threshold).status != Alerted &&
      Step(c.last, observed, threshold).last == c.last
  {
  }

  // ---------------------------------------------------------------------
  // Runs over finite observation sequences
  // ---------------------------------------------------------------------

  /**
   * The alerts of a run strictly decrease, each is below the starting last
   * alerted price and within the threshold, the final last alerted price is
   * the last alert (or the starting one when nothing was sent), and there are
   * no more alerts than cycles.
   */
  lemma {:induction false} RunFromAlertsDecrease(last: Option<real>, observations: seq<Option<real>>, threshold: real)
    ensures var t := RunFrom(last, observations, threshold);
      StrictlyDecreasing(t.alerts) &&
      AllAtMost(t.alerts, threshold) &&
      (last.Some? ==> forall i :: 0 <= i < |t.alerts| ==> t.alerts[i] < last.value) &&
      t.last == LastOr(t.alerts, last) &&
      |t.alerts| <= |observations|
    decreases |observations|
  {
    if observations != [] {
      var c := Step(last, observations[0], threshold);
      RunFromAlertsDecrease(c.last, observations[1..], threshold);
    }
  }

  /** Every alerted price is a price that was observed. */
  lemma {:induction false} RunFromAlertObserved(last: Option<real>, observations: seq<Option<real>>, threshold: real, i: nat)
    requires i < |RunFrom(last, observations, threshold).alerts|
    ensures Some(RunFrom(last, observations, threshold).alerts[i]) in observations
    decreases |observations|
  {
    var c := Step(last, observations[0], threshold);
    var rest := RunFrom(c.last, observations[1..], threshold);
    var t := RunFrom(last, observations, threshold);
    var sent := if c.status == Alerted then [observations[0].value] else [];
    assert t.alerts == sent + rest.alerts;
    if i >= |sent| {
      RunFromAlertObserved(c.last, observations[1..], threshold, i - |sent|);
      assert t.alerts[i] == rest.alerts[i - |sent|];
      assert observations == [observations[0]] + observations[1..];
    }
  }

  /** Running over p and then q is running over p + q. */
  lemma {:induction false} RunFromConcat(last: Option<real>, p: seq<Option<real>>, q: seq<Option<real>>, threshold: real)
    ensures var tp := RunFrom(last, p, threshold);
      var tq := RunFrom(tp.last, q, threshold);
      RunFrom(last, p + q, threshold) == Trace(tp.alerts + tq.alerts, tq.last)
    decreases |p|
  {
    if p == [] {
      assert p + q == q;
    } else {
      assert (p + q)[0] == p[0];
      assert (p + q)[1..] == p[1..] + q;
      var c := Step(last, p[0], threshold);
      RunFromConcat(c.last, p[1..], q, threshold);
    }
  }

  /**
   * Once a price within the threshold has been observed, the last alerted
   * price is set and is at most that price.
   */
  lemma {:induction false} RunFromLastAtMostObserved(last: Option<real>, observations: seq<Option<real>>, threshold: real, x: real)
    requires Some(x) in observations && x <= threshold
    ensures var t := RunFrom(last, observations, threshold);
      t.last.Some? && t.last.value <= x
    decreases |observations|
  {
    var c := Step(last, observations[0], threshold);
    if observations[0] == Some(x) {
      assert c.last.Some? && c.last.value <= x;
      RunFromAlertsDecrease(c.last, observations[1..], threshold);
    } else {
      assert Some(x) in observations[1..];
      RunFromLastAtMostObserved(c.last, observations[1..], threshold, x);
    }
  }

  /**
   * A price alerts again only as a new minimum: after a price x within the
   * threshold has been observed, every later alert is strictly below x, even
   * when the price rose above the threshold in between.
   */
  lemma {:induction false} NoRealertWithoutNewMinimum(p: seq<Option<real>>, q: seq<Option<real>>, threshold: real, x: real)
    requires Some(x) in p && x <= threshold
    ensures var tp := Run(p, threshold);
      var t := Run(p + q, threshold);
      |tp.alerts| <= |t.alerts| && t.alerts[..|tp.alerts|] == tp.alerts &&
      forall i :: |tp.alerts| <= i < |t.alerts| ==> t.alerts[i] < x
  {
    var tp := Run(p, threshold);
    var tq := RunFrom(tp.last, q, threshold);
    RunFromConcat(None, p, q, threshold);
    RunFromLastAtMostObserved(None, p, threshold, x);
    RunFromAlertsDecrease(tp.last, q, threshold);
    var t := Run(p + q, threshold);
    assert t.alerts == tp.alerts + tq.alerts;
    forall i | |tp.alerts| <= i < |t.alerts| ensures t.alerts[i] < x {
      assert t.alerts[i] == tq.alerts[i - |tp.alerts|];
    }
  }

  /** Repeating the latest observation adds no alert and changes no state. */
  lemma {:induction false} RepeatedObservationNoAlert(p: seq<Option<real>>, o: Option<real>, threshold: real)
    ensures Run(p + [o, o], threshold) == Run(p + [o], threshold)
  {
    var tp := Run(p, threshold);
    RunFromConcat(None, p, [o, o], threshold);
    RunFromConcat(None, p, [o], threshold);
    var c := Step(tp.last, o, threshold);
    StepRepeatNoAlert(tp.last, o, threshold);
    assert [o, o][1..] == [o];
    assert RunFrom(c.last, [o], threshold) == Trace([], c.last);
  }

  // ---------------------------------------------------------------------
  // Scenarios
  // ---------------------------------------------------------------------

  /** Threshold 50 and prices 60, 45, 45, 40, 42, 38 alert at 45, 40 and 38. */
  lemma FallingPricesScenario()
    ensures Run([Some(60.0), Some(45.0), Some(45.0), Some(40.0), Some(42.0), Some(38.0)], 50.0).alerts
      == [45.0, 40.0, 38.0]
  {
  }

  /** Three unavailable cycles and then 49.99 under threshold 50 give one alert, at 49.99. */
  lemma UnavailableThenDropScenario()
    ensures Run([None, None, None, Some(49.99)], 50.0).alerts == [49.99]
  {
  }

  /** A price equal to the threshold alerts. */
  lemma {:induction false} ThresholdInclusiveScenario(threshold: real)
    ensures Run([Some(threshold)], threshold).alerts == [threshold]
  {
    var observations := [Some(threshold)];
    assert observations[1..] == [];
    assert Step(None, observations[0], threshold).status == Alerted;
    assert RunFrom(Some(threshold), observations[1..], threshold).alerts == [];
  }

  /** One more cycle at the end of a run is one more step from the state the run left. */
  lemma {:induction false} RunSnoc(p: seq<Option<real>>, o: Option<real>, threshold: real)
    ensures var t := Run(p, threshold);
      var c := Step(t.last, o, threshold);
      Run(p + [o], threshold) ==
        Trace(t.alerts + (if c.status == Alerted then [o.value] else []), c.last)
  {
    var t := Run(p, threshold);
    RunFromConcat(None, p, [o], threshold);
    assert [o][1..] == [];
  }

  lemma {:induction false} AppendSmallerKeepsDecreasing(s: seq<real>, x: real)
    requires StrictlyDecreasing(s)
    requires s != [] ==> x < s[|s| - 1]
    ensures StrictlyDecreasing(s + [x])
  {
  }

  // ---------------------------------------------------------------------
  // The loop
  // ---------------------------------------------------------------------

  /**
   * The monitor loop over a finite prefix of its cycles. Each cycle takes
   * the next observation; an alert appends the price to alerts and records
   * it as the last alerted price.
   */
  method MonitorLoop(observations: seq<Option<real>>, threshold: real)
    returns (alerts: seq<real>, lastPrice: Option<real>)
    ensures Trace(alerts, lastPrice) == Run(observations, threshold)
    ensures StrictlyDecreasing(alerts)
    ensures AllAtMost(alerts, threshold)
    ensures lastPrice == LastOr(alerts, None)
  {
    lastPrice := None;
    alerts := [];
    var i := 0;
    while i < |observations|
      invariant 0 <= i <= |observations|
      invariant Run(observations[..i], threshold) == Trace(alerts, lastPrice)
      invariant StrictlyDecreasing(alerts)
      invariant AllAtMost(alerts, threshold)
      invariant lastPrice == LastOr(alerts, None)
    {
      var currentPrice := observations[i];
      assert observations[..i + 1] == observations[..i] + [currentPrice];
      RunSnoc(observations[..i], currentPrice, threshold);
      if ShouldAlert(lastPrice, currentPrice, threshold) {
        AppendSmallerKeepsDecreasing(alerts, currentPrice.value);
        alerts := alerts + [currentPrice.value];
        lastPrice := currentPrice;
      }
      i := i + 1;
    }
    assert observations[..i] == observations;
  }
}
