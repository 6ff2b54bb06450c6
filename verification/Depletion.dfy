/** The linear depletion estimate and the alert severity derived from it, over exact reals. */
module Depletion {
  import opened Prelude
  import opened AlertPipeline

  const MIN_MEANINGFUL_CAPACITY := 0.02

  datatype DepletionInput = DepletionInput(soc: real, loadKw: real, capacityKwh: real, solarKw: real)

  datatype DepletionResult = DepletionResult(minutes: Option<real>, isCharging: bool, netDischargeKw: real)

  function MaxReal(a: real, b: real): real { if a < b then b else a }

  function Clamp(x: real, lo: real, hi: real): real {
    if x > hi then (if lo < hi then hi else lo) else if x < lo then lo else x
  }

  function NetLoad(input: DepletionInput): real {
    MaxReal(0.0, MaxReal(0.0, input.loadKw) - MaxReal(0.0, input.solarKw))
  }

  /** The net load is what the load exceeds the solar output by, each counting from zero. */
  lemma {:induction false} NetLoadExactly(input: DepletionInput)
    ensures 0.0 <= NetLoad(input)
    ensures 0.0 <= input.solarKw <= input.loadKw ==> NetLoad(input) == input.loadKw - input.solarKw
    ensures input.solarKw < 0.0 <= input.loadKw ==> NetLoad(input) == input.loadKw
    ensures input.loadKw <= 0.0 || input.loadKw <= input.solarKw ==> NetLoad(input) == 0.0
  {
  }

  /** Minutes until the net load has used the energy of `percent` of the capacity. */
  function Minutes(percent: real, capacity: real, net: real): real
    requires net > 0.0
  {
    percent / 100.0 * capacity / net * 60.0
  }

  function CalculateDepletion(input: DepletionInput, threshold: real): DepletionResult {
    var soc := Clamp(input.soc, 0.0, 100.0);
    var capacity := MaxReal(0.0, input.capacityKwh);
    var net := NetLoad(input);
    if capacity == 0.0 then
      if net <= 0.0 then DepletionResult(None, true, 0.0) else DepletionResult(Some(0.0), false, Round2(net))
    else if capacity < MIN_MEANINGFUL_CAPACITY then DepletionResult(None, true, 0.0)
    else if net <= 0.0 then DepletionResult(None, true, 0.0)
    else if soc - threshold <= 0.0 then DepletionResult(Some(0.0), false, Round2(net))
    else DepletionResult(Some(Round2(Minutes(soc - threshold, capacity, net))), false, Round2(net))
  }

  /** None stands for no alert. */
  function ShouldFireAlert(minutes: Option<real>, isCharging: bool): Option<Severity> {
    if isCharging || minutes.None? then None
    else if minutes.value <= 0.0 then Some(CRITICAL)
    else if minutes.value < 30.0 then Some(CRITICAL)
    else if minutes.value <= 60.0 then Some(WARNING)
    else None
  }

  function Alarm(input: DepletionInput, threshold: real): Option<Severity> {
    var r := CalculateDepletion(input, threshold);
    ShouldFireAlert(r.minutes, r.isCharging)
  }

  /** A battery worth predicting for, draining, with charge left above the threshold. */
  predicate Draining(input: DepletionInput, threshold: real) {
    0.0 <= threshold < input.soc <= 100.0 && input.capacityKwh >= MIN_MEANINGFUL_CAPACITY && NetLoad(input) > 0.0
  }

  /** While draining, the predicted minutes m satisfy: net load over m minutes is the energy above the
      threshold, up to half a hundredth of a minute. */
  lemma {:induction false} PredictionIsEnergyBalance(input: DepletionInput, threshold: real)
    requires Draining(input, threshold)
    ensures var m := CalculateDepletion(input, threshold).minutes;
            && m.Some?
            && NetLoad(input) * (m.value - 0.005) <= (input.soc - threshold) * input.capacityKwh * 0.6
               <= NetLoad(input) * (m.value + 0.005)
  {
    hide NetLoad, Round2, Clamp, Minutes, CalculateDepletion;
    var net := NetLoad(input);
    var exact := Minutes(input.soc - threshold, input.capacityKwh, net);
    DrainingMinutes(input, threshold);
    Balance(input.soc - threshold, input.capacityKwh, net);
    ScaledBounds(net, Round2(exact), exact, (input.soc - threshold) * input.capacityKwh * 0.6);
  }

  lemma {:induction false} DrainingMinutes(input: DepletionInput, threshold: real)
    requires Draining(input, threshold)
    ensures CalculateDepletion(input, threshold).minutes
            == Some(Round2(Minutes(input.soc - threshold, input.capacityKwh, NetLoad(input))))
  {
    hide NetLoad, Round2, Minutes;
  }

  lemma Balance(percent: real, capacity: real, net: real)
    requires net > 0.0
    ensures net * Minutes(percent, capacity, net) == percent * capacity * 0.6
  {
    var e := percent / 100.0 * capacity;
    var p := percent * capacity;
    assert e == p / 100.0;
    var q := e / net;
    assert q * net == e;
    assert net * (q * 60.0) == (q * net) * 60.0;
  }

  lemma ScaledBounds(net: real, m: real, exact: real, energy: real)
    requires net > 0.0 && exact - 0.005 <= m <= exact + 0.005 && net * exact == energy
    ensures net * (m - 0.005) <= energy <= net * (m + 0.005)
  {
    NoMore(net, m - 0.005, exact, energy);
    NoLess(net, m + 0.005, exact, energy);
  }

  lemma NoMore(k: real, a: real, b: real, e: real)
    requires k > 0.0 && k * b == e && a <= b
    ensures k * a <= e
  {
    Times(k, a, b);
  }

  lemma NoLess(k: real, a: real, b: real, e: real)
    requires k > 0.0 && k * b == e && b <= a
    ensures e <= k * a
  {
    Times(k, b, a);
  }

  lemma Times(k: real, a: real, b: real)
    requires k >= 0.0
    ensures a <= b ==> k * a <= k * b
    ensures k > 0.0 && k * a <= k * b ==> a <= b
  {
    if a <= b { assert k * (b - a) >= 0.0; }
    if k > 0.0 && b < a { assert k * (a - b) > 0.0; }
  }

  /** Prediction and alert together decide: no alert at all exactly when the battery cannot be predicted for,
      is not draining, or the rounded estimate exceeds an hour; critical exactly below half an hour. */
  lemma {:induction false} AlarmDecision(input: DepletionInput, threshold: real)
    ensures var r := CalculateDepletion(input, threshold);
            && (r.isCharging <==> r.minutes.None?)
            && (r.isCharging <==> NetLoad(input) == 0.0 || 0.0 < input.capacityKwh < 0.02)
            && (Alarm(input, threshold).None? <==> r.isCharging || r.minutes.value > 60.0)
            && (Alarm(input, threshold) == Some(CRITICAL) <==> !r.isCharging && r.minutes.value < 30.0)
            && (Alarm(input, threshold) == Some(WARNING) <==> !r.isCharging && 30.0 <= r.minutes.value <= 60.0)
            && (!r.isCharging ==> r.minutes.value >= 0.0 && r.netDischargeKw == Round2(NetLoad(input)))
            && (!r.isCharging && (input.capacityKwh <= 0.0 || Clamp(input.soc, 0.0, 100.0) <= threshold) ==>
                r.minutes == Some(0.0))
            && (r.isCharging ==> r.netDischargeKw == 0.0)
  {
    hide Minutes, Round2, Clamp;
    var left := Clamp(input.soc, 0.0, 100.0) - threshold;
    if NetLoad(input) > 0.0 && left > 0.0 && input.capacityKwh > 0.0 {
      MinutesPositive(left, input.capacityKwh, NetLoad(input));
      RoundsUp(Minutes(left, input.capacityKwh, NetLoad(input)));
    }
  }

  lemma MinutesPositive(percent: real, capacity: real, net: real)
    requires percent > 0.0 && capacity > 0.0 && net > 0.0
    ensures Minutes(percent, capacity, net) > 0.0
  {
    Balance(percent, capacity, net);
    assert percent * capacity > 0.0;
    hide Minutes;
    if Minutes(percent, capacity, net) <= 0.0 { Times(net, Minutes(percent, capacity, net), 0.0); }
  }

  lemma RoundsUp(x: real)
    requires x >= 0.0
    ensures Round2(x) >= 0.0
  {
    assert Round(x * 100.0) >= 0;
  }
}
