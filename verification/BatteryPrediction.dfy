/** The depletion estimate against the simulator: when the charge of a device really reaches a threshold. */
module BatteryPrediction {
  import opened Prelude
  import opened AlertPipeline
  import opened Depletion
  import opened Simulator
  import opened SimulatorModes

  /** One device over consecutive ticks; the weather is arbitrary. */
  predicate Ticks(states: seq<DeviceState>, ws: seq<Weather>) {
    && |states| == |ws| + 1
    && (forall i :: 0 <= i < |states| ==> states[i].capacityKwh > 0.0)
    && (forall i :: 0 <= i < |ws| ==> states[i + 1] == Ticked(states[i], ws[i]))
    && 0.0 <= states[0].soc <= 100.0
  }

  /** The power a tick took from the battery. */
  function Draw(d: DeviceState): real { d.loadKw - d.solarKw }

  predicate DrawAtMost(states: seq<DeviceState>, k: nat, hi: real) {
    k < |states| && forall i :: 0 < i <= k ==> Draw(states[i]) <= hi
  }

  predicate DrawAtLeast(states: seq<DeviceState>, k: nat, lo: real) {
    k < |states| && forall i :: 0 < i <= k ==> lo <= Draw(states[i])
  }

  /** k is the first tick after which the charge is at or below the threshold. */
  predicate FirstReaches(states: seq<DeviceState>, k: nat, threshold: real) {
    k < |states| && states[k].soc <= threshold && forall j :: 0 <= j < k ==> states[j].soc > threshold
  }

  /** An input of the estimate taken from this device, with some net load. */
  predicate Reads(input: DepletionInput, d: DeviceState) {
    input.soc == d.soc && input.capacityKwh == d.capacityKwh
  }

  /** Stored energy in units of one kilowatt over one tick. */
  function Energy(soc: real, capacity: real): real { soc * capacity * 1.2 }

  /** A tick takes its draw from the stored energy, except where the charge stops at 0 or 100. */
  lemma StepEnergy(soc: real, solarKw: real, loadKw: real, capacity: real)
    requires capacity > 0.0
    ensures var next := NextSoc(soc, solarKw, loadKw, capacity);
            && 0.0 <= next <= 100.0
            && (next == 0.0 || Energy(next, capacity) <= Energy(soc, capacity) - (loadKw - solarKw))
            && (next == 100.0 || Energy(next, capacity) >= Energy(soc, capacity) - (loadKw - solarKw))
  {
    var net := solarKw - loadKw;
    var x := net * (TICK_MINUTES / 60.0) / capacity * 100.0;
    DeltaEnergy(net, capacity, x);
    var y := soc + x;
    assert Energy(y, capacity) == Energy(soc, capacity) + net by { hide NextSoc; Distribute(soc, x, capacity); }
    var next := NextSoc(soc, solarKw, loadKw, capacity);
    assert next == Clamp(y, 0.0, 100.0);
    hide NextSoc;
    if next <= y { EnergyMonotone(next, y, capacity); }
    if y <= next { EnergyMonotone(y, next, capacity); }
  }

  lemma DeltaEnergy(net: real, capacity: real, x: real)
    requires capacity > 0.0 && x == net * (TICK_MINUTES / 60.0) / capacity * 100.0
    ensures x * capacity * 1.2 == net
  {
    var e := net * (TICK_MINUTES / 60.0);
    assert e == net / 120.0;
    var q := e / capacity;
    assert q * capacity == e;
    assert x * capacity == (q * capacity) * 100.0;
  }

  lemma Distribute(a: real, b: real, capacity: real)
    ensures Energy(a + b, capacity) == Energy(a, capacity) + b * capacity * 1.2
  {
  }

  lemma EnergyMonotone(a: real, b: real, capacity: real)
    requires capacity > 0.0
    ensures a <= b ==> Energy(a, capacity) <= Energy(b, capacity)
    ensures a < b ==> Energy(a, capacity) < Energy(b, capacity)
  {
    if a < b { ScaledStrictly(capacity * 1.2, a, b, Energy(a, capacity), Energy(b, capacity)); }
  }

  lemma ScaledStrictly(k: real, a: real, b: real, x: real, y: real)
    requires k > 0.0 && a < b && x == k * a && y == k * b
    ensures x < y
  {
    var d := b - a;
    assert k * d > 0.0;
    assert y == x + k * d;
  }

  lemma {:induction false} CapacityFixed(states: seq<DeviceState>, ws: seq<Weather>, k: nat)
    requires Ticks(states, ws) && k <= |ws|
    ensures states[k].capacityKwh == states[0].capacityKwh && 0.0 <= states[k].soc <= 100.0
    decreases k
  {
    if k > 0 {
      CapacityFixed(states, ws, k - 1);
      TickSoc(states[k - 1], ws[k - 1]);
      hide Ticked;
    }
  }

  lemma {:induction false} TickSoc(d: DeviceState, w: Weather)
    requires d.capacityKwh > 0.0
    ensures var d' := Ticked(d, w);
            && d'.soc == NextSoc(d.soc, d'.solarKw, d'.loadKw, d.capacityKwh)
            && d'.capacityKwh == d.capacityKwh && 0.0 <= d'.soc <= 100.0
  {
    hide SolarOf, LoadOf, SocToVoltage, TimeToGo, CurrentOf, StatusOf;
    var d' := Ticked(d, w);
    SocWithin(d.soc, d'.solarKw, d'.loadKw, d.capacityKwh);
  }

  function Count(k: nat, power: real): real { k as real * power }

  lemma CountStep(k: nat, power: real)
    requires k > 0
    ensures Count(k, power) == Count(k - 1, power) + power
  {
  }

  /** After k ticks no more than k times the largest draw is gone. */
  lemma {:induction false} EnergyAtLeast(states: seq<DeviceState>, ws: seq<Weather>, k: nat, hi: real)
    requires Ticks(states, ws) && k <= |ws| && DrawAtMost(states, k, hi) && hi >= 0.0
    ensures Energy(states[k].soc, states[0].capacityKwh) >= Energy(states[0].soc, states[0].capacityKwh) - Count(k, hi)
    decreases k
  {
    if k > 0 {
      var c := states[0].capacityKwh;
      EnergyAtLeast(states, ws, k - 1, hi);
      CapacityFixed(states, ws, k - 1);
      TickSoc(states[k - 1], ws[k - 1]);
      assert Draw(states[k]) <= hi;
      hide Ticked, NextSoc, Energy;
      StepEnergy(states[k - 1].soc, states[k].solarKw, states[k].loadKw, c);
      CountStep(k, hi);
      EnergyMonotone(states[0].soc, 100.0, c);
      Times(k as real, 0.0, hi);
      hide Count;
    }
  }

  /** After k ticks at least k times the smallest draw is gone, unless the battery is empty. */
  lemma {:induction false} EnergyAtMost(states: seq<DeviceState>, ws: seq<Weather>, k: nat, lo: real)
    requires Ticks(states, ws) && k <= |ws| && DrawAtLeast(states, k, lo) && lo > 0.0
    ensures states[k].soc == 0.0
            || Energy(states[k].soc, states[0].capacityKwh)
               <= Energy(states[0].soc, states[0].capacityKwh) - Count(k, lo)
    decreases k
  {
    if k > 0 {
      var c := states[0].capacityKwh;
      EnergyAtMost(states, ws, k - 1, lo);
      CapacityFixed(states, ws, k - 1);
      TickSoc(states[k - 1], ws[k - 1]);
      assert lo <= Draw(states[k]);
      hide Ticked, NextSoc;
      StepEnergy(states[k - 1].soc, states[k].solarKw, states[k].loadKw, c);
      EnergyMonotone(0.0, states[k].soc, c);
      CountStep(k, lo);
      hide Energy, Count;
      assert states[k - 1].soc == 0.0 ==> Energy(states[k - 1].soc, c) == 0.0 by { ZeroEnergy(c); }
      ZeroEnergy(c);
    }
  }

  lemma ZeroEnergy(capacity: real)
    ensures Energy(0.0, capacity) == 0.0
  {
  }

  /** The estimate in ticks: k half minutes against the energy above the threshold. */
  lemma {:induction false} EstimateInTicks(input: DepletionInput, threshold: real, d: DeviceState, k: nat)
    requires Draining(input, threshold) && Reads(input, d)
    ensures var m := CalculateDepletion(input, threshold).minutes;
            && m.Some?
            && (Count(k, NetLoad(input)) >= Energy(d.soc, d.capacityKwh) - Energy(threshold, d.capacityKwh)
                ==> 0.5 * k as real >= m.value - 0.005)
            && (Count(k, NetLoad(input)) <= Energy(d.soc, d.capacityKwh) - Energy(threshold, d.capacityKwh)
                ==> 0.5 * k as real <= m.value + 0.005)
  {
    PredictionIsEnergyBalance(input, threshold);
    var net, m, e := NetLoad(input), CalculateDepletion(input, threshold).minutes.value,
                     (input.soc - threshold) * input.capacityKwh * 0.6;
    assert Energy(d.soc, d.capacityKwh) - Energy(threshold, d.capacityKwh) == 2.0 * e;
    hide CalculateDepletion, NetLoad, Energy;
    var t := 0.5 * k as real;
    assert Count(k, net) == 2.0 * (net * t);
    hide Count;
    CompareTimes(net, t, m - 0.005, m + 0.005, e);
  }

  lemma CompareTimes(net: real, t: real, lo: real, hi: real, e: real)
    requires net > 0.0 && net * lo <= e <= net * hi
    ensures net * t >= e ==> t >= lo
    ensures net * t <= e ==> t <= hi
  {
    if net * t >= e { Divided(net, lo, t); }
    if net * t <= e { Divided(net, t, hi); }
  }

  lemma Divided(k: real, a: real, b: real)
    requires k > 0.0 && k * a <= k * b
    ensures a <= b
  {
    Times(k, a, b);
  }

  /** When every tick draws between the two net loads, the charge first reaches the threshold no sooner than
      the estimate at the larger load, less 0.005 minutes, and no later than the one at the smaller, plus
      0.505 minutes: the rounding and the tick under way. */
  lemma {:induction false} FirstReachIsPredicted(states: seq<DeviceState>, ws: seq<Weather>, k: nat, threshold: real,
                                                 slow: DepletionInput, fast: DepletionInput)
    requires Ticks(states, ws) && FirstReaches(states, k, threshold)
    requires Reads(slow, states[0]) && Reads(fast, states[0]) && Draining(slow, threshold) && Draining(fast, threshold)
    requires DrawAtLeast(states, k, NetLoad(slow)) && DrawAtMost(states, k, NetLoad(fast))
    ensures CalculateDepletion(fast, threshold).minutes.Some? && CalculateDepletion(slow, threshold).minutes.Some?
    ensures CalculateDepletion(fast, threshold).minutes.value - 0.005 <= 0.5 * k as real
            <= CalculateDepletion(slow, threshold).minutes.value + 0.505
  {
    var c := states[0].capacityKwh;
    hide CalculateDepletion, NetLoad, Energy, Count, Ticked;
    EnergyAtLeast(states, ws, k, NetLoad(fast));
    EnergyMonotone(states[k].soc, threshold, c);
    EstimateInTicks(fast, threshold, states[0], k);
    EnergyAtMost(states, ws, k - 1, NetLoad(slow));
    EnergyMonotone(threshold, states[k - 1].soc, c);
    EstimateInTicks(slow, threshold, states[0], k - 1);
  }

  /** Enough ticks of at least the net load do bring the charge down to the threshold. */
  lemma {:induction false} ThresholdIsReached(states: seq<DeviceState>, ws: seq<Weather>, n: nat, threshold: real,
                                              slow: DepletionInput)
    requires Ticks(states, ws) && n <= |ws| && Reads(slow, states[0]) && Draining(slow, threshold)
    requires DrawAtLeast(states, n, NetLoad(slow))
    requires CalculateDepletion(slow, threshold).minutes.Some?
    requires 0.5 * n as real > CalculateDepletion(slow, threshold).minutes.value + 0.005
    ensures states[n].soc <= threshold
  {
    var c := states[0].capacityKwh;
    hide CalculateDepletion, NetLoad, Energy, Count, Ticked;
    EstimateInTicks(slow, threshold, states[0], n);
    EnergyAtMost(states, ws, n, NetLoad(slow));
    EnergyMonotone(threshold, states[n].soc, c);
  }

  /** No alert on a draining battery means at least 119 ticks, 59.5 minutes, above the threshold as long as
      the draw does not grow. */
  lemma {:induction false} NoAlertMeansAnHour(states: seq<DeviceState>, ws: seq<Weather>, k: nat, threshold: real,
                                              input: DepletionInput)
    requires Ticks(states, ws) && k <= |ws| && k <= 119
    requires Reads(input, states[0]) && Draining(input, threshold) && DrawAtMost(states, k, NetLoad(input))
    requires Alarm(input, threshold).None?
    ensures states[k].soc > threshold
  {
    var c := states[0].capacityKwh;
    AlarmDecision(input, threshold);
    PredictionIsEnergyBalance(input, threshold);
    hide CalculateDepletion, NetLoad, Energy, Count, Ticked, Alarm;
    EnergyAtLeast(states, ws, k, NetLoad(input));
    EnergyMonotone(states[k].soc, threshold, c);
    EstimateInTicks(input, threshold, states[0], k);
  }

  /** A critical alert on a draining battery means the threshold is reached within 61 ticks, 30.5 minutes, as
      long as the draw does not shrink. */
  lemma {:induction false} CriticalMeansHalfAnHour(states: seq<DeviceState>, ws: seq<Weather>, threshold: real,
                                                   input: DepletionInput)
    requires Ticks(states, ws) && |ws| >= 61
    requires Reads(input, states[0]) && Draining(input, threshold) && DrawAtLeast(states, 61, NetLoad(input))
    requires Alarm(input, threshold) == Some(CRITICAL)
    ensures states[61].soc <= threshold
  {
    AlarmDecision(input, threshold);
    PredictionIsEnergyBalance(input, threshold);
    hide CalculateDepletion, NetLoad, Energy, Count, Ticked, Alarm;
    ThresholdIsReached(states, ws, 61, threshold, input);
  }

  /** After any tick that drew power, the device's own time to go is the estimate down to 0 %, up to the
      rounding of the one to minutes and of the other to hundredths. */
  lemma {:induction false} TimeToGoAgrees(d: DeviceState, w: Weather)
    requires d.capacityKwh >= MIN_MEANINGFUL_CAPACITY && d.panelKw >= 0.0
    requires Draw(Ticked(d, w)) > 0.0 && Ticked(d, w).soc > 0.0
    ensures var d' := Ticked(d, w);
            var m := CalculateDepletion(DepletionInput(d'.soc, d'.loadKw, d'.capacityKwh, d'.solarKw), 0.0).minutes;
            m.Some? && m.value - 0.505 <= d'.timeToGo as real <= m.value + 0.505
  {
    var d' := Ticked(d, w);
    var input := DepletionInput(d'.soc, d'.loadKw, d'.capacityKwh, d'.solarKw);
    TickSoc(d, w);
    TickedLoad(d, w);
    assert d'.timeToGo == TimeToGo(d'.soc, d'.capacityKwh, d'.loadKw - d'.solarKw) by { TickTimeToGo(d, w); }
    hide Ticked, CalculateDepletion, Round, Round2;
    assert NetLoad(input) == Draw(d');
    DrainingMinutes(input, 0.0);
    assert d'.timeToGo == Round(Minutes(d'.soc, d'.capacityKwh, NetLoad(input)));
    hide Minutes;
  }

  lemma {:induction false} TickTimeToGo(d: DeviceState, w: Weather)
    requires d.capacityKwh > 0.0
    ensures var d' := Ticked(d, w); d'.timeToGo == TimeToGo(d'.soc, d'.capacityKwh, d'.loadKw - d'.solarKw)
  {
    hide SolarOf, LoadOf, SocToVoltage, TimeToGo, CurrentOf, StatusOf, NextSoc;
  }

  // ---- Forced discharge ----

  /** The override is on and outlasts every tick. */
  predicate ForcedDischarge(states: seq<DeviceState>, ws: seq<Weather>) {
    && Ticks(states, ws) && states[0].panelKw >= 0.0 && states[0].mode == Discharging && states[0].expiresAt.Some?
    && forall i :: 0 <= i < |ws| ==> ws[i].now as real < states[0].expiresAt.value
  }

  lemma {:induction false} StaysForced(states: seq<DeviceState>, ws: seq<Weather>, k: nat)
    requires ForcedDischarge(states, ws) && k <= |ws|
    ensures states[k].mode == Discharging && states[k].expiresAt == states[0].expiresAt
            && states[k].panelKw == states[0].panelKw
    ensures k > 0 ==> 2.5 <= Draw(states[k]) <= 4.0
    decreases k
  {
    if k > 0 {
      StaysForced(states, ws, k - 1);
      TickOverride(states[k - 1], ws[k - 1]);
      TickedLoad(states[k - 1], ws[k - 1]);
      hide SolarOf, LoadOf, NextSoc, SocToVoltage, TimeToGo, CurrentOf, StatusOf;
    }
  }

  /** Under forced discharge the charge falls at every tick until it is 0, and is 0 once the ticks number
      at least soc * capacity * 0.48. */
  lemma {:induction false} ForcedDischargeEmpties(states: seq<DeviceState>, ws: seq<Weather>, k: nat)
    requires ForcedDischarge(states, ws) && k <= |ws|
    ensures k > 0 ==> states[k].soc == 0.0 || states[k].soc < states[k - 1].soc
    ensures k as real >= states[0].soc * states[0].capacityKwh * 0.48 ==> states[k].soc == 0.0
  {
    hide Ticked, NextSoc, Energy, Count;
    CapacityFixed(states, ws, k);
    if k > 0 {
      StaysForced(states, ws, k);
      CapacityFixed(states, ws, k - 1);
      TickSoc(states[k - 1], ws[k - 1]);
      StepEnergy(states[k - 1].soc, states[k].solarKw, states[k].loadKw, states[0].capacityKwh);
      EnergyMonotone(states[k - 1].soc, states[k].soc, states[0].capacityKwh);
    }
    if k as real >= states[0].soc * states[0].capacityKwh * 0.48 { EmptyInTime(states, ws, k); }
  }

  lemma {:induction false} EmptyInTime(states: seq<DeviceState>, ws: seq<Weather>, k: nat)
    requires ForcedDischarge(states, ws) && k <= |ws| && k as real >= states[0].soc * states[0].capacityKwh * 0.48
    ensures states[k].soc == 0.0
  {
    var c := states[0].capacityKwh;
    hide Ticked, NextSoc;
    forall i | 0 < i <= k ensures 2.5 <= Draw(states[i]) { StaysForced(states, ws, i); }
    EnergyAtMost(states, ws, k, 2.5);
    CapacityFixed(states, ws, k);
    hide ForcedDischarge, Ticks, DrawAtLeast;
    assert Energy(states[0].soc, c) <= Count(k, 2.5);
    hide Count;
    ZeroEnergy(c);
    EnergyMonotone(0.0, states[k].soc, c);
  }

  /** Under forced discharge the charge first reaches a threshold between the estimates at 4 and 2.5 kW. */
  lemma {:induction false} ForcedDischargeIsPredicted(states: seq<DeviceState>, ws: seq<Weather>, k: nat,
                                                      threshold: real)
    requires ForcedDischarge(states, ws) && FirstReaches(states, k, threshold)
    requires 0.0 <= threshold < states[0].soc && states[0].capacityKwh >= MIN_MEANINGFUL_CAPACITY
    ensures var d := states[0];
            var fast := CalculateDepletion(DepletionInput(d.soc, 4.0, d.capacityKwh, 0.0), threshold).minutes;
            var slow := CalculateDepletion(DepletionInput(d.soc, 2.5, d.capacityKwh, 0.0), threshold).minutes;
            fast.Some? && slow.Some? && fast.value - 0.005 <= 0.5 * k as real <= slow.value + 0.505
  {
    var d := states[0];
    forall i | 0 < i <= k ensures 2.5 <= Draw(states[i]) <= 4.0 { StaysForced(states, ws, i); }
    hide CalculateDepletion, Ticked;
    FirstReachIsPredicted(states, ws, k, threshold, DepletionInput(d.soc, 2.5, d.capacityKwh, 0.0),
                          DepletionInput(d.soc, 4.0, d.capacityKwh, 0.0));
  }

  // ---- Forced charging ----

  /** The override is on and outlasts every tick, and the noise is at most one. */
  predicate ForcedCharge(states: seq<DeviceState>, ws: seq<Weather>) {
    && Ticks(states, ws) && states[0].panelKw >= 0.0 && states[0].mode == Charging && states[0].expiresAt.Some?
    && forall i :: 0 <= i < |ws| ==>
         Noise(ws[i].samples) && 0.0 <= ws[i].solar <= 1.0 && (ws[i].now as real) < states[0].expiresAt.value
  }

  lemma {:induction false} StaysCharging(states: seq<DeviceState>, ws: seq<Weather>, k: nat)
    requires ForcedCharge(states, ws) && k <= |ws|
    ensures states[k].mode == Charging && states[k].expiresAt == states[0].expiresAt
            && states[k].panelKw == states[0].panelKw
    ensures k > 0 ==> Draw(states[k]) <= 1.05 - 0.95 * states[0].panelKw
    decreases k
  {
    if k > 0 {
      StaysCharging(states, ws, k - 1);
      TickOverride(states[k - 1], ws[k - 1]);
      ModeLevels(Charging, states[0].panelKw, ws[k - 1]);
      hide SolarOf, LoadOf, NextSoc, SocToVoltage, TimeToGo, CurrentOf, StatusOf;
    }
  }

  /** Under forced charging with a panel that covers the load the charge rises at every tick until it is 100. */
  lemma {:induction false} ForcedChargeFills(states: seq<DeviceState>, ws: seq<Weather>, k: nat)
    requires ForcedCharge(states, ws) && 0 < k <= |ws| && 0.95 * states[0].panelKw > 1.05
    ensures states[k].soc == 100.0 || states[k].soc > states[k - 1].soc
  {
    hide Ticked, NextSoc, Energy;
    StaysCharging(states, ws, k);
    CapacityFixed(states, ws, k);
    CapacityFixed(states, ws, k - 1);
    TickSoc(states[k - 1], ws[k - 1]);
    StepEnergy(states[k - 1].soc, states[k].solarKw, states[k].loadKw, states[0].capacityKwh);
    EnergyMonotone(states[k].soc, states[k - 1].soc, states[0].capacityKwh);
  }
}
