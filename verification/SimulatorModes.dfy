/** How long a manual override lasts, and what each mode makes of the solar output, the load and the readings. */
module SimulatorModes {
  import opened Prelude
  import opened Depletion
  import opened Simulator

  // ---- Overrides ----

  /** The minutes a requested duration stands for: itself up to eight hours, an hour where it says nothing usable. */
  predicate LastsMinutes(d: Duration, minutes: real) {
    match d
    case Finite(m) => minutes == if m <= 0.0 then 60.0 else if m <= 480.0 then m else 480.0
    case _ => minutes == 60.0
  }

  /** At event i the device is put into a mode for that many minutes, and no other mode is set before event j. */
  predicate OverriddenSince(states: seq<DeviceState>, events: seq<Event>, i: nat, j: nat, mode: Mode, minutes: real) {
    && i < j < |states| && |states| == |events| + 1 && mode != Normal
    && events[i].SetMode? && events[i].mode == mode && LastsMinutes(events[i].duration, minutes)
    && forall k :: i < k < j ==> events[k].Tick?
  }

  /** A tick since event i has come at or past the end of the override. */
  predicate RunOut(events: seq<Event>, i: nat, j: nat, end: real)
    requires j <= |events|
  {
    exists k :: i < k < j && events[k].Tick? && events[k].w.now as real >= end
  }

  /** An override holds until a tick comes at or past its last minute, and from then on the device is back to normal. */
  lemma {:induction false} OverrideExactly(states: seq<DeviceState>, events: seq<Event>, i: nat, j: nat, mode: Mode,
                                           minutes: real)
    requires Run(states, events) && OverriddenSince(states, events, i, j, mode, minutes)
    ensures var end := events[i].now as real + minutes * 60000.0;
            if RunOut(events, i, j, end) then states[j].mode == Normal && states[j].expiresAt.None?
            else states[j].mode == mode && states[j].expiresAt == Some(end)
    decreases j
  {
    var end := events[i].now as real + minutes * 60000.0;
    assert states[j] == Next(states[j - 1], events[j - 1]);
    if j > i + 1 {
      OverrideExactly(states, events, i, j - 1, mode, minutes);
      TickOverride(states[j - 1], events[j - 1].w);
      hide Run, Ticked;
      assert RunOut(events, i, j, end) <==>
               RunOut(events, i, j - 1, end) || events[j - 1].w.now as real >= end;
    }
  }

  /** Setting the normal mode ends an override, and ticks do not start one. */
  lemma {:induction false} NormalStays(states: seq<DeviceState>, events: seq<Event>, i: nat, j: nat)
    requires Run(states, events) && i < j < |states| && events[i].SetMode? && events[i].mode == Normal
    requires forall k :: i < k < j ==> events[k].Tick?
    ensures states[j].mode == Normal && states[j].expiresAt.None?
    decreases j
  {
    assert states[j] == Next(states[j - 1], events[j - 1]);
    if j > i + 1 {
      NormalStays(states, events, i, j - 1);
      TickOverride(states[j - 1], events[j - 1].w);
      hide Run, Ticked;
    }
  }

  /** Whatever has happened, a device that a tick leaves in a forced mode has its expiry still ahead. */
  lemma {:induction false} NoneOutlastsItsExpiry(states: seq<DeviceState>, events: seq<Event>, started: Time, k: nat)
    requires Run(states, events) && k < |events| && events[k].Tick?
    requires InRange(states[0]) && OverrideBounded(states[0], started) && started <= At(events[0])
    ensures states[k + 1].mode != Normal ==>
              states[k + 1].expiresAt.Some? && (events[k].w.now as real) < states[k + 1].expiresAt.value
  {
    RunKeeps(states, events, started, k);
    TickOverride(states[k], events[k].w);
    hide Ticked, InRange;
  }

  // ---- Levels ----

  predicate Unit(x: real) { -1.0 <= x <= 1.0 }

  predicate Noise(s: Samples) {
    Unit(s.solar) && Unit(s.load) && Unit(s.voltage) && Unit(s.current) && Unit(s.battery) && Unit(s.inverter)
    && Unit(s.gridVoltage) && Unit(s.gridFrequency)
  }

  predicate Near(x: real, y: real, d: real) { y - d <= x <= y + d }

  /** Clamping brings a value no further from a target inside the bounds. */
  lemma ClampNear(x: real, lo: real, hi: real, y: real, d: real)
    requires lo <= y <= hi && Near(x, y, d)
    ensures Near(Clamp(x, lo, hi), y, d)
  {
  }

  /** With noise of at most one, forced charging runs at 95 % of the panel and 0.8 kW of load, forced discharge at
      no solar and 3.2 kW, and normal operation at the panel's share of the sun and 1.5 kW, up to a small noise. */
  lemma {:induction false} ModeLevels(mode: Mode, panelKw: real, w: Weather)
    requires Noise(w.samples) && panelKw >= 0.0 && 0.0 <= w.solar <= 1.0
    ensures var (solar, load) := (SolarOf(mode, panelKw, w), LoadOf(mode, w));
            && (mode == Charging ==> Near(solar, panelKw * 0.95, 0.1) && Near(load, 0.8, 0.15))
            && (mode == Discharging ==> solar == 0.0 && Near(load, 3.2, 0.3))
            && (mode == Normal ==> Near(solar, panelKw * w.solar, 0.15) && Near(load, 1.5, 0.4))
  {
    Share(panelKw, w.solar);
    ClampNear(panelKw * 0.95 + w.samples.solar * 0.1, 0.0, panelKw, panelKw * 0.95, 0.1);
    ClampNear(panelKw * w.solar + w.samples.solar * 0.15, 0.0, panelKw, panelKw * w.solar, 0.15);
    ClampNear(0.8 + w.samples.load * 0.15, 0.3, 1.2, 0.8, 0.15);
    ClampNear(3.2 + w.samples.load * 0.3, 2.5, 4.0, 3.2, 0.3);
    ClampNear(1.5 + w.samples.load * 0.4, 0.3, 4.0, 1.5, 0.4);
    hide Clamp;
  }

  lemma Share(panelKw: real, sun: real)
    requires panelKw >= 0.0 && 0.0 <= sun <= 1.0
    ensures 0.0 <= panelKw * sun <= panelKw
  {
    Times(panelKw, 0.0, sun);
    Times(panelKw, sun, 1.0);
  }

  /** A tick's readings: the voltage follows the charge from 44 V to 58 V, the grid stays about 230 V and 50 Hz, the
      temperatures drift, and outside the limits of 60 A the current carries the net power. */
  lemma {:induction false} ReadingsFollow(d: DeviceState, w: Weather)
    requires InRange(d) && Noise(w.samples)
    ensures var d' := Ticked(d, w);
            && Near(d'.voltage, 44.0 + 0.14 * d'.soc, 0.2)
            && Near(d'.gridVoltage, 230.0, 3.0) && Near(d'.gridFrequency, 50.0, 0.1)
            && Near(d'.batteryTemperature, d.batteryTemperature, 0.3)
            && Near(d'.inverterTemperature, d.inverterTemperature, 0.5)
            && d'.soc == NextSoc(d.soc, d'.solarKw, d'.loadKw, d.capacityKwh)
            && d'.panelKw == d.panelKw && d'.capacityKwh == d.capacityKwh
            && (d'.loadKw <= d'.solarKw ==> d'.timeToGo == 9999)
            && (-60.0 < d'.current < 60.0 ==> Near(d'.current, (d'.solarKw - d'.loadKw) * 1000.0 / d'.voltage, 0.5))
  {
    var d' := Ticked(d, w);
    TickKeepsRanges(d, w);
    ClampNear(SocToVoltage(d'.soc) + w.samples.voltage * 0.2, 44.0, 58.0, SocToVoltage(d'.soc), 0.2);
    ClampNear(d.batteryTemperature + w.samples.battery * 0.3, 20.0, 50.0, d.batteryTemperature, 0.3);
    ClampNear(d.inverterTemperature + w.samples.inverter * 0.5, 25.0, 65.0, d.inverterTemperature, 0.5);
    ClampNear(230.0 + w.samples.gridVoltage * 3.0, 220.0, 240.0, 230.0, 3.0);
    ClampNear(50.0 + w.samples.gridFrequency * 0.1, 49.5, 50.5, 50.0, 0.1);
    CurrentCarries(d'.solarKw - d'.loadKw, d'.voltage, w.samples.current);
    hide SolarOf, LoadOf, Clamp, NextSoc, CurrentOf, StatusOf, Round;
  }

  lemma CurrentCarries(netKw: real, voltage: real, sample: real)
    requires voltage > 0.0 && Unit(sample)
    ensures var c := CurrentOf(netKw, voltage, sample); -60.0 < c < 60.0 ==> Near(c, netKw * 1000.0 / voltage, 0.5)
  {
  }
}
