/** The mock inverter simulator: half-minute ticks of every device, manual overrides, and how its battery
    bears out the depletion estimate. Random noise and the solar curve are inputs. */
module Simulator {
  import opened Prelude
  import opened AlertPipeline
  import opened Depletion

  const TICK_MINUTES := 0.5
  const DEFAULT_OVERRIDE := 60.0
  const MAX_OVERRIDE := 480.0

  datatype Mode = Normal | Charging | Discharging

  datatype Status = Ok | Standby | Fault

  datatype DeviceState = DeviceState(
    soc: real, voltage: real, current: real, batteryTemperature: real, timeToGo: int, solarKw: real, loadKw: real,
    gridVoltage: real, gridFrequency: real, inverterTemperature: real, status: Status,
    panelKw: real, capacityKwh: real, mode: Mode, expiresAt: Option<real>)

  /** One tick's samples of Math.random() * 2 - 1, each in [-1, 1). */
  datatype Samples = Samples(solar: real, load: real, voltage: real, current: real, battery: real, inverter: real,
                             gridVoltage: real, gridFrequency: real)

  /** What a tick does not decide itself: the time, the height of the solar curve, and the noise. */
  datatype Weather = Weather(now: Time, solar: real, samples: Samples)

  function SolarOf(mode: Mode, panelKw: real, w: Weather): real {
    match mode
    case Charging => Clamp(panelKw * 0.95 + w.samples.solar * 0.1, 0.0, panelKw)
    case Discharging => 0.0
    case Normal => Clamp(panelKw * w.solar + w.samples.solar * 0.15, 0.0, panelKw)
  }

  function LoadOf(mode: Mode, w: Weather): real {
    match mode
    case Charging => Clamp(0.8 + w.samples.load * 0.15, 0.3, 1.2)
    case Discharging => Clamp(3.2 + w.samples.load * 0.3, 2.5, 4.0)
    case Normal => Clamp(1.5 + w.samples.load * 0.4, 0.3, 4.0)
  }

  predicate Expired(d: DeviceState, now: Time) {
    d.mode != Normal && d.expiresAt.Some? && now as real >= d.expiresAt.value
  }

  /** The charge after a tick of this solar output and load. */
  function NextSoc(soc: real, solarKw: real, loadKw: real, capacityKwh: real): real
    requires capacityKwh > 0.0
  {
    Clamp(soc + (solarKw - loadKw) * (TICK_MINUTES / 60.0) / capacityKwh * 100.0, 0.0, 100.0)
  }

  function SocToVoltage(soc: real): real { 44.0 + soc / 100.0 * 14.0 }

  function TimeToGo(soc: real, capacityKwh: real, drawKw: real): int {
    if drawKw <= 0.0 then 9999 else Round(soc / 100.0 * capacityKwh / drawKw * 60.0)
  }

  function StatusOf(soc: real, solarKw: real, loadKw: real): Status {
    if soc < 5.0 then Fault else if solarKw < 0.05 && loadKw < 0.2 then Standby else Ok
  }

  function CurrentOf(netKw: real, voltage: real, sample: real): real
    requires voltage > 0.0
  {
    Clamp(netKw * 1000.0 / voltage + sample * 0.5, -60.0, 60.0)
  }

  function Ticked(d: DeviceState, w: Weather): DeviceState
    requires d.capacityKwh > 0.0
  {
    var mode := if Expired(d, w.now) then Normal else d.mode;
    var expiresAt := if Expired(d, w.now) then None else d.expiresAt;
    var solar, load := SolarOf(mode, d.panelKw, w), LoadOf(mode, w);
    var soc := NextSoc(d.soc, solar, load, d.capacityKwh);
    var voltage := Clamp(SocToVoltage(soc) + w.samples.voltage * 0.2, 44.0, 58.0);
    DeviceState(soc, voltage, CurrentOf(solar - load, voltage, w.samples.current),
                Clamp(d.batteryTemperature + w.samples.battery * 0.3, 20.0, 50.0),
                TimeToGo(soc, d.capacityKwh, load - solar), solar, load,
                Clamp(230.0 + w.samples.gridVoltage * 3.0, 220.0, 240.0),
                Clamp(50.0 + w.samples.gridFrequency * 0.1, 49.5, 50.5),
                Clamp(d.inverterTemperature + w.samples.inverter * 0.5, 25.0, 65.0),
                StatusOf(soc, solar, load), d.panelKw, d.capacityKwh, mode, expiresAt)
  }

  /** The caller's duration in minutes; JavaScript also lets it be left out, infinite or not a number. */
  datatype Duration = Omitted | NotFinite | Finite(minutes: real)

  function SafeDuration(d: Duration): (m: real)
    ensures 0.0 < m <= 480.0
  {
    match d
    case Omitted => DEFAULT_OVERRIDE
    case NotFinite => DEFAULT_OVERRIDE
    case Finite(m) => if m > 0.0 then (if m < MAX_OVERRIDE then m else MAX_OVERRIDE) else DEFAULT_OVERRIDE
  }

  function Overridden(d: DeviceState, mode: Mode, duration: Duration, now: Time): DeviceState {
    if mode == Normal then d.(mode := Normal, expiresAt := None)
    else d.(mode := mode, expiresAt := Some(now as real + SafeDuration(duration) * 60000.0))
  }

  class Device {
    const id: string
    const panelKw: real
    const capacityKwh: real
    var soc: real
    var voltage: real
    var current: real
    var batteryTemperature: real
    var timeToGo: int
    var solarKw: real
    var loadKw: real
    var gridVoltage: real
    var gridFrequency: real
    var inverterTemperature: real
    var status: Status
    var mode: Mode
    var expiresAt: Option<real>

    constructor (id: string, d: DeviceState)
      ensures State() == d && this.id == id
    {
      this.id, panelKw, capacityKwh := id, d.panelKw, d.capacityKwh;
      soc, voltage, current, batteryTemperature, timeToGo :=
        d.soc, d.voltage, d.current, d.batteryTemperature, d.timeToGo;
      solarKw, loadKw, gridVoltage, gridFrequency := d.solarKw, d.loadKw, d.gridVoltage, d.gridFrequency;
      inverterTemperature, status, mode, expiresAt := d.inverterTemperature, d.status, d.mode, d.expiresAt;
    }

    function State(): DeviceState
      reads this
    {
      DeviceState(soc, voltage, current, batteryTemperature, timeToGo, solarKw, loadKw, gridVoltage, gridFrequency,
                  inverterTemperature, status, panelKw, capacityKwh, mode, expiresAt)
    }

    /** The first half of the loop of tick: an expired override ends, then solar output and load by mode. */
    method Generate(w: Weather)
      requires panelKw >= 0.0
      modifies this`mode, this`expiresAt, this`solarKw, this`loadKw
      ensures mode == (if old(Expired(State(), w.now)) then Normal else old(mode))
      ensures expiresAt == (if old(Expired(State(), w.now)) then None else old(expiresAt))
      ensures solarKw == SolarOf(mode, panelKw, w) && loadKw == LoadOf(mode, w)
      ensures 0.0 <= solarKw <= panelKw && 0.3 <= loadKw <= 4.0
      ensures mode == Discharging ==> 2.5 <= loadKw - solarKw
    {
      if mode != Normal && expiresAt.Some? && w.now as real >= expiresAt.value {
        mode := Normal;
        expiresAt := None;
      }
      if mode == Charging {
        solarKw := Clamp(panelKw * 0.95 + w.samples.solar * 0.1, 0.0, panelKw);
        loadKw := Clamp(0.8 + w.samples.load * 0.15, 0.3, 1.2);
      } else if mode == Discharging {
        solarKw := 0.0;
        loadKw := Clamp(3.2 + w.samples.load * 0.3, 2.5, 4.0);
      } else {
        solarKw := Clamp(panelKw * w.solar + w.samples.solar * 0.15, 0.0, panelKw);
        loadKw := Clamp(1.5 + w.samples.load * 0.4, 0.3, 4.0);
      }
    }

    /** The body of the loop of tick. */
    method Tick(w: Weather)
      requires capacityKwh > 0.0 && panelKw >= 0.0
      modifies this
      ensures State() == Ticked(old(State()), w)
    {
      hide SolarOf, LoadOf, NextSoc, Clamp, SocToVoltage, TimeToGo, CurrentOf, Expired, StatusOf;
      Generate(w);
      var netKw := solarKw - loadKw;
      soc := NextSoc(soc, solarKw, loadKw, capacityKwh);
      voltage := Clamp(SocToVoltage(soc) + w.samples.voltage * 0.2, 44.0, 58.0);
      ClampWithin(SocToVoltage(soc) + w.samples.voltage * 0.2, 44.0, 58.0);
      current := CurrentOf(netKw, voltage, w.samples.current);
      batteryTemperature := Clamp(batteryTemperature + w.samples.battery * 0.3, 20.0, 50.0);
      inverterTemperature := Clamp(inverterTemperature + w.samples.inverter * 0.5, 25.0, 65.0);
      gridVoltage := Clamp(230.0 + w.samples.gridVoltage * 3.0, 220.0, 240.0);
      gridFrequency := Clamp(50.0 + w.samples.gridFrequency * 0.1, 49.5, 50.5);
      timeToGo := TimeToGo(soc, capacityKwh, loadKw - solarKw);
      status := StatusOf(soc, solarKw, loadKw);
    }
  }

  class MockServer {
    const devices: seq<Device>

    constructor (devices: seq<Device>)
      ensures this.devices == devices
    {
      this.devices := devices;
    }

    predicate Valid()
      reads devices
    {
      && (forall i, j :: 0 <= i < j < |devices| ==> devices[i] != devices[j])
      && (forall i :: 0 <= i < |devices| ==> devices[i].capacityKwh > 0.0 && devices[i].panelKw >= 0.0)
    }

    method Tick(now: Time, solar: real, samples: seq<Samples>)
      requires Valid() && |samples| == |devices|
      modifies devices
      ensures Valid()
      ensures forall i :: 0 <= i < |devices| ==>
                devices[i].State() == Ticked(old(devices[i].State()), Weather(now, solar, samples[i]))
    {
      hide Ticked;
      var n := 0;
      while n < |devices|
        invariant 0 <= n <= |devices|
        invariant forall i :: 0 <= i < n ==>
                    devices[i].State() == Ticked(old(devices[i].State()), Weather(now, solar, samples[i]))
        invariant forall i :: n <= i < |devices| ==> devices[i].State() == old(devices[i].State())
      {
        devices[n].Tick(Weather(now, solar, samples[n]));
        n := n + 1;
      }
    }

    /** The position of the first device with this id, or None. */
    method Find(id: string) returns (at: Option<nat>)
      ensures at.Some? ==>
                at.value < |devices| && devices[at.value].id == id
                && forall i :: 0 <= i < at.value ==> devices[i].id != id
      ensures at.None? ==> forall i :: 0 <= i < |devices| ==> devices[i].id != id
    {
      for n := 0 to |devices|
        invariant forall i :: 0 <= i < n ==> devices[i].id != id
      {
        if devices[n].id == id { return Some(n); }
      }
      return None;
    }

    method SetDeviceMode(id: string, mode: Mode, duration: Duration, now: Time) returns (at: Option<nat>)
      requires Valid()
      modifies devices
      ensures Valid()
      ensures at.None? <==> forall i :: 0 <= i < |devices| ==> devices[i].id != id
      ensures at.Some? ==>
                at.value < |devices| && devices[at.value].id == id
                && forall i :: 0 <= i < at.value ==> devices[i].id != id
      ensures forall i :: 0 <= i < |devices| ==>
                (devices[i].State()
                 == if at == Some(i) then Overridden(old(devices[i].State()), mode, duration, now)
                 else old(devices[i].State()))
    {
      at := Find(id);
      if at.None? { return; }
      var device := devices[at.value];
      if mode == Normal {
        device.mode := Normal;
        device.expiresAt := None;
      } else {
        device.mode := mode;
        device.expiresAt := Some(now as real + SafeDuration(duration) * 60000.0);
      }
    }
  }

  // ---- What every tick and override keeps ----

  predicate Within(x: real, lo: real, hi: real) { lo <= x <= hi }

  predicate InRange(d: DeviceState) {
    && d.capacityKwh > 0.0 && d.panelKw >= 0.0
    && Within(d.soc, 0.0, 100.0) && Within(d.voltage, 44.0, 58.0) && Within(d.current, -60.0, 60.0)
    && Within(d.batteryTemperature, 20.0, 50.0) && Within(d.inverterTemperature, 25.0, 65.0)
    && Within(d.gridVoltage, 220.0, 240.0) && Within(d.gridFrequency, 49.5, 50.5)
    && Within(d.solarKw, 0.0, d.panelKw) && Within(d.loadKw, 0.3, 4.0) && d.timeToGo >= 0
    && d.status == if d.soc < 5.0 then Fault else Ok
  }

  /** An override is on exactly while an expiry is set, and that expiry is at most eight hours ahead. */
  predicate OverrideBounded(d: DeviceState, now: Time) {
    && (d.mode != Normal <==> d.expiresAt.Some?)
    && (d.expiresAt.Some? ==> d.expiresAt.value <= now as real + 480.0 * 60000.0)
  }

  datatype Event = Tick(w: Weather) | SetMode(mode: Mode, duration: Duration, now: Time)

  function At(e: Event): Time { match e case Tick(w) => w.now case SetMode(_, _, now) => now }

  function Next(d: DeviceState, e: Event): DeviceState
    requires d.capacityKwh > 0.0
  {
    match e
    case Tick(w) => Ticked(d, w)
    case SetMode(mode, duration, now) => Overridden(d, mode, duration, now)
  }

  /** The states of one device: each event takes one to the next, at times that do not go back. */
  predicate Run(states: seq<DeviceState>, events: seq<Event>) {
    && |states| == |events| + 1
    && (forall i :: 0 <= i < |states| ==> states[i].capacityKwh > 0.0)
    && (forall i :: 0 <= i < |events| ==> states[i + 1] == Next(states[i], events[i]))
    && (forall i :: 0 < i < |events| ==> At(events[i - 1]) <= At(events[i]))
  }

  lemma ClampWithin(x: real, lo: real, hi: real)
    requires lo <= hi
    ensures Within(Clamp(x, lo, hi), lo, hi)
  {
  }

  lemma {:induction false} TickKeepsRanges(d: DeviceState, w: Weather)
    requires InRange(d)
    ensures InRange(Ticked(d, w))
  {
    var d' := Ticked(d, w);
    TickedLoad(d, w);
    ClampWithin(SocToVoltage(d'.soc) + w.samples.voltage * 0.2, 44.0, 58.0);
    ClampWithin((d'.solarKw - d'.loadKw) * 1000.0 / d'.voltage + w.samples.current * 0.5, -60.0, 60.0);
    hide SolarOf, LoadOf, SocToVoltage, Clamp, NextSoc, TimeToGo;
    SocWithin(d.soc, d'.solarKw, d'.loadKw, d.capacityKwh);
    TimeToGoNotNegative(d'.soc, d.capacityKwh, d'.loadKw - d'.solarKw);
    ClampWithin(d.batteryTemperature + w.samples.battery * 0.3, 20.0, 50.0);
    ClampWithin(d.inverterTemperature + w.samples.inverter * 0.5, 25.0, 65.0);
    ClampWithin(230.0 + w.samples.gridVoltage * 3.0, 220.0, 240.0);
    ClampWithin(50.0 + w.samples.gridFrequency * 0.1, 49.5, 50.5);
  }

  lemma {:induction false} TickedLoad(d: DeviceState, w: Weather)
    requires d.capacityKwh > 0.0 && d.panelKw >= 0.0
    ensures var d' := Ticked(d, w); Within(d'.solarKw, 0.0, d.panelKw) && Within(d'.loadKw, 0.3, 4.0)
    ensures d.mode == Discharging && !Expired(d, w.now) ==>
              var d' := Ticked(d, w); Within(d'.loadKw - d'.solarKw, 2.5, 4.0)
  {
    hide NextSoc, SocToVoltage, TimeToGo, CurrentOf, StatusOf;
  }

  lemma SocWithin(soc: real, solarKw: real, loadKw: real, capacityKwh: real)
    requires capacityKwh > 0.0
    ensures Within(NextSoc(soc, solarKw, loadKw, capacityKwh), 0.0, 100.0)
  {
    ClampWithin(soc + (solarKw - loadKw) * (TICK_MINUTES / 60.0) / capacityKwh * 100.0, 0.0, 100.0);
  }

  lemma TimeToGoNotNegative(soc: real, capacityKwh: real, drawKw: real)
    requires soc >= 0.0 && capacityKwh > 0.0
    ensures TimeToGo(soc, capacityKwh, drawKw) >= 0
  {
    if drawKw > 0.0 {
      Times(soc / 100.0, 0.0, capacityKwh);
      var e := soc / 100.0 * capacityKwh;
      var q := e / drawKw;
      assert q * drawKw == e;
      if q < 0.0 { Times(drawKw, 0.0, q); assert false; }
    }
  }

  /** Every state of every run, from a device in range, is in range with its override bounded. */
  lemma {:induction false} RunKeeps(states: seq<DeviceState>, events: seq<Event>, started: Time, k: nat)
    requires Run(states, events) && k <= |events| && InRange(states[0]) && OverrideBounded(states[0], started)
    requires events != [] ==> started <= At(events[0])
    ensures InRange(states[k])
    ensures OverrideBounded(states[k], if k == 0 then started else At(events[k - 1]))
    decreases k
  {
    if k > 0 {
      RunKeeps(states, events, started, k - 1);
      var e := events[k - 1];
      assert states[k] == Next(states[k - 1], e);
      match e
      case Tick(w) =>
        TickKeepsRanges(states[k - 1], w);
        TickOverride(states[k - 1], w);
      case SetMode(mode, duration, now) =>
    }
  }

  lemma {:induction false} TickOverride(d: DeviceState, w: Weather)
    requires d.capacityKwh > 0.0
    ensures var d' := Ticked(d, w);
            && d'.mode == (if Expired(d, w.now) then Normal else d.mode)
            && d'.expiresAt == (if Expired(d, w.now) then None else d.expiresAt)
  {
  }

  function Seed(soc: real, voltage: real, current: real, battery: real, timeToGo: int, solar: real, load: real,
                grid: real, inverter: real, panel: real, capacity: real): DeviceState {
    DeviceState(soc, voltage, current, battery, timeToGo, solar, load, grid, 50.0, inverter, Ok, panel, capacity,
                Normal, None)
  }

  const SEEDS := [Seed(75.0, 52.4, 8.0, 28.0, 240, 2.5, 1.8, 230.0, 34.0, 5.0, 10.0),
                  Seed(45.0, 49.8, -3.5, 31.0, 90, 0.8, 2.2, 228.0, 38.0, 3.0, 7.5),
                  Seed(18.0, 45.2, -10.0, 35.0, 25, 0.0, 2.5, 231.0, 40.0, 4.0, 5.0)]

  /** The server's own devices start in range, with no override, at any time. */
  lemma SeedsInRange(i: nat, started: Time)
    requires i < |SEEDS|
    ensures InRange(SEEDS[i]) && OverrideBounded(SEEDS[i], started)
  {
  }
}
