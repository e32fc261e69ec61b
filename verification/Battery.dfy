/** Battery packs and their aggregate (battery_linux.go), with reals for floating point numbers. */
module Battery {
  import opened Wrappers
  import opened Text
  import opened Quotients

  const HOUR: real := 3_600_000_000_000.0

  /** What sysfs says about one supply; None for an attribute that is missing or unreadable. */
  datatype Raw = Raw(
    name: string, kind: string, status: string,
    energyNow: Option<nat>, energyFull: Option<nat>, energyFullDesign: Option<nat>,
    chargeNow: Option<nat>, chargeFull: Option<nat>, chargeFullDesign: Option<nat>,
    voltageNow: Option<nat>, capacity: Option<nat>, powerNow: Option<int>, currentNow: Option<int>)

  /** supplyReading; ampereHours holds the charge counters behind a charge_* state of charge. */
  datatype Supply = Supply(
    name: string, kind: string, status: string,
    charge: Option<real>, fromEnergy: bool, ampereHours: Option<(real, real)>,
    energy: Option<real>, energyFull: Option<real>, energyFullDesign: Option<real>, watts: Option<real>)

  function Positive(x: Option<nat>): Option<nat> {
    if x.Some? && x.value > 0 then x else None
  }

  /** Microwatt-hours in joules. */
  function Joules(microwattHours: nat): (j: real)
    ensures j >= 0.0
  {
    microwattHours as real * 0.0036
  }

  /** Microampere-hours at a voltage in microvolts, in joules. */
  function ChargeJoules(ah: nat, volts: nat): (j: real)
    ensures j >= 0.0
  {
    ProductNotNegative(ah as real, volts as real);
    ah as real * volts as real / 1_000_000_000_000.0 * 3600.0
  }

  function Abs(x: int): nat {
    if x < 0 then -x else x
  }

  function ReadWatts(r: Raw): (w: Option<real>)
    ensures w.Some? ==> w.value >= 0.0
  {
    if r.powerNow.Some? then Some(Abs(r.powerNow.value) as real / 1_000_000.0)
    else if r.currentNow.Some? && r.voltageNow.Some? then
      ProductNotNegative(Abs(r.currentNow.value) as real, r.voltageNow.value as real);
      Some(Abs(r.currentNow.value) as real * r.voltageNow.value as real / 1_000_000_000_000.0)
    else None
  }

  lemma ProductNotNegative(a: real, b: real)
    requires a >= 0.0 && b >= 0.0
    ensures a * b >= 0.0
  {}

  /** The part of a full counter that is left. */
  function Ratio(now: nat, full: nat): (r: real)
    requires full > 0
    ensures r >= 0.0 && r * full as real == now as real
  {
    DivideThenMultiply(now as real, full as real);
    now as real / full as real
  }

  /** One supply from its attributes: energy first, then charge, then the bare percentage. */
  function ReadSupply(r: Raw): Supply {
    var full := if r.energyNow.Some? then Positive(r.energyFull) else None;
    var chargeFull := if full.None? && r.chargeNow.Some? then Positive(r.chargeFull) else None;
    var design, chargeDesign := Positive(r.energyFullDesign), Positive(r.chargeFullDesign);
    var ah := if chargeFull.Some? then Some((r.chargeNow.value, chargeFull.value)) else None;
    var derived := full.None? && design.None? && ah.Some? && chargeDesign.Some? && r.voltageNow.Some?;
    Supply(
      r.name, r.kind, r.status,
      if full.Some? then Some(Ratio(r.energyNow.value, full.value))
      else if ah.Some? then Some(Ratio(ah.value.0, ah.value.1))
      else if r.capacity.Some? then Some(r.capacity.value as real / 100.0) else None,
      full.Some?, if ah.Some? then Some((ah.value.0 as real, ah.value.1 as real)) else None,
      if r.energyNow.Some? then Some(Joules(r.energyNow.value))
      else if ah.Some? && r.voltageNow.Some? then Some(ChargeJoules(ah.value.0, r.voltageNow.value)) else None,
      if full.Some? then Some(Joules(full.value))
      else if derived then Some(ChargeJoules(ah.value.1, r.voltageNow.value)) else None,
      if design.Some? then Some(Joules(design.value))
      else if derived then Some(ChargeJoules(chargeDesign.value, r.voltageNow.value)) else None,
      ReadWatts(r))
  }

  /** What reading establishes: full charges are positive, and the charge is the ratio of its counters. */
  predicate WellFormed(s: Supply) {
    && (s.charge.Some? ==> s.charge.value >= 0.0)
    && (s.energy.Some? ==> s.energy.value >= 0.0)
    && (s.watts.Some? ==> s.watts.value >= 0.0)
    && (s.fromEnergy ==> s.charge.Some? && s.energy.Some? && s.energyFull.Some? && s.energyFull.value > 0.0
                         && s.energy.value == s.charge.value * s.energyFull.value && s.ampereHours.None?)
    && (s.ampereHours.Some? ==> s.charge.Some? && s.ampereHours.value.1 > 0.0
                                && s.ampereHours.value.0 == s.charge.value * s.ampereHours.value.1)
  }

  lemma JoulesKeepRatio(now: nat, full: nat)
    requires full > 0
    ensures Joules(full) > 0.0 && Joules(now) == Ratio(now, full) * Joules(full)
  {
    var r := Ratio(now, full);
    assert r * (full as real * 0.0036) == r * full as real * 0.0036;
  }

  lemma ReadSupplyIsWellFormed(r: Raw)
    ensures WellFormed(ReadSupply(r))
  {
    if r.energyNow.Some? && Positive(r.energyFull).Some? {
      JoulesKeepRatio(r.energyNow.value, r.energyFull.value);
    }
    hide Ratio, Joules, ChargeJoules, ReadWatts;
  }

  // ----- one device

  datatype State = Unknown | Charging | Discharging | Full

  /** The state a status word names; steady AC states count as full. */
  function StateOf(status: string): State {
    var word := ToLower(status);
    if word == "charging" then Charging
    else if word == "discharging" then Discharging
    else if word == "full" || word == "not charging" || word == "idle" then Full
    else Unknown
  }

  function Clamp(x: real): real {
    if x < 0.0 then 0.0 else if x > 1.0 then 1.0 else x
  }

  datatype Device = Device(
    name: string, kind: string, status: string, charge: Option<real>, state: State,
    energyJoules: real, energyFull: real, energyFullDesign: real, health: Option<real>, rateWatts: Option<real>)

  function ValueOr0(x: Option<real>): real {
    if x.Some? then x.value else 0.0
  }

  function BatteryDevice(s: Supply): Device {
    Device(
      s.name, s.kind, s.status,
      if s.charge.Some? then Some(Clamp(s.charge.value)) else None,
      StateOf(s.status), ValueOr0(s.energy), ValueOr0(s.energyFull), ValueOr0(s.energyFullDesign),
      if s.energyFull.Some? && s.energyFullDesign.Some? && s.energyFullDesign.value > 0.0
      then Some(Clamp(s.energyFull.value / s.energyFullDesign.value)) else None,
      s.watts)
  }

  // ----- the aggregate

  /** The accumulators of one pass over the supplies. */
  datatype Totals = Totals(
    energyNow: real, energyFull: real, capacityCharge: real, chargeNow: real, chargeFull: real,
    energyJoules: real, watts: real, energyWatts: real,
    nEnergy: nat, nCapacity: nat, nChargeFull: nat, nWatts: nat,
    sawCharging: bool, sawDischarging: bool, sawFull: bool, sawUnknown: bool)

  const NOTHING := Totals(0.0, 0.0, 0.0, 0.0, 0.0, 0.0, 0.0, 0.0, 0, 0, 0, 0, false, false, false, false)

  function Plus(a: Totals, b: Totals): Totals {
    Totals(
      a.energyNow + b.energyNow, a.energyFull + b.energyFull, a.capacityCharge + b.capacityCharge,
      a.chargeNow + b.chargeNow, a.chargeFull + b.chargeFull, a.energyJoules + b.energyJoules,
      a.watts + b.watts, a.energyWatts + b.energyWatts,
      a.nEnergy + b.nEnergy, a.nCapacity + b.nCapacity, a.nChargeFull + b.nChargeFull, a.nWatts + b.nWatts,
      a.sawCharging || b.sawCharging, a.sawDischarging || b.sawDischarging,
      a.sawFull || b.sawFull, a.sawUnknown || b.sawUnknown)
  }

  /** What one supply contributes to the state of charge. */
  function ChargePart(s: Supply): Totals {
    if s.fromEnergy then NOTHING.(energyNow := ValueOr0(s.energy), energyFull := ValueOr0(s.energyFull), nEnergy := 1)
    else if s.charge.None? then NOTHING
    else if s.ampereHours.None? then NOTHING.(capacityCharge := s.charge.value, nCapacity := 1)
    else NOTHING.(capacityCharge := s.charge.value, nCapacity := 1,
                  chargeNow := s.ampereHours.value.0, chargeFull := s.ampereHours.value.1, nChargeFull := 1)
  }

  /** What it contributes to energy and drain. */
  function PowerPart(s: Supply): Totals {
    NOTHING.(energyJoules := ValueOr0(s.energy), watts := ValueOr0(s.watts), nWatts := if s.watts.Some? then 1 else 0,
             energyWatts := if s.energy.Some? then ValueOr0(s.watts) else 0.0)
  }

  function StatePart(s: Supply): Totals {
    var state := StateOf(s.status);
    NOTHING.(sawCharging := state == Charging, sawDischarging := state == Discharging,
             sawFull := state == Full, sawUnknown := state == Unknown)
  }

  function Measure(s: Supply): Totals {
    Plus(Plus(ChargePart(s), PowerPart(s)), StatePart(s))
  }

  function Total(supplies: seq<Supply>): Totals {
    if supplies == [] then NOTHING else Plus(Total(supplies[..|supplies| - 1]), Measure(supplies[|supplies| - 1]))
  }

  /** BatterySnapshot without its devices; mixed says that capacity-only packs were left out. */
  datatype Snapshot = Snapshot(charge: Option<real>, state: State, energyJoules: real, rateWatts: Option<real>,
                               time: Option<int>, mixed: bool)

  function AggregateState(t: Totals): State {
    if t.sawCharging then Charging
    else if t.sawDischarging then Discharging
    else if t.sawFull && !t.sawUnknown then Full
    else Unknown
  }

  function Mean(sum: real, weight: real): real
    requires weight > 0.0
  {
    sum / weight
  }

  /** The state of charge: by energy, else by charge when every pack has counters, else the mean. */
  function AggregateCharge(t: Totals): Option<real>
    requires t.nEnergy > 0 ==> t.energyFull > 0.0
  {
    if t.nEnergy > 0 then Some(Clamp(Mean(t.energyNow, t.energyFull)))
    else if t.nCapacity > 0 then
      if t.nChargeFull == t.nCapacity && t.chargeFull > 0.0 then Some(Clamp(Mean(t.chargeNow, t.chargeFull)))
      else Some(Clamp(Mean(t.capacityCharge, t.nCapacity as real)))
    else None
  }

  /** The time left in nanoseconds, when the drain gives one that a duration can hold. */
  function TimeRemaining(t: Totals): Option<int> {
    if AggregateState(t) != Discharging || t.energyWatts <= 0.0 || t.energyJoules <= 0.0 then None
    else
      var hours := t.energyJoules / (t.energyWatts * 3600.0);
      if hours <= 0.0 || hours > MAX_INT64 as real / HOUR then None
      else
        var remaining := (hours * HOUR).Floor;
        if remaining > 0 then Some(remaining) else None
  }

  function Summary(t: Totals): Snapshot
    requires t.nEnergy > 0 ==> t.energyFull > 0.0
  {
    Snapshot(AggregateCharge(t), AggregateState(t), t.energyJoules,
             if t.nWatts > 0 then Some(t.watts) else None, TimeRemaining(t), t.nEnergy > 0 && t.nCapacity > 0)
  }

  /** Energy packs have capacity to divide by. */
  lemma {:induction false} EnergyFullPositive(supplies: seq<Supply>)
    requires forall i | 0 <= i < |supplies| :: WellFormed(supplies[i])
    ensures var t := Total(supplies); t.energyFull >= 0.0 && (t.nEnergy > 0 ==> t.energyFull > 0.0)
  {
    if supplies != [] {
      EnergyFullPositive(supplies[..|supplies| - 1]);
    }
  }

  lemma PlusAssociates(a: Totals, b: Totals, c: Totals)
    ensures Plus(Plus(a, b), c) == Plus(a, Plus(b, c))
  {}

  method AddCharge(t: Totals, s: Supply) returns (u: Totals)
    requires WellFormed(s)
    ensures u == Plus(t, ChargePart(s))
  {
    u := t;
    if s.fromEnergy {
      u := u.(energyNow := u.energyNow + s.energy.value, energyFull := u.energyFull + s.energyFull.value,
              nEnergy := u.nEnergy + 1);
    } else if s.charge.Some? {
      u := u.(capacityCharge := u.capacityCharge + s.charge.value, nCapacity := u.nCapacity + 1);
      if s.ampereHours.Some? {
        u := u.(chargeNow := u.chargeNow + s.ampereHours.value.0, chargeFull := u.chargeFull + s.ampereHours.value.1,
                nChargeFull := u.nChargeFull + 1);
      }
    }
  }

  method AddPower(t: Totals, s: Supply) returns (u: Totals)
    ensures u == Plus(t, PowerPart(s))
  {
    u := t;
    if s.energy.Some? {
      u := u.(energyJoules := u.energyJoules + s.energy.value);
    }
    if s.watts.Some? {
      u := u.(watts := u.watts + s.watts.value, nWatts := u.nWatts + 1);
      if s.energy.Some? {
        u := u.(energyWatts := u.energyWatts + s.watts.value);
      }
    }
  }

  method AddState(t: Totals, s: Supply) returns (u: Totals)
    ensures u == Plus(t, StatePart(s))
  {
    hide StateOf;
    match StateOf(s.status)
    case Charging => u := t.(sawCharging := true);
    case Discharging => u := t.(sawDischarging := true);
    case Full => u := t.(sawFull := true);
    case Unknown => u := t.(sawUnknown := true);
  }

  method AggregateSupplies(supplies: seq<Supply>) returns (devices: seq<Device>, snapshot: Snapshot)
    requires forall i | 0 <= i < |supplies| :: WellFormed(supplies[i])
    ensures |devices| == |supplies| && forall i | 0 <= i < |supplies| :: devices[i] == BatteryDevice(supplies[i])
    ensures var t := Total(supplies); (t.nEnergy > 0 ==> t.energyFull > 0.0) && snapshot == Summary(t)
  {
    hide ChargePart, PowerPart, StatePart, Plus, BatteryDevice;
    devices := [];
    for i := 0 to |supplies|
      invariant |devices| == i && forall k | 0 <= k < i :: devices[k] == BatteryDevice(supplies[k])
    {
      devices := devices + [BatteryDevice(supplies[i])];
    }
    var t := NOTHING;
    for i := 0 to |supplies|
      invariant t == Total(supplies[..i])
    {
      assert supplies[..i + 1][..i] == supplies[..i];
      var u := AddCharge(t, supplies[i]);
      u := AddPower(u, supplies[i]);
      u := AddState(u, supplies[i]);
      PlusAssociates(t, ChargePart(supplies[i]), PowerPart(supplies[i]));
      PlusAssociates(t, Plus(ChargePart(supplies[i]), PowerPart(supplies[i])), StatePart(supplies[i]));
      t := u;
    }
    assert supplies[..|supplies|] == supplies;
    EnergyFullPositive(supplies);
    snapshot := Summary(t);
  }
}
