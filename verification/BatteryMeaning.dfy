/**
 The battery readings and their aggregate in the units of sysfs and in plain sums over the packs: watt-hours,
 ampere-hours, watts, and the words the kernel uses.
 */
module BatteryMeaning {
  import opened Wrappers
  import opened Text
  import opened Quotients
  import opened Battery
  import opened BatteryTheorems

  // ----- one supply, from its attributes

  /** The energy counters give the state of charge. */
  predicate ByEnergyCounters(r: Raw) {
    r.energyNow.Some? && r.energyFull.Some? && r.energyFull.value > 0
  }

  predicate ByChargeCounters(r: Raw) {
    !ByEnergyCounters(r) && r.chargeNow.Some? && r.chargeFull.Some? && r.chargeFull.value > 0
  }

  /** The state of charge is the ratio of the energy counters, else of the charge counters, else the percentage. */
  lemma ChargeOfSupply(r: Raw)
    ensures
      var s := ReadSupply(r);
      && s.fromEnergy == ByEnergyCounters(r) && (s.ampereHours.Some? <==> ByChargeCounters(r))
      && (ByEnergyCounters(r) ==>
            s.charge.Some? && s.charge.value * r.energyFull.value as real == r.energyNow.value as real)
      && (ByChargeCounters(r) ==>
            && s.charge.Some? && s.charge.value * r.chargeFull.value as real == r.chargeNow.value as real
            && s.ampereHours.value == (r.chargeNow.value as real, r.chargeFull.value as real))
      && (!ByEnergyCounters(r) && !ByChargeCounters(r) ==>
            && (s.charge.Some? <==> r.capacity.Some?)
            && (s.charge.Some? ==> s.charge.value * 100.0 == r.capacity.value as real))
  {
    hide Joules, ChargeJoules, ReadWatts;
  }

  /** A microwatt-hour is 0.0036 joules; charge times voltage is energy; power and current are magnitudes. */
  lemma EnergyOfSupply(r: Raw)
    ensures
      var s := ReadSupply(r);
      && (r.energyNow.Some? ==> s.energy.Some? && s.energy.value * 1_000_000.0 == r.energyNow.value as real * 3600.0)
      && (r.energyNow.None? && ByChargeCounters(r) && r.voltageNow.Some? ==>
            s.energy.Some?
            && s.energy.value * 1_000_000_000_000.0 == r.chargeNow.value as real * r.voltageNow.value as real * 3600.0)
      && (r.energyNow.None? && !(ByChargeCounters(r) && r.voltageNow.Some?) ==> s.energy.None?)
  {
    hide Ratio, ReadWatts;
  }

  lemma WattsOfSupply(r: Raw)
    ensures
      var w := ReadSupply(r).watts;
      && (r.powerNow.Some? ==>
            && w.Some? && w.value >= 0.0
            && (|| w.value * 1_000_000.0 == r.powerNow.value as real
                || w.value * -1_000_000.0 == r.powerNow.value as real))
      && (r.powerNow.None? && r.currentNow.Some? && r.voltageNow.Some? ==>
            && w.Some? && w.value >= 0.0
            && var p := r.currentNow.value as real * r.voltageNow.value as real;
               (w.value * 1_000_000_000_000.0 == p || w.value * -1_000_000_000_000.0 == p))
      && (r.powerNow.None? && !(r.currentNow.Some? && r.voltageNow.Some?) ==> w.None?)
  {
    hide Ratio, Joules, ChargeJoules;
  }

  /** The capacities behind the health come from one family of counters: energy, or charge and voltage. */
  lemma CapacityOfSupply(r: Raw)
    ensures
      var s := ReadSupply(r);
      var noEnergyPair := !ByEnergyCounters(r) && !(r.energyFullDesign.Some? && r.energyFullDesign.value > 0);
      var chargePair := ByChargeCounters(r) && r.chargeFullDesign.Some? && r.chargeFullDesign.value > 0;
      && (ByEnergyCounters(r) ==>
            s.energyFull.Some? && s.energyFull.value * 1_000_000.0 == r.energyFull.value as real * 3600.0)
      && (r.energyFullDesign.Some? && r.energyFullDesign.value > 0 ==>
            && s.energyFullDesign.Some?
            && s.energyFullDesign.value * 1_000_000.0 == r.energyFullDesign.value as real * 3600.0)
      && (noEnergyPair && chargePair && r.voltageNow.Some? ==>
            && s.energyFull.Some? && s.energyFullDesign.Some?
            && s.energyFull.value * 1_000_000_000_000.0
               == r.chargeFull.value as real * r.voltageNow.value as real * 3600.0
            && s.energyFullDesign.value * 1_000_000_000_000.0
               == r.chargeFullDesign.value as real * r.voltageNow.value as real * 3600.0)
      && (!ByEnergyCounters(r) && !(noEnergyPair && chargePair && r.voltageNow.Some?) ==> s.energyFull.None?)
  {
    hide Ratio, ReadWatts;
  }

  // ----- the state, from the status word

  lemma StateOfStatus(status: string)
    ensures StateOf(status) == Charging <==> ToLower(status) == "charging"
    ensures StateOf(status) == Discharging <==> ToLower(status) == "discharging"
    ensures StateOf(status) == Full <==> ToLower(status) in {"full", "not charging", "idle"}
  {
    hide ToLower;
    WordsDiffer();
  }

  lemma WordsDiffer()
    ensures "charging" != "discharging"
    ensures "charging" !in {"full", "not charging", "idle"} && "discharging" !in {"full", "not charging", "idle"}
  {
    assert |"charging"| == 8 && |"discharging"| == 11 && |"full"| == 4 && |"not charging"| == 12 && |"idle"| == 4;
  }

  // ----- the aggregate, as sums over the packs

  function SumBy(supplies: seq<Supply>, f: Supply -> real): real {
    if supplies == [] then 0.0 else SumBy(supplies[..|supplies| - 1], f) + f(supplies[|supplies| - 1])
  }

  function Value(x: Option<real>): real {
    if x.Some? then x.value else 0.0
  }

  /** A pack that has a state of charge, but not from energy counters. */
  predicate OnlyCharge(s: Supply) {
    !s.fromEnergy && s.charge.Some?
  }

  function EnergyNow(s: Supply): real {
    if s.fromEnergy then Value(s.energy) else 0.0
  }

  function EnergyFull(s: Supply): real {
    if s.fromEnergy then Value(s.energyFull) else 0.0
  }

  function AmpereHoursNow(s: Supply): real {
    if OnlyCharge(s) && s.ampereHours.Some? then s.ampereHours.value.0 else 0.0
  }

  function AmpereHoursFull(s: Supply): real {
    if OnlyCharge(s) && s.ampereHours.Some? then s.ampereHours.value.1 else 0.0
  }

  function ChargeAlone(s: Supply): real {
    if OnlyCharge(s) then s.charge.value else 0.0
  }

  function One(s: Supply): real {
    if OnlyCharge(s) then 1.0 else 0.0
  }

  function Energy(s: Supply): real {
    Value(s.energy)
  }

  function Watts(s: Supply): real {
    Value(s.watts)
  }

  function Drain(s: Supply): real {
    if s.energy.Some? then Value(s.watts) else 0.0
  }

  /** Every accumulator is the plain sum of one reading over the packs it is taken from. */
  lemma {:induction false} TotalsAreSums(supplies: seq<Supply>)
    ensures
      var t := Total(supplies);
      && t.energyNow == SumBy(supplies, EnergyNow) && t.energyFull == SumBy(supplies, EnergyFull)
      && t.chargeNow == SumBy(supplies, AmpereHoursNow) && t.chargeFull == SumBy(supplies, AmpereHoursFull)
      && t.capacityCharge == SumBy(supplies, ChargeAlone) && t.nCapacity as real == SumBy(supplies, One)
      && t.energyJoules == SumBy(supplies, Energy) && t.watts == SumBy(supplies, Watts)
      && t.energyWatts == SumBy(supplies, Drain)
  {
    if supplies != [] {
      var n := |supplies| - 1;
      TotalsAreSums(supplies[..n]);
      MeasureIs(supplies[n]);
      hide Measure, Energy, Watts, EnergyNow, EnergyFull, AmpereHoursNow, AmpereHoursFull, ChargeAlone, One, Drain,
           Value;
    }
  }

  lemma MeasureIs(s: Supply)
    ensures
      var m := Measure(s);
      && m.energyNow == EnergyNow(s) && m.energyFull == EnergyFull(s)
      && m.chargeNow == AmpereHoursNow(s) && m.chargeFull == AmpereHoursFull(s)
      && m.capacityCharge == ChargeAlone(s) && m.nCapacity as real == One(s)
      && m.energyJoules == Energy(s) && m.watts == Watts(s) && m.energyWatts == Drain(s)
      && m.nEnergy == (if s.fromEnergy then 1 else 0) && m.nCapacity == (if OnlyCharge(s) then 1 else 0)
      && m.nChargeFull == (if OnlyCharge(s) && s.ampereHours.Some? then 1 else 0)
  {
    hide StateOf;
  }

  /** Some pack has energy counters; some has only a charge; one of those has no counters for it. */
  ghost predicate SomeEnergy(supplies: seq<Supply>) {
    exists i | 0 <= i < |supplies| :: supplies[i].fromEnergy
  }

  ghost predicate SomeCharge(supplies: seq<Supply>) {
    exists i | 0 <= i < |supplies| :: OnlyCharge(supplies[i])
  }

  ghost predicate SomePercentage(supplies: seq<Supply>) {
    exists i | 0 <= i < |supplies| :: OnlyCharge(supplies[i]) && supplies[i].ampereHours.None?
  }

  lemma SomeNext(supplies: seq<Supply>)
    requires supplies != []
    ensures
      var before, s := supplies[..|supplies| - 1], supplies[|supplies| - 1];
      && (SomeEnergy(supplies) <==> SomeEnergy(before) || s.fromEnergy)
      && (SomeCharge(supplies) <==> SomeCharge(before) || OnlyCharge(s))
      && (SomePercentage(supplies) <==> SomePercentage(before) || (OnlyCharge(s) && s.ampereHours.None?))
  {
    var n := |supplies| - 1;
    hide OnlyCharge;
    assert forall i | 0 <= i < n :: supplies[i] == supplies[..n][i];
  }

  /** The counts behind the choice of a path. */
  lemma {:induction false} CountsSay(supplies: seq<Supply>)
    ensures
      var t := Total(supplies);
      && (t.nEnergy > 0 <==> SomeEnergy(supplies)) && (t.nCapacity > 0 <==> SomeCharge(supplies))
      && t.nChargeFull <= t.nCapacity && (t.nChargeFull < t.nCapacity <==> SomePercentage(supplies))
  {
    if supplies != [] {
      var n := |supplies| - 1;
      CountsSay(supplies[..n]);
      SomeNext(supplies);
      MeasureIs(supplies[n]);
      hide Measure, SomeEnergy, SomeCharge, SomePercentage;
    }
  }

  lemma {:induction false} PositiveSum(ws: seq<Weighted>)
    requires PositiveWeights(ws)
    ensures WeightSum(ws) >= 0.0 && (ws != [] ==> WeightSum(ws) > 0.0)
  {
    if ws != [] {
      PositiveSum(ws[..|ws| - 1]);
    }
  }

  lemma ChargeFullPositive(supplies: seq<Supply>)
    requires forall i | 0 <= i < |supplies| :: WellFormed(supplies[i])
    ensures var t := Total(supplies); t.nChargeFull > 0 ==> t.chargeFull > 0.0
  {
    hide Total, WeighAll, WeightSum, PositiveWeights, WellFormed;
    AccumulatorsAreSums(supplies, ByCharge);
    PositiveSum(WeighAll(supplies, ByCharge));
  }

  /** The charge is part over whole, kept within 0 and 1. */
  predicate IsCharge(charge: Option<real>, part: real, whole: real) {
    charge.Some? && whole > 0.0
    && (0.0 <= part <= whole ==> charge.value * whole == part)
    && (part > whole ==> charge.value == 1.0) && (part < 0.0 ==> charge.value == 0.0)
  }

  /**
   The fleet's charge: the energy of the packs with energy counters over their full energy; without such a pack, the
   charge over the full charge, when every pack that has a charge has counters for it; else the mean of the charges.
   */
  lemma FleetCharge(supplies: seq<Supply>)
    requires forall i | 0 <= i < |supplies| :: WellFormed(supplies[i])
    ensures
      var charge := (EnergyFullPositive(supplies); AggregateCharge(Total(supplies)));
      if SomeEnergy(supplies) then IsCharge(charge, SumBy(supplies, EnergyNow), SumBy(supplies, EnergyFull))
      else if !SomeCharge(supplies) then charge == None
      else if !SomePercentage(supplies) then
        IsCharge(charge, SumBy(supplies, AmpereHoursNow), SumBy(supplies, AmpereHoursFull))
      else IsCharge(charge, SumBy(supplies, ChargeAlone), SumBy(supplies, One))
  {
    EnergyFullPositive(supplies);
    ChargeFullPositive(supplies);
    TotalsAreSums(supplies);
    CountsSay(supplies);
    hide Total, SumBy, SomeEnergy, SomeCharge, SomePercentage, WellFormed, Mean, Clamp, IsCharge;
    var t := Total(supplies);
    if t.nEnergy > 0 {
      ClampedMean(t.energyNow, t.energyFull);
    } else if t.nCapacity > 0 {
      if t.nChargeFull == t.nCapacity {
        ClampedMean(t.chargeNow, t.chargeFull);
      } else {
        ClampedMean(t.capacityCharge, t.nCapacity as real);
      }
    }
  }

  lemma ClampedMean(part: real, whole: real)
    requires whole > 0.0
    ensures IsCharge(Some(Clamp(Mean(part, whole))), part, whole)
  {
    DivideThenMultiply(part, whole);
    var x := part / whole;
    assert x * whole == part;
    assert x > 1.0 <==> part > whole;
    assert x < 0.0 <==> part < 0.0;
  }

  /** The other fields of the snapshot; packs with only a charge beside packs with energy are reported as mixed. */
  lemma FleetSummary(supplies: seq<Supply>)
    requires forall i | 0 <= i < |supplies| :: WellFormed(supplies[i])
    ensures
      var s := (EnergyFullPositive(supplies); Summary(Total(supplies)));
      && s.energyJoules == SumBy(supplies, Energy)
      && (s.rateWatts.Some? <==> exists i | 0 <= i < |supplies| :: supplies[i].watts.Some?)
      && (s.rateWatts.Some? ==> s.rateWatts.value == SumBy(supplies, Watts))
      && (s.mixed <==> SomeEnergy(supplies) && SomeCharge(supplies))
      && s.charge == AggregateCharge(Total(supplies)) && s.state == AggregateState(Total(supplies))
      && s.time == TimeRemaining(Total(supplies))
  {
    EnergyFullPositive(supplies);
    TotalsAreSums(supplies);
    CountsSay(supplies);
    SumsOverDevices(supplies);
    DevicesHaveWatts(supplies);
    hide *;
    SummaryOf(Total(supplies));
  }

  lemma DevicesHaveWatts(supplies: seq<Supply>)
    ensures (exists i | 0 <= i < |DevicesOf(supplies)| :: DevicesOf(supplies)[i].rateWatts.Some?)
            <==> exists i | 0 <= i < |supplies| :: supplies[i].watts.Some?
  {
    assert forall i | 0 <= i < |supplies| :: DevicesOf(supplies)[i].rateWatts == supplies[i].watts;
  }

  lemma SummaryOf(t: Totals)
    requires t.nEnergy > 0 ==> t.energyFull > 0.0
    ensures
      var s := Summary(t);
      && s.energyJoules == t.energyJoules && s.rateWatts == (if t.nWatts > 0 then Some(t.watts) else None)
      && (s.mixed <==> t.nEnergy > 0 && t.nCapacity > 0)
      && s.charge == AggregateCharge(t) && s.state == AggregateState(t) && s.time == TimeRemaining(t)
  {}

  // ----- the time left

  /**
   There is a time left exactly when the fleet discharges, energy and drain are positive, and the energy lasts for
   at least a nanosecond and no longer than a duration holds; it is then joules over watts, in nanoseconds.
   */
  lemma TimeIsExact(t: Totals)
    ensures
      var time := TimeRemaining(t);
      && (time.Some? <==>
            && AggregateState(t) == Discharging && t.energyWatts > 0.0 && t.energyJoules > 0.0
            && 1.0 <= t.energyJoules / t.energyWatts * 1_000_000_000.0 <= MAX_INT64 as real)
      && (time.Some? ==> time.value == (t.energyJoules / t.energyWatts * 1_000_000_000.0).Floor)
  {
    if t.energyWatts > 0.0 && t.energyJoules > 0.0 {
      SecondsFromHours(t.energyJoules, t.energyWatts);
    }
  }

  lemma SecondsFromHours(joules: real, watts: real)
    requires watts > 0.0 && joules > 0.0
    ensures joules / (watts * 3600.0) > 0.0
    ensures joules / (watts * 3600.0) * HOUR == joules / watts * 1_000_000_000.0
  {
    var hours, seconds := joules / (watts * 3600.0), joules / watts;
    DivideThenMultiply(joules, watts * 3600.0);
    DivideThenMultiply(joules, watts);
    assert (hours * 3600.0) * watts == joules == seconds * watts;
    assert hours * 3600.0 == seconds;
  }
}
