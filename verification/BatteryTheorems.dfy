/** What the battery aggregate promises: between the packs, whatever their order, and a sane time left. */
module BatteryTheorems {
  import opened Wrappers
  import opened Text
  import opened Quotients
  import opened Battery

  // ----- order does not matter

  lemma PlusNothing(a: Totals)
    ensures Plus(a, NOTHING) == a && Plus(NOTHING, a) == a
  {}

  lemma PlusRotates(a: Totals, m: Totals, b: Totals)
    ensures Plus(a, Plus(m, b)) == Plus(Plus(a, b), m)
  {}

  lemma TotalNext(a: seq<Supply>, s: Supply)
    ensures Total(a + [s]) == Plus(Total(a), Measure(s))
  {
    hide Plus, Measure;
    assert (a + [s])[..|a|] == a;
  }

  lemma {:induction false} TotalOfParts(a: seq<Supply>, b: seq<Supply>)
    ensures Total(a + b) == Plus(Total(a), Total(b))
  {
    hide Measure, Plus;
    if b == [] {
      assert a + b == a;
      PlusNothing(Total(a));
    } else {
      var n := |b| - 1;
      TotalOfParts(a, b[..n]);
      assert a + b == a + b[..n] + [b[n]];
      TotalNext(a + b[..n], b[n]);
      PlusAssociates(Total(a), Total(b[..n]), Measure(b[n]));
    }
  }

  lemma TotalOfOne(s: Supply)
    ensures Total([s]) == Measure(s)
  {
    hide Measure, Plus;
    TotalNext([], s);
    assert [] + [s] == [s];
    PlusNothing(Measure(s));
  }

  /** Moving one supply to the end changes no accumulator. */
  lemma TotalMoved(b: seq<Supply>, i: nat)
    requires i < |b|
    ensures Total(b) == Plus(Total(b[..i] + b[i + 1..]), Measure(b[i]))
  {
    hide *;
    var head, tail := b[..i], b[i + 1..];
    Around(b, i);
    TotalOfParts(head, [b[i]] + tail);
    TotalOfParts([b[i]], tail);
    TotalOfParts(head, tail);
    TotalOfOne(b[i]);
    PlusRotates(Total(head), Measure(b[i]), Total(tail));
  }

  lemma Around<T>(b: seq<T>, i: nat)
    requires i < |b|
    ensures b == b[..i] + ([b[i]] + b[i + 1..])
  {}

  lemma Removed<T>(b: seq<T>, i: nat)
    requires i < |b|
    ensures multiset(b[..i] + b[i + 1..]) == multiset(b) - multiset{b[i]}
  {
    assert b == b[..i] + [b[i]] + b[i + 1..];
  }

  lemma FoundIn<T>(s: T, b: seq<T>) returns (i: nat)
    requires s in multiset(b)
    ensures i < |b| && b[i] == s
  {
    i :| i < |b| && b[i] == s;
  }

  /** The accumulators, and with them the whole snapshot, do not depend on the order of the supplies. */
  lemma {:induction false} OrderIrrelevant(a: seq<Supply>, b: seq<Supply>)
    requires multiset(a) == multiset(b)
    ensures Total(a) == Total(b)
  {
    hide *;
    if a == [] {
      assert |multiset(b)| == 0;
      assert b == [];
    } else {
      var n := |a| - 1;
      assert a == a[..n] + [a[n]] && a[..n] + a[n + 1..] == a[..n];
      assert a[n] in multiset(a);
      var i := FoundIn(a[n], b);
      Removed(a, n);
      Removed(b, i);
      OrderIrrelevant(a[..n], b[..i] + b[i + 1..]);
      TotalMoved(b, i);
      TotalNext(a[..n], a[n]);
    }
  }

  // ----- sums over the devices

  function EnergyOf(devices: seq<Device>): real {
    if devices == [] then 0.0 else EnergyOf(devices[..|devices| - 1]) + devices[|devices| - 1].energyJoules
  }

  function RateOf(devices: seq<Device>): real {
    if devices == [] then 0.0 else RateOf(devices[..|devices| - 1]) + ValueOr0(devices[|devices| - 1].rateWatts)
  }

  function DevicesOf(supplies: seq<Supply>): seq<Device> {
    seq(|supplies|, i requires 0 <= i < |supplies| => BatteryDevice(supplies[i]))
  }

  /** A supply's part in each accumulator. */
  lemma MeasureFields(s: Supply)
    ensures
      var m, c, p := Measure(s), ChargePart(s), PowerPart(s);
      && m.energyNow == c.energyNow && m.energyFull == c.energyFull && m.nEnergy == c.nEnergy
      && m.capacityCharge == c.capacityCharge && m.nCapacity == c.nCapacity
      && m.chargeNow == c.chargeNow && m.chargeFull == c.chargeFull && m.nChargeFull == c.nChargeFull
      && m.energyJoules == p.energyJoules && m.watts == p.watts && m.nWatts == p.nWatts
  {
    hide StateOf;
  }

  /** The aggregate energy and rate are the sums over the listed devices; a rate needs one device with one. */
  lemma {:induction false} SumsOverDevices(supplies: seq<Supply>)
    ensures
      var t, devices := Total(supplies), DevicesOf(supplies);
      && t.energyJoules == EnergyOf(devices) && t.watts == RateOf(devices)
      && (t.nWatts > 0 <==> exists i | 0 <= i < |devices| :: devices[i].rateWatts.Some?)
  {
    hide Measure, StateOf, Clamp, ChargePart;
    if supplies != [] {
      var n := |supplies| - 1;
      var before, devices := DevicesOf(supplies[..n]), DevicesOf(supplies);
      SumsOverDevices(supplies[..n]);
      MeasureFields(supplies[n]);
      assert devices == before + [devices[n]] && devices[..n] == before;
      if t: nat :| t < |before| && before[t].rateWatts.Some? {
        assert devices[t].rateWatts.Some?;
      }
    }
  }

  /** A device reads within 0 and 1 where it reads at all, and within that range exactly the ratio it stands for. */
  lemma DeviceReadings(s: Supply)
    requires WellFormed(s)
    ensures
      var d := BatteryDevice(s);
      && d.name == s.name && d.kind == s.kind && d.status == s.status && d.state == StateOf(s.status)
      && (s.energy.Some? ==> d.energyJoules == s.energy.value) && (s.energy.None? ==> d.energyJoules == 0.0)
      && (s.energyFull.Some? ==> d.energyFull == s.energyFull.value) && d.rateWatts == s.watts
      && (s.energyFullDesign.Some? ==> d.energyFullDesign == s.energyFullDesign.value)
      && (d.charge.Some? <==> s.charge.Some?)
      && (d.charge.Some? ==> 0.0 <= d.charge.value <= 1.0 && (s.charge.value <= 1.0 ==> d.charge == s.charge))
      && (d.health.Some? <==> s.energyFull.Some? && s.energyFullDesign.Some? && s.energyFullDesign.value > 0.0)
      && (d.health.Some? ==> 0.0 <= d.health.value <= 1.0 && d.energyFullDesign > 0.0)
      && (d.health.Some? && 0.0 <= d.energyFull <= d.energyFullDesign ==>
            d.health.value * d.energyFullDesign == d.energyFull)
  {
    hide StateOf;
    if s.energyFull.Some? && s.energyFullDesign.Some? && s.energyFullDesign.value > 0.0 && s.energyFull.value >= 0.0 {
      DivideThenMultiply(s.energyFull.value, s.energyFullDesign.value);
      if s.energyFull.value <= s.energyFullDesign.value {
        DivideBounds(s.energyFull.value, s.energyFullDesign.value, 0.0, 1.0);
      }
    }
  }

  ghost predicate SomeIn(supplies: seq<Supply>, state: State) {
    exists i | 0 <= i < |supplies| :: StateOf(supplies[i].status) == state
  }

  lemma MeasureState(s: Supply)
    ensures
      var m, state := Measure(s), StateOf(s.status);
      && m.sawCharging == (state == Charging) && m.sawDischarging == (state == Discharging)
      && m.sawFull == (state == Full) && m.sawUnknown == (state == Unknown)
  {
    hide StateOf;
  }

  lemma {:induction false} SeenStates(supplies: seq<Supply>)
    ensures
      var t := Total(supplies);
      && (t.sawCharging <==> SomeIn(supplies, Charging)) && (t.sawDischarging <==> SomeIn(supplies, Discharging))
      && (t.sawFull <==> SomeIn(supplies, Full)) && (t.sawUnknown <==> SomeIn(supplies, Unknown))
  {
    hide StateOf, Measure;
    if supplies != [] {
      var n := |supplies| - 1;
      SeenStates(supplies[..n]);
      MeasureState(supplies[n]);
      forall state
        ensures SomeIn(supplies, state) <==> SomeIn(supplies[..n], state) || StateOf(supplies[n].status) == state
      {
        if i: nat :| i < n && StateOf(supplies[..n][i].status) == state {
          assert StateOf(supplies[i].status) == state;
        }
        if i: nat :| i < n && StateOf(supplies[i].status) == state {
          assert StateOf(supplies[..n][i].status) == state;
        }
      }
    }
  }

  /** One charging pack makes the fleet charging, else one discharging pack discharging; it is full only if all are. */
  lemma FleetState(supplies: seq<Supply>)
    ensures
      var state := AggregateState(Total(supplies));
      && (state == Charging <==> SomeIn(supplies, Charging))
      && (state == Discharging <==> !SomeIn(supplies, Charging) && SomeIn(supplies, Discharging))
      && (state == Full <==> supplies != [] && forall i | 0 <= i < |supplies| :: StateOf(supplies[i].status) == Full)
  {
    SeenStates(supplies);
    hide StateOf, Total;
    if supplies != [] && forall i | 0 <= i < |supplies| :: StateOf(supplies[i].status) == Full {
      assert StateOf(supplies[0].status) == Full;
    }
    forall i | 0 <= i < |supplies|
      ensures StateOf(supplies[i].status) != Full ==>
                SomeIn(supplies, Charging) || SomeIn(supplies, Discharging) || SomeIn(supplies, Unknown)
    {}
  }

  // ----- the charge lies between the packs'

  /** The packs that decide the charge: those with energy counters, or else all with a charge. */
  predicate Decides(supplies: seq<Supply>, i: nat) {
    i < |supplies| && if Total(supplies).nEnergy > 0 then supplies[i].fromEnergy else supplies[i].charge.Some?
  }

  /** A charge and the weight it has in the aggregate. */
  datatype Weighted = Weighted(charge: real, weight: real)

  function WeightSum(ws: seq<Weighted>): real {
    if ws == [] then 0.0 else WeightSum(ws[..|ws| - 1]) + ws[|ws| - 1].weight
  }

  function ChargeSum(ws: seq<Weighted>): real {
    if ws == [] then 0.0 else ChargeSum(ws[..|ws| - 1]) + Times(ws[|ws| - 1].charge, ws[|ws| - 1].weight)
  }

  ghost predicate PositiveWeights(ws: seq<Weighted>) {
    forall i | 0 <= i < |ws| :: ws[i].weight > 0.0
  }

  lemma BoundStep(bound: real, sum: real, charge: real, weight: real)
    requires weight > 0.0
    ensures Times(bound, sum + weight) == Times(bound, sum) + Times(bound, weight)
    ensures bound <= charge ==> Times(bound, weight) <= Times(charge, weight)
    ensures bound >= charge ==> Times(bound, weight) >= Times(charge, weight)
    ensures Times(bound, 0.0) == 0.0
  {}

  /** Mediants: bounds on every charge bound the weighted sum. */
  lemma {:induction false} Mediant(ws: seq<Weighted>, low: real, high: real)
    requires PositiveWeights(ws)
    requires forall i | 0 <= i < |ws| :: low <= ws[i].charge <= high
    ensures WeightSum(ws) >= 0.0 && (ws != [] ==> WeightSum(ws) > 0.0)
    ensures Times(low, WeightSum(ws)) <= ChargeSum(ws) <= Times(high, WeightSum(ws))
  {
    hide Times;
    if ws == [] {
      BoundStep(low, 0.0, 0.0, 1.0);
      BoundStep(high, 0.0, 0.0, 1.0);
    } else {
      var n := |ws| - 1;
      Mediant(ws[..n], low, high);
      BoundStep(low, WeightSum(ws[..n]), ws[n].charge, ws[n].weight);
      BoundStep(high, WeightSum(ws[..n]), ws[n].charge, ws[n].weight);
    }
  }

  lemma {:induction false} LeastAndMost(ws: seq<Weighted>) returns (i: nat, j: nat)
    requires ws != []
    ensures i < |ws| && j < |ws|
    ensures forall k | 0 <= k < |ws| :: ws[i].charge <= ws[k].charge <= ws[j].charge
  {
    var n := |ws| - 1;
    if n == 0 {
      return 0, 0;
    }
    i, j := LeastAndMost(ws[..n]);
    assert forall k | 0 <= k < n :: ws[k] == ws[..n][k];
    if ws[n].charge < ws[i].charge {
      i := n;
    }
    if ws[n].charge > ws[j].charge {
      j := n;
    }
  }

  lemma DivideBounds(sum: real, weight: real, low: real, high: real)
    requires weight > 0.0 && Times(low, weight) <= sum <= Times(high, weight)
    ensures low <= Mean(sum, weight) <= high
  {
    assert sum / weight * weight == sum;
  }

  /** The weighted mean lies between the least and the most charged pack. */
  lemma MeanBetween(ws: seq<Weighted>) returns (i: nat, j: nat)
    requires ws != [] && PositiveWeights(ws)
    ensures i < |ws| && j < |ws| && WeightSum(ws) > 0.0
    ensures ws[i].charge <= Mean(ChargeSum(ws), WeightSum(ws)) <= ws[j].charge
  {
    i, j := LeastAndMost(ws);
    hide WeightSum, ChargeSum, Times;
    Mediant(ws, ws[i].charge, ws[j].charge);
    DivideBounds(ChargeSum(ws), WeightSum(ws), ws[i].charge, ws[j].charge);
  }

  /** The three ways to weigh a pack. */
  datatype Path = ByEnergy | ByCharge | ByCount

  function PathOf(t: Totals): Path {
    if t.nEnergy > 0 then ByEnergy else if t.nChargeFull == t.nCapacity && t.chargeFull > 0.0 then ByCharge else ByCount
  }

  function Weigh(s: Supply, p: Path): seq<Weighted> {
    match p
    case ByEnergy => if s.fromEnergy then [Weighted(ValueOr0(s.charge), ValueOr0(s.energyFull))] else []
    case ByCharge =>
      if !s.fromEnergy && s.charge.Some? && s.ampereHours.Some?
      then [Weighted(s.charge.value, s.ampereHours.value.1)] else []
    case ByCount => if !s.fromEnergy && s.charge.Some? then [Weighted(s.charge.value, 1.0)] else []
  }

  function WeighAll(supplies: seq<Supply>, p: Path): seq<Weighted> {
    if supplies == [] then [] else WeighAll(supplies[..|supplies| - 1], p) + Weigh(supplies[|supplies| - 1], p)
  }

  function WeightOf(t: Totals, p: Path): real {
    match p case ByEnergy => t.energyFull case ByCharge => t.chargeFull case ByCount => t.nCapacity as real
  }

  function ChargeOf(t: Totals, p: Path): real {
    match p case ByEnergy => t.energyNow case ByCharge => t.chargeNow case ByCount => t.capacityCharge
  }

  function CountOf(t: Totals, p: Path): nat {
    match p case ByEnergy => t.nEnergy case ByCharge => t.nChargeFull case ByCount => t.nCapacity
  }

  /** A supply's part on a path is its weight there. */
  lemma PartIsWeight(s: Supply, p: Path)
    requires WellFormed(s)
    ensures
      var c, w := ChargePart(s), Weigh(s, p);
      && WeightOf(c, p) == (if w == [] then 0.0 else w[0].weight)
      && ChargeOf(c, p) == (if w == [] then 0.0 else Times(w[0].charge, w[0].weight))
      && CountOf(c, p) == |w| <= 1 && (w != [] ==> w[0].weight > 0.0)
  {}

  lemma WeightsNext(ws: seq<Weighted>, w: seq<Weighted>)
    requires |w| <= 1
    ensures WeightSum(ws + w) == WeightSum(ws) + if w == [] then 0.0 else w[0].weight
    ensures ChargeSum(ws + w) == ChargeSum(ws) + if w == [] then 0.0 else Times(w[0].charge, w[0].weight)
  {
    hide Times;
    if w == [] {
      assert ws + w == ws;
    } else {
      assert w == [w[0]];
      assert (ws + w)[..|ws|] == ws;
    }
  }

  lemma TotalsAddUp(supplies: seq<Supply>, p: Path)
    requires supplies != []
    ensures
      var n := |supplies| - 1;
      var t, u, c := Total(supplies), Total(supplies[..n]), ChargePart(supplies[n]);
      && WeightOf(t, p) == WeightOf(u, p) + WeightOf(c, p)
      && ChargeOf(t, p) == ChargeOf(u, p) + ChargeOf(c, p)
      && CountOf(t, p) == CountOf(u, p) + CountOf(c, p)
  {
    hide Measure, ChargePart;
    MeasureFields(supplies[|supplies| - 1]);
  }

  /** The accumulators of each path are weighted sums over the packs that take it. */
  lemma {:induction false} AccumulatorsAreSums(supplies: seq<Supply>, p: Path)
    requires forall i | 0 <= i < |supplies| :: WellFormed(supplies[i])
    ensures
      var t, ws := Total(supplies), WeighAll(supplies, p);
      && WeightOf(t, p) == WeightSum(ws) && ChargeOf(t, p) == ChargeSum(ws) && CountOf(t, p) == |ws|
      && PositiveWeights(ws)
  {
    hide WellFormed, Weigh, ChargePart, Times;
    if supplies != [] {
      hide WeightSum, ChargeSum, WeightOf, ChargeOf, CountOf, Total;
      var n := |supplies| - 1;
      AccumulatorsAreSums(supplies[..n], p);
      PartIsWeight(supplies[n], p);
      TotalsAddUp(supplies, p);
      WeightsNext(WeighAll(supplies[..n], p), Weigh(supplies[n], p));
    }
  }

  /** Every weight on a path belongs to a supply. */
  lemma {:induction false} WeighedFrom(supplies: seq<Supply>, p: Path, k: nat) returns (i: nat)
    requires k < |WeighAll(supplies, p)|
    ensures i < |supplies| && Weigh(supplies[i], p) == [WeighAll(supplies, p)[k]]
  {
    var n := |supplies| - 1;
    if k < |WeighAll(supplies[..n], p)| {
      i := WeighedFrom(supplies[..n], p, k);
    } else {
      i := n;
    }
  }

  /**
   The aggregate charge, on each of the three paths, lies between the charges of two of the packs that
   decide it: no pack is fuller or emptier than the fleet reads beyond the fullest and the emptiest.
   */
  lemma ChargeBetweenPacks(supplies: seq<Supply>)
    requires forall i | 0 <= i < |supplies| :: WellFormed(supplies[i])
    ensures
      var charge := (EnergyFullPositive(supplies); AggregateCharge(Total(supplies)));
      charge.Some? ==>
        && (exists i :: ReadsAtMost(supplies, i, charge.value))
        && (exists j :: ReadsAtLeast(supplies, j, charge.value))
  {
    var t := Total(supplies);
    EnergyFullPositive(supplies);
    hide Total, StateOf, Clamp, Mean;
    if AggregateCharge(t).Some? {
      ChargeIsMean(t);
      var i, j := MeanIsBetween(supplies, PathOf(t));
    }
  }

  /** The same for supplies as they are read from sysfs, whatever it says. */
  lemma FleetChargeBetweenPacks(raws: seq<Raw>)
    ensures
      var supplies := ReadAll(raws);
      var charge := (AllWellFormed(raws); EnergyFullPositive(supplies); AggregateCharge(Total(supplies)));
      charge.Some? ==>
        && (exists i :: ReadsAtMost(supplies, i, charge.value))
        && (exists j :: ReadsAtLeast(supplies, j, charge.value))
  {
    AllWellFormed(raws);
    ChargeBetweenPacks(ReadAll(raws));
  }

  function ReadAll(raws: seq<Raw>): seq<Supply> {
    seq(|raws|, i requires 0 <= i < |raws| => ReadSupply(raws[i]))
  }

  lemma AllWellFormed(raws: seq<Raw>)
    ensures forall i | 0 <= i < |raws| :: WellFormed(ReadAll(raws)[i])
  {
    hide WellFormed, ReadSupply;
    forall i | 0 <= i < |raws|
      ensures WellFormed(ReadAll(raws)[i])
    {
      ReadSupplyIsWellFormed(raws[i]);
    }
  }

  /** A pack that decides the charge and reads no more than x. */
  ghost predicate ReadsAtMost(supplies: seq<Supply>, i: nat, x: real) {
    Decides(supplies, i) && var c := BatteryDevice(supplies[i]).charge; c.Some? && c.value <= x
  }

  ghost predicate ReadsAtLeast(supplies: seq<Supply>, i: nat, x: real) {
    Decides(supplies, i) && var c := BatteryDevice(supplies[i]).charge; c.Some? && x <= c.value
  }

  /** The charge is the mean along the chosen path. */
  lemma ChargeIsMean(t: Totals)
    requires t.nEnergy > 0 ==> t.energyFull > 0.0
    requires AggregateCharge(t).Some?
    ensures
      var p := PathOf(t);
      && CountOf(t, p) > 0 && WeightOf(t, p) > 0.0
      && AggregateCharge(t) == Some(Clamp(Mean(ChargeOf(t, p), WeightOf(t, p))))
  {
    hide Mean, Clamp;
  }

  /** The mean along a path lies between two packs of that path. */
  lemma MeanIsBetween(supplies: seq<Supply>, p: Path) returns (i: nat, j: nat)
    requires forall k | 0 <= k < |supplies| :: WellFormed(supplies[k])
    requires var t := Total(supplies); p == PathOf(t) && CountOf(t, p) > 0 && WeightOf(t, p) > 0.0
    ensures var t := Total(supplies);
            var x := Clamp(Mean(ChargeOf(t, p), WeightOf(t, p)));
            ReadsAtMost(supplies, i, x) && ReadsAtLeast(supplies, j, x)
  {
    AccumulatorsAreSums(supplies, p);
    var ws := WeighAll(supplies, p);
    hide Total, WeighAll, Weigh, StateOf, Clamp, Mean, WellFormed, WeightSum, ChargeSum, Decides, BatteryDevice;
    var a, b := MeanBetween(ws);
    i := WeighedFrom(supplies, p, a);
    j := WeighedFrom(supplies, p, b);
    WeighedDecides(supplies, p, i);
    WeighedDecides(supplies, p, j);
    ClampMonotone(ws[a].charge, Mean(ChargeSum(ws), WeightSum(ws)));
    ClampMonotone(Mean(ChargeSum(ws), WeightSum(ws)), ws[b].charge);
  }

  lemma ClampMonotone(a: real, b: real)
    requires a <= b
    ensures Clamp(a) <= Clamp(b)
  {}

  /** A pack that has a weight on the chosen path decides the charge. */
  lemma WeighedDecides(supplies: seq<Supply>, p: Path, i: nat)
    requires i < |supplies| && WellFormed(supplies[i]) && p == PathOf(Total(supplies)) && Weigh(supplies[i], p) != []
    ensures Decides(supplies, i) && supplies[i].charge == Some(Weigh(supplies[i], p)[0].charge)
    ensures BatteryDevice(supplies[i]).charge == Some(Clamp(Weigh(supplies[i], p)[0].charge))
  {
    hide Total, StateOf;
  }

  // ----- the time left

  /**
   A valid time left is positive, fits a duration, and is the energy over the drain of the packs that have
   energy, to the nanosecond; it is only given while discharging.
   */
  lemma TimeIsSane(t: Totals)
    ensures
      var time := TimeRemaining(t);
      time.Some? ==>
        && AggregateState(t) == Discharging && 0 < time.value <= MAX_INT64 && t.energyWatts > 0.0
        && time.value as real <= t.energyJoules / (t.energyWatts * 3600.0) * HOUR < time.value as real + 1.0
  {
    if TimeRemaining(t).Some? {
      var hours := t.energyJoules / (t.energyWatts * 3600.0);
      FitsDuration(hours);
    }
  }

  lemma FitsDuration(hours: real)
    requires hours <= MAX_INT64 as real / HOUR
    ensures hours * HOUR <= MAX_INT64 as real && (hours * HOUR).Floor <= MAX_INT64
  {}
}
