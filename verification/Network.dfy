/** The network interface sampler (network_linux.go); index 0 stands for an unknown interface index. */
module Network {
  import opened Wrappers
  import opened Quotients
  import opened DeltaHistory

  /** networkState: the counters rates are computed from. */
  datatype State = State(receiveBytes: nat, receivePackets: nat, transmitBytes: nat, transmitPackets: nat)

  datatype Interface = Interface(name: string, index: nat, counters: State)

  datatype Rates = Rates(
    receiveBytesPerSecond: real, transmitBytesPerSecond: real,
    receivePacketsPerSecond: real, transmitPacketsPerSecond: real)

  predicate InOrder(previous: State, current: State) {
    && previous.receiveBytes <= current.receiveBytes && previous.receivePackets <= current.receivePackets
    && previous.transmitBytes <= current.transmitBytes && previous.transmitPackets <= current.transmitPackets
  }

  function NetworkRates(previous: State, current: State, elapsed: int): Option<Rates> {
    if elapsed <= 0 || !InOrder(previous, current) then None
    else
      var seconds := Seconds(elapsed);
      Some(Rates(
        (current.receiveBytes - previous.receiveBytes) as real / seconds,
        (current.transmitBytes - previous.transmitBytes) as real / seconds,
        (current.receivePackets - previous.receivePackets) as real / seconds,
        (current.transmitPackets - previous.transmitPackets) as real / seconds))
  }

  /** The counters by index, without the interfaces whose index is unknown. */
  function Seen(interfaces: seq<Interface>): map<nat, State> {
    if interfaces == [] then map[]
    else
      var i, before := interfaces[|interfaces| - 1], Seen(interfaces[..|interfaces| - 1]);
      if i.index == 0 then before else before[i.index := i.counters]
  }

  function RatesOf(b: Baseline<nat, State>, i: Interface, at: int): Option<Rates> {
    var base := if i.index == 0 then None else BaseFor(b, i.index, at);
    if base.Some? then NetworkRates(base.value, i.counters, ElapsedSince(b, at)) else None
  }

  class NetworkSampler {
    var previous: map<nat, State>
    var previousAt: Option<int>

    function Baseline(): Baseline<nat, State>
      reads this
    {
      if previousAt == None then Unset else Set(previousAt.value, previous)
    }

    constructor ()
      ensures Baseline() == Unset
    {
      previous, previousAt := map[], None;
    }

    method SampleNetwork(interfaces: seq<Interface>, at: int) returns (rates: seq<Option<Rates>>)
      modifies this
      ensures Baseline() == Observe(old(Baseline()), Observation(at, Seen(interfaces)))
      ensures |rates| == |interfaces|
      ensures forall i | 0 <= i < |interfaces| :: rates[i] == RatesOf(old(Baseline()), interfaces[i], at)
    {
      var elapsed := 0;
      if previousAt.Some? {
        elapsed := at - previousAt.value;
      }
      var next: map<nat, State> := map[];
      rates := [];
      for i := 0 to |interfaces|
        invariant next == if previousAt == None || elapsed > 0 then Seen(interfaces[..i])
                          else Restrict(previous, Seen(interfaces[..i]).Keys)
        invariant |rates| == i
        invariant forall k | 0 <= k < i :: rates[k] == RatesOf(Baseline(), interfaces[k], at)
      {
        var iface := interfaces[i];
        assert interfaces[..i + 1][..i] == interfaces[..i];
        var rate: Option<Rates> := None;
        if iface.index != 0 {
          if previousAt.Some? && iface.index in previous && elapsed > 0 {
            rate := NetworkRates(previous[iface.index], iface.counters, elapsed);
          }
          if previousAt == None || elapsed > 0 {
            next := next[iface.index := iface.counters];
          } else if iface.index in previous {
            next := next[iface.index := previous[iface.index]];
          }
        }
        rates := rates + [rate];
      }
      assert interfaces[..|interfaces|] == interfaces;
      if previousAt == None || elapsed > 0 {
        previousAt := Some(at);
      }
      previous := next;
    }
  }

  // ----- rates and counts

  datatype Field = ReceiveBytes | ReceivePackets | TransmitBytes | TransmitPackets

  function Counter(f: Field): State -> int {
    (s: State) => match f
      case ReceiveBytes => s.receiveBytes
      case ReceivePackets => s.receivePackets
      case TransmitBytes => s.transmitBytes
      case TransmitPackets => s.transmitPackets
  }

  function Rate(f: Field, r: Rates): real {
    match f
    case ReceiveBytes => r.receiveBytesPerSecond
    case ReceivePackets => r.receivePacketsPerSecond
    case TransmitBytes => r.transmitBytesPerSecond
    case TransmitPackets => r.transmitPacketsPerSecond
  }

  /** Rates exist exactly when time and every counter went forward; each times the seconds is its counter's advance. */
  lemma RatesTimesSeconds(previous: State, current: State, elapsed: int)
    ensures NetworkRates(previous, current, elapsed).Some? <==>
              && elapsed > 0
              && current.receiveBytes >= previous.receiveBytes && current.receivePackets >= previous.receivePackets
              && current.transmitBytes >= previous.transmitBytes && current.transmitPackets >= previous.transmitPackets
    ensures
      var r := NetworkRates(previous, current, elapsed);
      r.Some? ==>
        var seconds := elapsed as real / 1_000_000_000.0;
        && r.value.receiveBytesPerSecond * seconds == (current.receiveBytes - previous.receiveBytes) as real
        && r.value.receivePacketsPerSecond * seconds == (current.receivePackets - previous.receivePackets) as real
        && r.value.transmitBytesPerSecond * seconds == (current.transmitBytes - previous.transmitBytes) as real
        && r.value.transmitPacketsPerSecond * seconds == (current.transmitPackets - previous.transmitPackets) as real
  {
    if NetworkRates(previous, current, elapsed).Some? {
      var seconds := Seconds(elapsed);
      DivideThenMultiply((current.receiveBytes - previous.receiveBytes) as real, seconds);
      DivideThenMultiply((current.receivePackets - previous.receivePackets) as real, seconds);
      DivideThenMultiply((current.transmitBytes - previous.transmitBytes) as real, seconds);
      DivideThenMultiply((current.transmitPackets - previous.transmitPackets) as real, seconds);
    }
  }

  /** The interfaces of a sample that count: those with a known index, a later one in place of an earlier. */
  lemma {:induction false} SeenHolds(interfaces: seq<Interface>, index: nat)
    ensures index in Seen(interfaces) <==>
              index != 0 && exists i | 0 <= i < |interfaces| :: interfaces[i].index == index
    ensures index in Seen(interfaces) ==>
              exists i :: IsLast(interfaces, i, index) && interfaces[i].counters == Seen(interfaces)[index]
  {
    if interfaces != [] {
      var n := |interfaces| - 1;
      SeenHolds(interfaces[..n], index);
      assert forall i | 0 <= i < n :: interfaces[i] == interfaces[..n][i];
      if index in Seen(interfaces) {
        if interfaces[n].index == index {
          assert IsLast(interfaces, n, index);
        } else {
          var i :| IsLast(interfaces[..n], i, index) && interfaces[..n][i].counters == Seen(interfaces[..n])[index];
          assert IsLast(interfaces, i, index);
        }
      }
    }
  }

  ghost predicate IsLast(interfaces: seq<Interface>, i: int, index: nat) {
    && 0 <= i < |interfaces| && interfaces[i].index == index
    && forall k | i < k < |interfaces| :: interfaces[k].index != index
  }

  /**
   After any samples an interface's rates are those since the latest sample, while it was present in every one
   from there on; and it has none otherwise, or with an unknown index.
   */
  lemma RatesSinceLatest(h: History, j: int, i: Interface, at: int)
    requires IsLatest(h, j)
    ensures
      var r := RatesOf(Kept(h), i, at);
      if i.index != 0 && at > h[j].at && PresentSince(h, j, i.index)
      then i.index in h[j].seen && r == NetworkRates(h[j].seen[i.index], i.counters, at - h[j].at)
      else r == None
  {
    hide NetworkRates;
    RateBase(h, j, i.index, at);
    BaselineIsLatest(h, j);
  }

  /** Each valid rate times the seconds it covers is the advance of its own counter. */
  lemma RateTimesSeconds(previous: State, current: State, elapsed: int, f: Field)
    ensures
      var r := NetworkRates(previous, current, elapsed);
      && (r.Some? <==> elapsed > 0 && InOrder(previous, current))
      && (r.Some? ==> Rate(f, r.value) * Seconds(elapsed) == (Counter(f)(current) - Counter(f)(previous)) as real)
  {
    if elapsed > 0 {
      DivideThenMultiply((Counter(f)(current) - Counter(f)(previous)) as real, Seconds(elapsed));
    }
  }

  type History = seq<Observation<nat, State>>

  /** What one sample reports as transferred: a rate times the seconds it covers. */
  function Moved(b: Baseline<nat, State>, o: Observation<nat, State>, index: nat, f: Field): real {
    if index !in o.seen then 0.0
    else
      var r := RatesOf(b, Interface("", index, o.seen[index]), o.at);
      if r.Some? then Rate(f, r.value) * Seconds(ElapsedSince(b, o.at)) else 0.0
  }

  function Transferred(h: History, index: nat, f: Field): real {
    if h == [] then 0.0
    else Transferred(h[..|h| - 1], index, f) + Moved(Kept(h[..|h| - 1]), h[|h| - 1], index, f)
  }

  lemma MovedIsGain(b: Baseline<nat, State>, o: Observation<nat, State>, index: nat, f: Field)
    requires index != 0
    ensures Moved(b, o, index, f) == Gain(b, o, index, Counter(f), InOrder) as real
  {
    var base := BaseFor(b, index, o.at);
    if base.Some? && index in o.seen {
      RateTimesSeconds(base.value, o.seen[index], ElapsedSince(b, o.at), f);
      hide NetworkRates;
    }
  }

  lemma {:induction false} TransferredIsGained(h: History, index: nat, f: Field)
    requires index != 0
    ensures Transferred(h, index, f) == Gained(h, index, Counter(f), InOrder) as real
  {
    if h != [] {
      hide Moved, Gain;
      TransferredIsGained(h[..|h| - 1], index, f);
      MovedIsGain(Kept(h[..|h| - 1]), h[|h| - 1], index, f);
    }
  }

  /**
   An interface with a known index that is present in every sample and whose counters never regressed
   has rates that account for exactly what its counters advanced from the first sample to the latest,
   whatever clocks stalled or ran back. With one reset, exactly the interval across it is missing.
   */
  lemma RateConservation(h: History, j: int, index: nat, f: Field, r: nat)
    requires index != 0 && IsLatest(h, j) && OneReset(h, index, InOrder, r)
    ensures index in h[0].seen && index in h[j].seen
    ensures r == 0 || r > j ==>
              Transferred(h, index, f) == (Counter(f)(h[j].seen[index]) - Counter(f)(h[0].seen[index])) as real
    ensures Transferred(h, index, f) + Lost(h, index, Counter(f), InOrder) as real
            == (Counter(f)(h[j].seen[index]) - Counter(f)(h[0].seen[index])) as real
    ensures LostIntervals(h, index, InOrder) <= 1
  {
    hide Lost, Gained, Kept, LostIntervals;
    TransferredIsGained(h, index, f);
    RatesConserveCounts(h, j, index, Counter(f), InOrder);
    ResetLosesOneInterval(h, j, index, InOrder, r);
    if r == 0 || r > j {
      NoLostIntervalNoLoss(h, index, Counter(f), InOrder);
    }
  }
}
