/** The block device sampler (block_linux.go). */
module Block {
  import opened Wrappers
  import opened Quotients
  import opened DeltaHistory

  datatype Identity = Identity(major: nat, minor: nat)

  /** blockState: the counters of one device; busy is in nanoseconds. */
  datatype State = State(readBytes: nat, writeBytes: nat, readOperations: nat, writeOperations: nat, busy: nat)

  datatype Device = Device(name: string, identity: Identity, counters: State)

  datatype Rates = Rates(
    readBytesPerSecond: real, writeBytesPerSecond: real,
    readOperationsPerSecond: real, writeOperationsPerSecond: real, busyFraction: real)

  predicate InOrder(previous: State, current: State) {
    && previous.readBytes <= current.readBytes && previous.writeBytes <= current.writeBytes
    && previous.readOperations <= current.readOperations && previous.writeOperations <= current.writeOperations
    && previous.busy <= current.busy
  }

  /** The rates of an interval, or None when time or any counter did not go forward. */
  function BlockRates(previous: State, current: State, elapsed: int): Option<Rates> {
    if elapsed <= 0 || !InOrder(previous, current) then None
    else
      var seconds := Seconds(elapsed);
      var busy := (current.busy - previous.busy) as real / elapsed as real;
      Some(Rates(
        (current.readBytes - previous.readBytes) as real / seconds,
        (current.writeBytes - previous.writeBytes) as real / seconds,
        (current.readOperations - previous.readOperations) as real / seconds,
        (current.writeOperations - previous.writeOperations) as real / seconds,
        if busy > 1.0 then 1.0 else busy))
  }

  /** The counters by identity; a later row for an identity replaces an earlier one. */
  function Seen(devices: seq<Device>): map<Identity, State> {
    if devices == [] then map[]
    else
      var d := devices[|devices| - 1];
      Seen(devices[..|devices| - 1])[d.identity := d.counters]
  }

  function RatesOf(b: Baseline<Identity, State>, d: Device, at: int): Option<Rates> {
    var base := BaseFor(b, d.identity, at);
    if base.Some? then BlockRates(base.value, d.counters, ElapsedSince(b, at)) else None
  }

  class BlockSampler {
    var previous: map<Identity, State>
    var previousAt: Option<int>

    function Baseline(): Baseline<Identity, State>
      reads this
    {
      if previousAt == None then Unset else Set(previousAt.value, previous)
    }

    constructor ()
      ensures Baseline() == Unset
    {
      previous, previousAt := map[], None;
    }

    /** Rates for every device of the sample, in input order, and the next baseline. */
    method SampleBlock(devices: seq<Device>, at: int) returns (rates: seq<Option<Rates>>)
      modifies this
      ensures Baseline() == Observe(old(Baseline()), Observation(at, Seen(devices)))
      ensures |rates| == |devices|
      ensures forall i | 0 <= i < |devices| :: rates[i] == RatesOf(old(Baseline()), devices[i], at)
    {
      var elapsed := 0;
      if previousAt.Some? {
        elapsed := at - previousAt.value;
      }
      var next: map<Identity, State> := map[];
      rates := [];
      for i := 0 to |devices|
        invariant next == if previousAt == None || elapsed > 0 then Seen(devices[..i])
                          else Restrict(previous, Seen(devices[..i]).Keys)
        invariant |rates| == i
        invariant forall k | 0 <= k < i :: rates[k] == RatesOf(Baseline(), devices[k], at)
      {
        var device := devices[i];
        var id := device.identity;
        assert devices[..i + 1][..i] == devices[..i];
        var rate: Option<Rates> := None;
        if previousAt.Some? && id in previous && elapsed > 0 {
          rate := BlockRates(previous[id], device.counters, elapsed);
        }
        if previousAt == None || elapsed > 0 {
          next := next[id := device.counters];
        } else if id in previous {
          next := next[id := previous[id]];
        }
        rates := rates + [rate];
      }
      assert devices[..|devices|] == devices;
      if previousAt == None || elapsed > 0 {
        previousAt := Some(at);
      }
      previous := next;
    }
  }

  // ----- rates and counts

  /** Each valid rate times the seconds it covers is its counter's advance; the busy share stays within 1. */
  lemma RatesTimesSeconds(previous: State, current: State, elapsed: int)
    ensures BlockRates(previous, current, elapsed).Some? <==>
              && elapsed > 0
              && current.readBytes >= previous.readBytes && current.writeBytes >= previous.writeBytes
              && current.readOperations >= previous.readOperations
              && current.writeOperations >= previous.writeOperations && current.busy >= previous.busy
    ensures
      var r := BlockRates(previous, current, elapsed);
      r.Some? ==>
        var seconds := elapsed as real / 1_000_000_000.0;
        && r.value.readBytesPerSecond * seconds == (current.readBytes - previous.readBytes) as real
        && r.value.writeBytesPerSecond * seconds == (current.writeBytes - previous.writeBytes) as real
        && r.value.readOperationsPerSecond * seconds == (current.readOperations - previous.readOperations) as real
        && r.value.writeOperationsPerSecond * seconds == (current.writeOperations - previous.writeOperations) as real
        && 0.0 <= r.value.busyFraction <= 1.0
        && (current.busy - previous.busy >= elapsed ==> r.value.busyFraction == 1.0)
        && (current.busy - previous.busy <= elapsed ==>
              r.value.busyFraction * elapsed as real == (current.busy - previous.busy) as real)
  {
    if elapsed > 0 && InOrder(previous, current) {
      var seconds := Seconds(elapsed);
      DivideThenMultiply((current.readBytes - previous.readBytes) as real, seconds);
      DivideThenMultiply((current.writeBytes - previous.writeBytes) as real, seconds);
      DivideThenMultiply((current.readOperations - previous.readOperations) as real, seconds);
      DivideThenMultiply((current.writeOperations - previous.writeOperations) as real, seconds);
      DivideThenMultiply((current.busy - previous.busy) as real, elapsed as real);
      BusyShare(current.busy - previous.busy, elapsed);
    }
  }

  /** The devices of a sample, a later one in place of an earlier with the same identity. */
  lemma {:induction false} SeenHolds(devices: seq<Device>, id: Identity)
    ensures id in Seen(devices) <==> exists i :: IsLast(devices, i, id)
    ensures id in Seen(devices) ==> exists i :: IsLast(devices, i, id) && devices[i].counters == Seen(devices)[id]
  {
    if devices != [] {
      var n := |devices| - 1;
      SeenHolds(devices[..n], id);
      if devices[n].identity == id {
        assert IsLast(devices, n, id);
      } else {
        SeenBefore(devices, id);
        hide Seen;
        forall i ensures IsLast(devices, i, id) <==> IsLast(devices[..n], i, id) {
          SameLast(devices, i, id);
        }
        hide IsLast;
        if id in Seen(devices) {
          var i :| IsLast(devices[..n], i, id) && devices[..n][i].counters == Seen(devices[..n])[id];
          LastIsThere(devices[..n], i, id);
          assert IsLast(devices, i, id) && devices[i] == devices[..n][i];
        }
      }
    }
  }

  lemma SeenBefore(devices: seq<Device>, id: Identity)
    requires devices != [] && devices[|devices| - 1].identity != id
    ensures
      var before := Seen(devices[..|devices| - 1]);
      (id in Seen(devices) <==> id in before) && (id in before ==> Seen(devices)[id] == before[id])
  {}

  lemma SameLast(devices: seq<Device>, i: int, id: Identity)
    requires devices != [] && devices[|devices| - 1].identity != id
    ensures IsLast(devices, i, id) <==> IsLast(devices[..|devices| - 1], i, id)
  {
    var before := devices[..|devices| - 1];
    assert forall k | 0 <= k < |before| :: before[k] == devices[k];
  }

  lemma LastIsThere(devices: seq<Device>, i: int, id: Identity)
    requires IsLast(devices, i, id)
    ensures 0 <= i < |devices|
  {}

  /** The last device of a sample with this identity. */
  ghost predicate IsLast(devices: seq<Device>, i: int, id: Identity) {
    && 0 <= i < |devices| && devices[i].identity == id
    && forall k | i < k < |devices| :: devices[k].identity != id
  }

  /**
   After any samples a device's rates are those since the latest sample, while it was present in every one from
   there on; and it has none otherwise.
   */
  lemma RatesSinceLatest(h: History, j: int, d: Device, at: int)
    requires IsLatest(h, j)
    ensures
      var r := RatesOf(Kept(h), d, at);
      if at > h[j].at && PresentSince(h, j, d.identity)
      then d.identity in h[j].seen && r == BlockRates(h[j].seen[d.identity], d.counters, at - h[j].at)
      else r == None
  {
    hide BlockRates;
    RateBase(h, j, d.identity, at);
    BaselineIsLatest(h, j);
  }

  lemma BusyShare(delta: nat, elapsed: int)
    requires elapsed > 0
    ensures delta as real / elapsed as real >= 0.0
    ensures delta <= elapsed <==> delta as real / elapsed as real <= 1.0
    ensures delta == elapsed ==> delta as real / elapsed as real == 1.0
  {
    DivideThenMultiply(delta as real, elapsed as real);
  }

  /** The four rate fields, each with the counter it comes from. */
  datatype Field = ReadBytes | WriteBytes | ReadOperations | WriteOperations

  function Counter(f: Field): State -> int {
    (s: State) => match f
      case ReadBytes => s.readBytes
      case WriteBytes => s.writeBytes
      case ReadOperations => s.readOperations
      case WriteOperations => s.writeOperations
  }

  function Rate(f: Field, r: Rates): real {
    match f
    case ReadBytes => r.readBytesPerSecond
    case WriteBytes => r.writeBytesPerSecond
    case ReadOperations => r.readOperationsPerSecond
    case WriteOperations => r.writeOperationsPerSecond
  }

  type History = seq<Observation<Identity, State>>

  /** What one sample reports as transferred: a rate times the seconds it covers. */
  function Moved(b: Baseline<Identity, State>, o: Observation<Identity, State>, id: Identity, f: Field): real {
    if id !in o.seen then 0.0
    else
      var r := RatesOf(b, Device("", id, o.seen[id]), o.at);
      if r.Some? then Rate(f, r.value) * Seconds(ElapsedSince(b, o.at)) else 0.0
  }

  function Transferred(h: History, id: Identity, f: Field): real {
    if h == [] then 0.0
    else Transferred(h[..|h| - 1], id, f) + Moved(Kept(h[..|h| - 1]), h[|h| - 1], id, f)
  }

  lemma RateTimesSeconds(previous: State, current: State, elapsed: int, f: Field)
    ensures
      var r := BlockRates(previous, current, elapsed);
      && (r.Some? <==> elapsed > 0 && InOrder(previous, current))
      && (r.Some? ==> Rate(f, r.value) * Seconds(elapsed) == (Counter(f)(current) - Counter(f)(previous)) as real)
  {
    RatesTimesSeconds(previous, current, elapsed);
    hide BlockRates;
  }

  lemma MovedIsGain(b: Baseline<Identity, State>, o: Observation<Identity, State>, id: Identity, f: Field)
    ensures Moved(b, o, id, f) == Gain(b, o, id, Counter(f), InOrder) as real
  {
    hide BlockRates, Rate, Seconds;
    var base := BaseFor(b, id, o.at);
    if base.Some? && id in o.seen {
      RateTimesSeconds(base.value, o.seen[id], ElapsedSince(b, o.at), f);
    }
  }

  lemma {:induction false} TransferredIsGained(h: History, id: Identity, f: Field)
    ensures Transferred(h, id, f) == Gained(h, id, Counter(f), InOrder) as real
  {
    if h != [] {
      hide Moved, Gain;
      TransferredIsGained(h[..|h| - 1], id, f);
      MovedIsGain(Kept(h[..|h| - 1]), h[|h| - 1], id, f);
    }
  }

  /**
   Over any run of samples, whatever clocks stalled or ran back, a device present in every sample whose
   counters never regressed has rates that account for exactly what its counters advanced from the
   first sample to the latest one. With one reset, exactly the interval across it is missing.
   */
  lemma RateConservation(h: History, j: int, id: Identity, f: Field, r: nat)
    requires IsLatest(h, j) && OneReset(h, id, InOrder, r)
    ensures id in h[0].seen && id in h[j].seen
    ensures r == 0 || r > j ==>
              Transferred(h, id, f) == (Counter(f)(h[j].seen[id]) - Counter(f)(h[0].seen[id])) as real
    ensures Transferred(h, id, f) + Lost(h, id, Counter(f), InOrder) as real
            == (Counter(f)(h[j].seen[id]) - Counter(f)(h[0].seen[id])) as real
    ensures LostIntervals(h, id, InOrder) <= 1
  {
    hide Lost, Gained, Kept, LostIntervals;
    TransferredIsGained(h, id, f);
    RatesConserveCounts(h, j, id, Counter(f), InOrder);
    ResetLosesOneInterval(h, j, id, InOrder, r);
    if r == 0 || r > j {
      NoLostIntervalNoLoss(h, id, Counter(f), InOrder);
    }
  }
}
