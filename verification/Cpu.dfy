/** The CPU sampler (cpu_linux.go): one aggregate and a set of cores that come and go. */
module Cpu {
  import opened Wrappers
  import opened Text
  import opened Folds
  import opened Quotients
  import opened DeltaHistory

  /** The counters of one /proc/stat row. */
  datatype Times = Times(user: nat, nice: nat, system: nat, idle: nat, iowait: nat, irq: nat, softirq: nat, steal: nat)

  function Values(t: Times): (s: seq<nat>) {
    [t.user, t.nice, t.system, t.idle, t.iowait, t.irq, t.softirq, t.steal]
  }

  datatype Parsed = Parsed(aggregate: Times, cores: map<nat, Times>)
  datatype CpuState = CpuState(at: int, aggregate: Times, cores: map<nat, Times>)

  /** The checked sum of some counters, or None when it does not fit 64 bits. */
  method Total(values: seq<nat>) returns (r: Option<nat>)
    ensures r == if Sum(values) <= MAX_UINT64 then Some(Sum(values)) else None
  {
    var total: nat := 0;
    for i := 0 to |values|
      invariant total == Sum(values[..i]) <= MAX_UINT64
    {
      assert values[..i + 1][..i] == values[..i];
      SumPrefix(values, i + 1);
      if MAX_UINT64 - total < values[i] {
        return None;
      }
      total := total + values[i];
    }
    assert values[..|values|] == values;
    return Some(total);
  }

  /** Every counter but iowait went forward; iowait may go back on NOHZ kernels. */
  predicate InOrder(p: Times, c: Times) {
    && p.user <= c.user && p.nice <= c.nice && p.system <= c.system && p.idle <= c.idle
    && p.irq <= c.irq && p.softirq <= c.softirq && p.steal <= c.steal
  }

  function Advance(p: nat, c: nat): nat {
    if c >= p then c - p else 0
  }

  /** How far each counter advanced, with a backward iowait counted as no advance. */
  function Deltas(p: Times, c: Times): Times {
    Times(Advance(p.user, c.user), Advance(p.nice, c.nice), Advance(p.system, c.system), Advance(p.idle, c.idle),
          Advance(p.iowait, c.iowait), Advance(p.irq, c.irq), Advance(p.softirq, c.softirq), Advance(p.steal, c.steal))
  }

  function Busy(d: Times): nat {
    d.user + d.nice + d.system + d.irq + d.softirq + d.steal
  }

  function Elapsed(d: Times): nat {
    Busy(d) + d.idle + d.iowait
  }

  /** The busy share of the time that passed, or None. */
  function UsageOf(p: Times, c: Times): Option<real> {
    var d := Deltas(p, c);
    if !InOrder(p, c) || Elapsed(d) > MAX_UINT64 || Elapsed(d) == 0 then None
    else Some(Busy(d) as real / Elapsed(d) as real)
  }

  lemma SumOfValues(t: Times)
    ensures Sum(Values(t)) == Elapsed(t)
  {
    SumOfEight(t.user, t.nice, t.system, t.idle, t.iowait, t.irq, t.softirq, t.steal);
  }

  lemma SumOfEight(a: nat, b: nat, c: nat, d: nat, e: nat, f: nat, g: nat, h: nat)
    ensures Sum([a, b, c, d, e, f, g, h]) == a + b + c + d + e + f + g + h
  {
    hide Sum;
    SumAppend([a, b, c, d, e, f, g], h);
    SumAppend([a, b, c, d, e, f], g);
    SumAppend([a, b, c, d, e], f);
    SumAppend([a, b, c, d], e);
    SumAppend([a, b, c], d);
    SumAppend([a, b], c);
    SumAppend([a], b);
    SumAppend([], a);
    assert [a, b, c, d, e, f, g, h] == [a, b, c, d, e, f, g] + [h];
    assert [a, b, c, d, e, f, g] == [a, b, c, d, e, f] + [g];
    assert [a, b, c, d, e, f] == [a, b, c, d, e] + [f];
    assert [a, b, c, d, e] == [a, b, c, d] + [e];
    assert [a, b, c, d] == [a, b, c] + [d];
    assert [a, b, c] == [a, b] + [c];
    assert [a, b] == [a] + [b] && [a] == [] + [a];
    SumEmpty();
  }

  lemma SumEmpty()
    ensures Sum([]) == 0
  {}

  method CpuUsage(previous: Times, current: Times) returns (usage: Option<real>)
    ensures usage == UsageOf(previous, current)
  {
    hide Sum;
    if !InOrder(previous, current) {
      return None;
    }
    var iowaitDelta: nat := 0;
    if current.iowait > previous.iowait {
      iowaitDelta := current.iowait - previous.iowait;
    }
    var deltas := Times(
      current.user - previous.user, current.nice - previous.nice, current.system - previous.system,
      current.idle - previous.idle, iowaitDelta, current.irq - previous.irq,
      current.softirq - previous.softirq, current.steal - previous.steal);
    SumOfValues(deltas);
    var total := Total(Values(deltas));
    if total.None? {
      return None;
    }
    var idle := deltas.idle + iowaitDelta;
    if total.value == 0 || idle > total.value {
      return None;
    }
    return Some((total.value - idle) as real / total.value as real);
  }

  /** The time that passed in each of the eight counters, a backward iowait as none: working, and not. */
  function Working(p: Times, c: Times): int {
    (c.user - p.user) + (c.nice - p.nice) + (c.system - p.system) + (c.irq - p.irq) + (c.softirq - p.softirq)
      + (c.steal - p.steal)
  }

  function Waiting(p: Times, c: Times): int {
    (c.idle - p.idle) + if c.iowait > p.iowait then c.iowait - p.iowait else 0
  }

  /**
   A usage is a share: what user, nice, system, irq, softirq and steal advanced, of that and what idle and
   iowait advanced. An iowait counter that ran back counts as one that stood still; any other makes the
   usage invalid.
   */
  lemma UsageIsShare(p: Times, c: Times)
    ensures
      var u, working, waiting := UsageOf(p, c), Working(p, c), Waiting(p, c);
      && (u.Some? <==>
            && c.user >= p.user && c.nice >= p.nice && c.system >= p.system && c.idle >= p.idle
            && c.irq >= p.irq && c.softirq >= p.softirq && c.steal >= p.steal
            && 0 < working + waiting <= MAX_UINT64)
      && (u.Some? ==> 0.0 <= u.value <= 1.0 && u.value * (working + waiting) as real == working as real)
    ensures c.iowait < p.iowait ==> UsageOf(p, c) == UsageOf(p, c.(iowait := p.iowait))
  {
    if UsageOf(p, c).Some? {
      Share(Busy(Deltas(p, c)), Elapsed(Deltas(p, c)));
    }
  }

  /** Time that goes to idle or iowait alone never raises the usage. */
  lemma WaitingNeverRaises(p: Times, c: Times, idle: nat, iowait: nat)
    ensures
      var more := UsageOf(p, c.(idle := c.idle + idle, iowait := c.iowait + iowait));
      UsageOf(p, c).Some? && more.Some? ==> more.value <= UsageOf(p, c).value
  {
    hide *;
    var d := c.(idle := c.idle + idle, iowait := c.iowait + iowait);
    if UsageOf(p, c).Some? && UsageOf(p, d).Some? {
      SameWork(p, c, d);
      ShareOfUsage(p, c);
      ShareOfUsage(p, d);
      LargerWhole(UsageOf(p, c).value, UsageOf(p, d).value, Working(p, c), Working(p, c) + Waiting(p, c),
                  Working(p, d) + Waiting(p, d));
    }
  }

  lemma SameWork(p: Times, c: Times, d: Times)
    requires d == c.(idle := d.idle, iowait := d.iowait) && d.idle >= c.idle && d.iowait >= c.iowait
    ensures Working(p, d) == Working(p, c) && Waiting(p, d) >= Waiting(p, c)
  {}

  lemma ShareOfUsage(p: Times, c: Times)
    requires UsageOf(p, c).Some?
    ensures
      var u, working, waiting := UsageOf(p, c), Working(p, c), Waiting(p, c);
      working >= 0 && working + waiting > 0 && u.value * (working + waiting) as real == working as real
  {
    UsageIsShare(p, c);
    hide UsageOf;
  }

  /** The usage computed against a baseline, if there is one to compute it from. */
  function UsageSince(base: Option<Times>, current: Times): Option<real> {
    if base.Some? then UsageOf(base.value, current) else None
  }

  /**
   After any samples a core's usage is that since the latest sample, while it was present in every one from there
   on; and it has none otherwise.
   */
  lemma UsageSinceLatest(h: seq<Observation<nat, Times>>, j: int, id: nat, current: Times, at: int)
    requires IsLatest(h, j)
    ensures UsageSince(BaseFor(Kept(h), id, at), current) ==
            if at > h[j].at && PresentSince(h, j, id) then UsageOf(h[j].seen[id], current) else None
  {
    hide UsageOf;
    RateBase(h, j, id, at);
  }

  class CPUSampler {
    var previous: Option<CpuState>

    /** The cores' baseline. */
    function Cores(): Baseline<nat, Times>
      reads this
    {
      if previous == None then Unset else Set(previous.value.at, previous.value.cores)
    }

    /** The aggregate's baseline, as that of a single key that is always present. */
    function Aggregate(): Baseline<(), Times>
      reads this
    {
      if previous == None then Unset else Set(previous.value.at, map[() := previous.value.aggregate])
    }

    constructor ()
      ensures Cores() == Unset && Aggregate() == Unset
    {
      previous := None;
    }

    function PreviousCore(id: nat): Option<Times>
      reads this
    {
      if previous.Some? && id in previous.value.cores then Some(previous.value.cores[id]) else None
    }

    /** The aggregate usage and the usage of each core of the sample. */
    method SampleCPU(parsed: Parsed, at: int) returns (usage: Option<real>, cores: map<nat, Option<real>>)
      modifies this
      ensures Cores() == Observe(old(Cores()), Observation(at, parsed.cores))
      ensures Aggregate() == Observe(old(Aggregate()), Observation(at, map[() := parsed.aggregate]))
      ensures usage == UsageSince(BaseFor(old(Aggregate()), (), at), parsed.aggregate)
      ensures cores.Keys == parsed.cores.Keys
      ensures forall id | id in parsed.cores :: cores[id] == UsageSince(BaseFor(old(Cores()), id, at), parsed.cores[id])
    {
      hide UsageOf;
      var positiveElapsed := previous.Some? && at - previous.value.at > 0;
      usage, cores := None, map[];
      if positiveElapsed {
        usage := CpuUsage(previous.value.aggregate, parsed.aggregate);
      }
      label Walk:
      var todo := parsed.cores.Keys;
      while todo != {}
        invariant unchanged@Walk(this) && todo <= parsed.cores.Keys && cores.Keys == parsed.cores.Keys - todo
        invariant forall id | id in cores :: cores[id] == UsageSince(BaseFor(Cores(), id, at), parsed.cores[id])
        decreases todo
      {
        var id :| id in todo;
        todo := todo - {id};
        var core: Option<real> := None;
        var base := PreviousCore(id);
        if base.Some? && positiveElapsed {
          core := CpuUsage(base.value, parsed.cores[id]);
        }
        cores := cores[id := core];
      }
      if previous == None || positiveElapsed {
        previous := Some(CpuState(at, parsed.aggregate, parsed.cores));
      } else {
        var kept := Restrict(previous.value.cores, parsed.cores.Keys);
        previous := Some(previous.value.(cores := kept));
      }
    }
  }
}
