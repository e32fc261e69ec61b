/**
 The i915 part of GPUSampler (gpu_linux.go): engine state per GPU address, usage per sample, and the
 ownership of every open counter.
 */
module PmuSampler {
  import opened Wrappers
  import opened Ledger
  import opened PmuEngine
  import opened Quotients

  type Address = string
  type Engines = map<Address, seq<Engine>>

  /** One i915 GPU of a sample: the busy events of its PMU, or None when no PMU was mapped to it. */
  datatype Found = Found(bdf: Address, events: Option<nat>, turns: nat -> Turn)

  // ----- one GPU

  /** The first n engines of a GPU after their turns. */
  datatype Progress = Progress(engines: seq<Engine>, next: nat, events: seq<Event>, fractions: seq<Option<real>>)

  function TakeTurns(engines: seq<Engine>, turns: nat -> Turn, next: nat, n: nat): (p: Progress)
    requires n <= |engines|
    ensures |p.engines| == |engines| && |p.fractions| == n
    ensures forall i | n <= i < |engines| :: p.engines[i] == engines[i]
  {
    if n == 0 then Progress(engines, next, [], [])
    else
      var p := TakeTurns(engines, turns, next, n - 1);
      var out := TakeTurn(engines[n - 1], turns(n - 1), p.next);
      Progress(p.engines[n - 1 := out.engine], p.next + out.births, p.events + out.events, p.fractions + [out.fraction])
  }

  /** A GPU's usage is the largest fraction of its engines, when there are engines and each has one. */
  ghost predicate IsUsage(fractions: seq<Option<real>>, usage: Option<real>) {
    if fractions == [] || exists i | 0 <= i < |fractions| :: fractions[i] == None then usage == None
    else
      && usage.Some?
      && (exists i | 0 <= i < |fractions| :: fractions[i] == usage)
      && (forall i | 0 <= i < |fractions| :: fractions[i].value <= usage.value)
  }

  function Valued(fractions: seq<real>): seq<Option<real>> {
    seq(|fractions|, i requires 0 <= i < |fractions| => Some(fractions[i]))
  }

  lemma ValuedNext(fractions: seq<real>, x: real)
    ensures Valued(fractions + [x]) == Valued(fractions) + [Some(x)]
  {}

  lemma ValuedNone()
    ensures Valued([]) == []
  {}

  lemma LargestIsUsage(fractions: seq<real>, maximum: real)
    requires fractions != [] && maximum in fractions && forall i | 0 <= i < |fractions| :: fractions[i] <= maximum
    ensures IsUsage(Valued(fractions), Some(maximum))
  {
    var all := Valued(fractions);
    var i :| 0 <= i < |fractions| && fractions[i] == maximum;
    assert all[i] == Some(maximum);
  }

  lemma MissingIsNoUsage(all: seq<Option<real>>)
    requires all == [] || None in all
    ensures IsUsage(all, None)
  {}

  method MaxBusyFraction(fractions: seq<real>) returns (maximum: real)
    requires forall i | 0 <= i < |fractions| :: fractions[i] >= 0.0
    ensures forall i | 0 <= i < |fractions| :: fractions[i] <= maximum
    ensures if fractions == [] then maximum == 0.0 else maximum in fractions
  {
    maximum := 0.0;
    for i := 0 to |fractions|
      invariant maximum >= 0.0 && forall k | 0 <= k < i :: fractions[k] <= maximum
      invariant if i == 0 then maximum == 0.0 else maximum in fractions[..i]
    {
      if fractions[i] > maximum {
        maximum := fractions[i];
      }
    }
    assert fractions[..|fractions|] == fractions;
  }

  // ----- ownership

  /** Some engine of the GPU at k holds the counter. */
  ghost predicate Holds(st: Engines, k: Address, i: int, id: nat) {
    k in st && 0 <= i < |st[k]| && st[k][i].counter == Some(id)
  }

  ghost predicate Held(st: Engines, id: nat) {
    exists k, i :: Holds(st, k, i, id)
  }

  /**
   The log is accepted, its open counters are exactly the counters the engines hold, no two engines
   hold the same one, and descriptors are numbered below next.
   */
  ghost predicate BooksHold(log: seq<Event>, st: Engines, next: nat) {
    && Audit(log).Some?
    && (forall id: nat :: id in Audit(log).value.live <==> Held(st, id))
    && (forall id: nat :: id in Audit(log).value.ever ==> id < next)
    && (forall k, i, l, j, id: nat :: Holds(st, k, i, id) && Holds(st, l, j, id) ==> k == l && i == j)
  }

  function SetEngine(st: Engines, k: Address, i: nat, e: Engine): Engines
    requires k in st && i < |st[k]|
  {
    st[k := st[k][i := e]]
  }

  lemma HoldsAfter(st: Engines, k: Address, i: nat, e: Engine)
    requires k in st && i < |st[k]|
    ensures forall l, j, id: nat :: Holds(SetEngine(st, k, i, e), l, j, id) <==>
                               if l == k && j == i then e.counter == Some(id) else Holds(st, l, j, id)
  {}

  /** An engine whose counter stays changes no ownership. */
  lemma SameCounterKeepsBooks(log: seq<Event>, st: Engines, next: nat, k: Address, i: nat, e: Engine)
    requires BooksHold(log, st, next) && k in st && i < |st[k]| && e.counter == st[k][i].counter
    ensures BooksHold(log, SetEngine(st, k, i, e), next)
  {
    hide Audit;
    var st' := SetEngine(st, k, i, e);
    HoldsAfter(st, k, i, e);
    assert forall l, j, id: nat :: Holds(st', l, j, id) <==> Holds(st, l, j, id);
    forall id: nat ensures Held(st', id) <==> Held(st, id) {
      if Held(st, id) {
        var l, j :| Holds(st, l, j, id);
        assert Holds(st', l, j, id);
      }
    }
  }

  lemma UseKeepsBooks(log: seq<Event>, st: Engines, next: nat, k: Address, i: nat, id: nat)
    requires BooksHold(log, st, next) && Holds(st, k, i, id)
    ensures BooksHold(log + [Used(id)], st, next)
  {
    AuditNext(log, Used(id));
    assert Held(st, id);
  }

  lemma OpenKeepsBooks(log: seq<Event>, st: Engines, next: nat, k: Address, i: nat, e: Engine)
    requires BooksHold(log, st, next) && k in st && i < |st[k]| && st[k][i].counter == None && e.counter == Some(next)
    ensures BooksHold(log + [Opened(next)], SetEngine(st, k, i, e), next + 1)
  {
    AuditNext(log, Opened(next));
    AuditOrigin(log);
    hide Audit;
    var st' := SetEngine(st, k, i, e);
    HoldsAfter(st, k, i, e);
    assert next !in Audit(log).value.live && !Held(st, next);
    assert Holds(st', k, i, next);
    forall id: nat ensures Held(st', id) <==> Held(st, id) || id == next {
      if Held(st, id) {
        var l, j :| Holds(st, l, j, id);
        assert Holds(st', l, j, id);
      }
    }
  }

  lemma CloseKeepsBooks(log: seq<Event>, st: Engines, next: nat, k: Address, i: nat, id: nat)
    requires BooksHold(log, st, next) && Holds(st, k, i, id)
    ensures BooksHold(log + [Closed(id)], SetEngine(st, k, i, st[k][i].(counter := None)), next)
  {
    AuditNext(log, Closed(id));
    hide Audit;
    var st' := SetEngine(st, k, i, st[k][i].(counter := None));
    HoldsAfter(st, k, i, st[k][i].(counter := None));
    assert Held(st, id);
    forall x: nat ensures Held(st', x) <==> Held(st, x) && x != id {
      if Held(st, x) && x != id {
        var l, j :| Holds(st, l, j, x);
        assert Holds(st', l, j, x);
      }
    }
  }

  /** Whatever one engine does in its turn, the books still hold. */
  lemma TurnKeepsBooks(log: seq<Event>, st: Engines, next: nat, k: Address, i: nat, t: Turn)
    requires BooksHold(log, st, next) && k in st && i < |st[k]|
    ensures
      var out := TakeTurn(st[k][i], t, next);
      BooksHold(log + out.events, SetEngine(st, k, i, out.engine), next + out.births)
  {
    hide BooksHold;
    var e := st[k][i];
    var out := TakeTurn(e, t, next);
    if out.events == [] {
      SameCounterKeepsBooks(log, st, next, k, i, out.engine);
      assert log + [] == log;
    } else if e.counter.Some? {
      UseKeepsBooks(log, st, next, k, i, e.counter.value);
      SameCounterKeepsBooks(log + out.events, st, next, k, i, out.engine);
    } else {
      OpenKeepsBooks(log, st, next, k, i, out.engine);
      UseKeepsBooks(log + [Opened(next)], SetEngine(st, k, i, out.engine), next + 1, k, i, next);
      assert log + out.events == log + [Opened(next)] + [Used(next)];
    }
  }

  /** A GPU whose engines hold nothing can come or go without a trace in the books. */
  lemma IdleKeepsBooks(log: seq<Event>, st: Engines, st': Engines, next: nat, k: Address)
    requires BooksHold(log, st, next)
    requires st' - {k} == st - {k}
    requires k in st ==> forall e <- st[k] :: e.counter == None
    requires k in st' ==> forall e <- st'[k] :: e.counter == None
    ensures BooksHold(log, st', next)
  {
    hide Audit;
    assert forall l :: l != k ==> (l in st <==> l in st - {k}) && (l in st' <==> l in st' - {k});
    assert forall l :: l != k && l in st ==> st[l] == (st - {k})[l] == (st' - {k})[l] == st'[l];
    assert forall l, j, id: nat :: Holds(st', l, j, id) <==> Holds(st, l, j, id);
    forall id: nat ensures Held(st', id) <==> Held(st, id) {
      if Held(st, id) {
        var l, j :| Holds(st, l, j, id);
        assert Holds(st', l, j, id);
      }
    }
  }

  /** With the books in order, the counters opened and never closed are those an engine holds. */
  lemma OpenCountersAreHeld(log: seq<Event>, st: Engines, next: nat)
    requires BooksHold(log, st, next)
    ensures forall id: nat :: (Opened(id) in log && Closed(id) !in log) <==> Held(st, id)
  {
    AuditLive(log);
  }

  // ----- the sampler

  function FreshEngines(n: nat): seq<Engine> {
    seq(n, _ => CLOSED_ENGINE)
  }

  /** The state a found GPU is sampled in: its own, or fresh engines for its events. */
  function Entered(st: Engines, f: Found): seq<Engine>
    requires f.events.Some?
  {
    if f.bdf in st then st[f.bdf] else FreshEngines(f.events.value)
  }

  datatype Sampled = Sampled(engines: Engines, next: nat, fractions: seq<seq<Option<real>>>)

  /** The state after sampling the first n found GPUs, with the engine fractions of each. */
  function SampleFound(st: Engines, next: nat, found: seq<Found>, n: nat): (s: Sampled)
    requires n <= |found|
    ensures |s.fractions| == n
  {
    if n == 0 then Sampled(st, next, [])
    else
      var s, f := SampleFound(st, next, found, n - 1), found[n - 1];
      if f.events.None? then Sampled(s.engines, s.next, s.fractions + [[]])
      else
        var entered := Entered(s.engines, f);
        var p := TakeTurns(entered, f.turns, s.next, |entered|);
        Sampled(s.engines[f.bdf := p.engines], p.next, s.fractions + [p.fractions])
  }

  /** The addresses of the GPUs that have a PMU. */
  function Present(found: seq<Found>, n: nat): set<Address>
    requires n <= |found|
  {
    set i | 0 <= i < n && found[i].events.Some? :: found[i].bdf
  }

  class IntelSampler {
    var engines: Engines
    var next: nat
    ghost var log: seq<Event>

    /** The books of the whole run hold. */
    ghost predicate Valid()
      reads this
    {
      BooksHold(log, engines, next)
    }

    constructor ()
      ensures Valid() && engines == map[] && log == []
    {
      engines, next, log := map[], 0, [];
    }

    /** Reads every engine of one GPU; any engine without a fraction leaves the GPU without usage. */
    method SampleGPU(k: Address, turns: nat -> Turn) returns (usage: Option<real>)
      requires Valid() && k in engines
      modifies this
      ensures Valid() && old(log) <= log
      ensures
        var p := TakeTurns(old(engines)[k], turns, old(next), |old(engines)[k]|);
        engines == old(engines)[k := p.engines] && next == p.next && IsUsage(p.fractions, usage)
    {
      hide BooksHold, TakeTurn, IsUsage, Valued;
      ghost var before, first := engines, next;
      MissingIsNoUsage([]);
      ValuedNone();
      var n := |engines[k]|;
      if n == 0 {
        return None;
      }
      var valid, fractions := true, [];
      ghost var all: seq<Option<real>> := [];
      for i := 0 to n
        invariant Valid() && old(log) <= log
        invariant engines == before[k := TakeTurns(before[k], turns, first, i).engines]
        invariant next == TakeTurns(before[k], turns, first, i).next
        invariant all == TakeTurns(before[k], turns, first, i).fractions
        invariant if valid then all == Valued(fractions) else None in all
        invariant forall j | 0 <= j < |fractions| :: fractions[j] >= 0.0
      {
        var out := TakeTurn(engines[k][i], turns(i), next);
        TurnKeepsBooks(log, engines, next, k, i, turns(i));
        FractionNotNegative(engines[k][i], turns(i), next);
        engines := engines[k := engines[k][i := out.engine]];
        next := next + out.births;
        log := log + out.events;
        all := all + [out.fraction];
        if out.fraction.Some? {
          ValuedNext(fractions, out.fraction.value);
          fractions := fractions + [out.fraction.value];
        } else {
          valid := false;
        }
      }
      usage := None;
      if valid {
        var maximum := MaxBusyFraction(fractions);
        LargestIsUsage(fractions, maximum);
        usage := Some(maximum);
      } else {
        MissingIsNoUsage(all);
      }
    }

    /** Closes every counter of one GPU. */
    method CloseCounters(k: Address)
      requires Valid() && k in engines
      modifies this`engines, this`log
      ensures Valid() && old(log) <= log
      ensures engines.Keys == old(engines).Keys && engines - {k} == old(engines) - {k}
      ensures forall e <- engines[k] :: e.counter == None
    {
      hide BooksHold;
      ghost var before := engines;
      for i := 0 to |engines[k]|
        invariant Valid() && old(log) <= log && k in engines && |engines[k]| == |before[k]|
        invariant engines.Keys == before.Keys && engines - {k} == before - {k}
        invariant forall j | 0 <= j < i :: engines[k][j].counter == None
      {
        var e := engines[k][i];
        if e.counter.Some? {
          CloseKeepsBooks(log, engines, next, k, i, e.counter.value);
          log := log + [Closed(e.counter.value)];
          engines := engines[k := engines[k][i := e.(counter := None)]];
        }
      }
    }

    /** Closes and drops the GPUs that are not in keep, in any order. */
    method Drop(keep: set<Address>)
      requires Valid()
      modifies this`engines, this`log
      ensures Valid() && old(log) <= log
      ensures engines == map k | k in old(engines) && k in keep :: old(engines)[k]
    {
      hide BooksHold;
      var gone := engines.Keys - keep;
      ghost var before := engines;
      while gone != {}
        invariant Valid() && old(log) <= log
        invariant gone <= engines.Keys && gone !! keep
        invariant engines.Keys == (before.Keys * keep) + gone
        invariant forall k | k in engines :: engines[k] == before[k]
        decreases gone
      {
        var k :| k in gone;
        ghost var start := engines;
        CloseCounters(k);
        IdleKeepsBooks(log, engines, engines - {k}, next, k);
        engines := engines - {k};
        gone := gone - {k};
        assert engines == start - {k};
      }
    }

    /**
     Samples the i915 GPUs of one snapshot and closes those that vanished. A GPU that stays keeps its
     baselines, one that is new or back starts from fresh ones.
     */
    method ApplyIntelPMU(found: seq<Found>) returns (usages: seq<Option<real>>)
      requires Valid()
      modifies this
      ensures Valid() && old(log) <= log
      ensures
        var s := SampleFound(old(engines), old(next), found, |found|);
        && engines == (map k | k in s.engines && k in Present(found, |found|) :: s.engines[k])
        && next == s.next && |usages| == |found|
        && forall i | 0 <= i < |found| :: IsUsage(s.fractions[i], usages[i])
    {
      hide BooksHold, TakeTurns;
      usages := [];
      ghost var before, first := engines, next;
      var present: set<Address> := {};
      for i := 0 to |found|
        invariant Valid() && old(log) <= log
        invariant var s := SampleFound(before, first, found, i);
                  engines == s.engines && next == s.next && |usages| == i
                  && forall j | 0 <= j < i :: IsUsage(s.fractions[j], usages[j])
        invariant present == Present(found, i)
      {
        var f := found[i];
        var usage: Option<real> := None;
        if f.events.Some? {
          present := present + {f.bdf};
          if f.bdf !in engines {
            IdleKeepsBooks(log, engines, engines[f.bdf := FreshEngines(f.events.value)], next, f.bdf);
            engines := engines[f.bdf := FreshEngines(f.events.value)];
          }
          usage := SampleGPU(f.bdf, f.turns);
        }
        usages := usages + [usage];
      }
      Drop(present);
    }

    /** Closes every counter; the books show none open. */
    method Close()
      requires Valid()
      modifies this`engines, this`log
      ensures Valid() && old(log) <= log && engines == map[]
      ensures Audit(log).value.live == {}
    {
      Drop({});
      assert forall k :: k !in engines;
      assert forall id: nat :: !Held(engines, id);
    }
  }

  lemma FractionNotNegative(e: Engine, t: Turn, next: nat)
    ensures var f := TakeTurn(e, t, next).fraction; f.Some? ==> 0.0 <= f.value <= 1.0
  {}

  // ----- one GPU over a run of samples

  /** One sample of a GPU: the turns of its engines and the next descriptor number. */
  datatype Sampling = Sampling(turns: nat -> Turn, next: nat)

  /** The engines of a GPU with n busy events after some samples. */
  function GpuAfter(n: nat, samples: seq<Sampling>): (es: seq<Engine>)
    ensures |es| == n
  {
    if samples == [] then FreshEngines(n)
    else
      var last := samples[|samples| - 1];
      TakeTurns(GpuAfter(n, samples[..|samples| - 1]), last.turns, last.next, n).engines
  }

  /** The engine fractions of the last sample. */
  function LastFractions(n: nat, samples: seq<Sampling>): (fs: seq<Option<real>>)
    requires samples != []
    ensures |fs| == n
  {
    var last := samples[|samples| - 1];
    TakeTurns(GpuAfter(n, samples[..|samples| - 1]), last.turns, last.next, n).fractions
  }

  /** Engine i's part in each sample. */
  function StepsOf(n: nat, samples: seq<Sampling>, i: nat): (steps: seq<Step>)
    requires i < n
    ensures |steps| == |samples|
  {
    if samples == [] then []
    else
      var rest, last := samples[..|samples| - 1], samples[|samples| - 1];
      StepsOf(n, rest, i) + [(last.turns(i), TakeTurns(GpuAfter(n, rest), last.turns, last.next, i).next)]
  }

  lemma {:induction false} TurnOf(engines: seq<Engine>, turns: nat -> Turn, next: nat, n: nat, i: nat)
    requires i < n <= |engines|
    ensures
      var out := TakeTurn(engines[i], turns(i), TakeTurns(engines, turns, next, i).next);
      var p := TakeTurns(engines, turns, next, n);
      p.engines[i] == out.engine && p.fractions[i] == out.fraction
  {
    hide TakeTurn;
    if i < n - 1 {
      TurnOf(engines, turns, next, n - 1, i);
    }
  }

  /** Each engine of a GPU goes through its own run, whatever the others do. */
  lemma {:induction false} EnginesAreIndependent(n: nat, samples: seq<Sampling>, i: nat)
    requires i < n
    ensures GpuAfter(n, samples)[i] == EngineAfter(StepsOf(n, samples, i))
    ensures samples != [] ==> LastFractions(n, samples)[i] == LastOutcome(StepsOf(n, samples, i)).fraction
  {
    if samples != [] {
      var rest, last := samples[..|samples| - 1], samples[|samples| - 1];
      var steps, before := StepsOf(n, samples, i), StepsOf(n, rest, i);
      EnginesAreIndependent(n, rest, i);
      TurnOf(GpuAfter(n, rest), last.turns, last.next, n, i);
      assert steps[..|steps| - 1] == before;
      hide TakeTurn, TakeTurns, GpuAfter;
    }
  }

  /** Engine i was read in the last sample and in the one just before, and the readings fit. */
  predicate EngineFits(n: nat, samples: seq<Sampling>, i: nat)
    requires i < n
  {
    samples != [] && FitIn(StepsOf(n, samples, i), |samples| - 1)
  }

  /** The engine's advance between those readings, and the time between them. */
  function EngineAdvance(n: nat, samples: seq<Sampling>, i: nat): nat
    requires i < n && EngineFits(n, samples, i)
  {
    AdvanceIn(StepsOf(n, samples, i), |samples| - 1)
  }

  function EngineElapsed(n: nat, samples: seq<Sampling>, i: nat): nat
    requires i < n && EngineFits(n, samples, i)
  {
    ElapsedIn(StepsOf(n, samples, i), |samples| - 1)
  }

  lemma FractionIffFits(n: nat, samples: seq<Sampling>, i: nat)
    requires samples != [] && i < n
    ensures
      var f := LastFractions(n, samples)[i];
      && (f.Some? <==> EngineFits(n, samples, i))
      && (f.Some? ==>
            && 0.0 <= f.value <= 1.0 && EngineElapsed(n, samples, i) > 0
            && f.value * EngineElapsed(n, samples, i) as real == EngineAdvance(n, samples, i) as real)
  {
    hide LastOutcome, TakeTurns;
    var steps, last := StepsOf(n, samples, i), |samples| - 1;
    EnginesAreIndependent(n, samples, i);
    assert steps[..last + 1] == steps;
    UsageComesFromTwoReadings(steps, last);
  }

  /** x is the share of engine i, and the share of engine i is at most x. */
  predicate IsShareOf(x: real, n: nat, samples: seq<Sampling>, i: nat)
    requires i < n && EngineFits(n, samples, i)
  {
    x * EngineElapsed(n, samples, i) as real == EngineAdvance(n, samples, i) as real
  }

  predicate CoversShareOf(x: real, n: nat, samples: seq<Sampling>, i: nat)
    requires i < n && EngineFits(n, samples, i)
  {
    x * EngineElapsed(n, samples, i) as real >= EngineAdvance(n, samples, i) as real
  }

  /**
   A GPU has a usage exactly when it has engines and every one of them was read in this sample and in
   the one just before, with readings that fit; the usage is then the largest of the engines' shares of
   the time between their readings, within 0 and 1. One engine that was not read, ran back or jumped leaves
   the GPU without usage.
   */
  lemma GpuUsageIsSound(n: nat, samples: seq<Sampling>, usage: Option<real>)
    requires samples != [] && IsUsage(LastFractions(n, samples), usage)
    ensures usage.Some? <==> n > 0 && forall i | 0 <= i < n :: EngineFits(n, samples, i)
    ensures usage.Some? ==>
              && 0.0 <= usage.value <= 1.0
              && (exists i | 0 <= i < n :: IsShareOf(usage.value, n, samples, i))
              && (forall i | 0 <= i < n :: CoversShareOf(usage.value, n, samples, i))
  {
    hide EngineFits, LastFractions, EngineElapsed, EngineAdvance, IsShareOf, CoversShareOf;
    forall i | 0 <= i < n
      ensures LastFractions(n, samples)[i].Some? <==> EngineFits(n, samples, i)
      ensures var f := LastFractions(n, samples)[i]; f.Some? ==> 0.0 <= f.value <= 1.0
    {
      FractionIffFits(n, samples, i);
    }
    if usage.Some? {
      forall i | 0 <= i < n
        ensures CoversShareOf(usage.value, n, samples, i)
        ensures LastFractions(n, samples)[i] == usage ==> IsShareOf(usage.value, n, samples, i)
      {
        ShareCovered(n, samples, i, usage.value);
      }
    }
  }

  lemma ShareCovered(n: nat, samples: seq<Sampling>, i: nat, usage: real)
    requires samples != [] && i < n && EngineFits(n, samples, i)
    requires var f := LastFractions(n, samples)[i]; f.Some? ==> f.value <= usage
    ensures CoversShareOf(usage, n, samples, i)
    ensures LastFractions(n, samples)[i] == Some(usage) ==> IsShareOf(usage, n, samples, i)
  {
    FractionIffFits(n, samples, i);
    hide EngineFits, LastFractions, EngineElapsed, EngineAdvance;
    TimesMonotone(LastFractions(n, samples)[i].value, usage, EngineElapsed(n, samples, i) as real);
  }

  // ----- a GPU whose counters can all be opened and read

  /** The environment opens and reads engine i in every sample. */
  predicate Healthy(samples: seq<Sampling>, i: nat) {
    forall k | 0 <= k < |samples| :: var t := samples[k].turns(i); t.open == NoError && t.read.Some?
  }

  /** The values read of engine i in the last two samples are in order. */
  predicate ValuesFit(samples: seq<Sampling>, i: nat)
    requires |samples| >= 2 && Healthy(samples, i)
  {
    var s, t := samples[|samples| - 2].turns(i), samples[|samples| - 1].turns(i);
    s.readAt < t.readAt && s.read.value <= t.read.value <= s.read.value + (t.readAt - s.readAt)
  }

  lemma {:induction false} TurnsOfSteps(n: nat, samples: seq<Sampling>, i: nat, k: nat)
    requires i < n && k < |samples|
    ensures StepsOf(n, samples, i)[k].0 == samples[k].turns(i)
  {
    hide TakeTurns, GpuAfter;
    if k < |samples| - 1 {
      TurnsOfSteps(n, samples[..|samples| - 1], i, k);
    }
  }

  lemma HealthyEngineFits(n: nat, samples: seq<Sampling>, i: nat)
    requires i < n && |samples| >= 2 && Healthy(samples, i)
    ensures EngineFits(n, samples, i) <==> ValuesFit(samples, i)
    ensures ValuesFit(samples, i) ==>
              var s, t := samples[|samples| - 2].turns(i), samples[|samples| - 1].turns(i);
              && EngineAdvance(n, samples, i) == t.read.value - s.read.value
              && EngineElapsed(n, samples, i) == t.readAt - s.readAt
  {
    var steps, last := StepsOf(n, samples, i), |samples| - 1;
    hide StepsOf, ReadIn;
    forall k | 0 <= k < |samples|
      ensures steps[k].0 == samples[k].turns(i)
    {
      TurnsOfSteps(n, samples, i, k);
    }
    AllIsRead(steps, last - 1);
    AllIsRead(steps, last);
  }

  /**
   With every open and read succeeding and the values in order, a GPU has a usage in every sample from its
   second on: the largest advance of its counters over the time between the last two reads of each.
   */
  lemma HealthyGpuHasUsage(n: nat, samples: seq<Sampling>, usage: Option<real>)
    requires n > 0 && |samples| >= 2 && IsUsage(LastFractions(n, samples), usage)
    requires forall i | 0 <= i < n :: Healthy(samples, i)
    ensures usage.Some? <==> forall i | 0 <= i < n :: ValuesFit(samples, i)
    ensures usage.Some? ==>
              && (exists i | 0 <= i < n :: IsRatio(usage.value, samples, i))
              && (forall i | 0 <= i < n :: AtLeastRatio(usage.value, samples, i))
  {
    hide Healthy, ValuesFit, EngineFits, LastFractions, IsUsage, EngineAdvance, EngineElapsed;
    GpuUsageIsSound(n, samples, usage);
    forall i | 0 <= i < n
      ensures EngineFits(n, samples, i) <==> ValuesFit(samples, i)
      ensures ValuesFit(samples, i) && usage.Some? ==>
                && (IsShareOf(usage.value, n, samples, i) <==> IsRatio(usage.value, samples, i))
                && (CoversShareOf(usage.value, n, samples, i) <==> AtLeastRatio(usage.value, samples, i))
    {
      HealthyEngineFits(n, samples, i);
    }
  }

  /** x is the advance of engine i's counter over the time between its last two reads, or at least that. */
  predicate IsRatio(x: real, samples: seq<Sampling>, i: nat)
    requires |samples| >= 2 && Healthy(samples, i) && ValuesFit(samples, i)
  {
    var s, t := samples[|samples| - 2].turns(i), samples[|samples| - 1].turns(i);
    x * (t.readAt - s.readAt) as real == (t.read.value - s.read.value) as real
  }

  predicate AtLeastRatio(x: real, samples: seq<Sampling>, i: nat)
    requires |samples| >= 2 && Healthy(samples, i) && ValuesFit(samples, i)
  {
    var s, t := samples[|samples| - 2].turns(i), samples[|samples| - 1].turns(i);
    x * (t.readAt - s.readAt) as real >= (t.read.value - s.read.value) as real
  }
}
