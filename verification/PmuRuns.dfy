/**
 The i915 sampler over whole runs of samples and closes, with GPUs coming and going: every GPU's state is
 the run of that GPU alone since it last appeared, and so is its usage.
 */
module PmuRuns {
  import opened Wrappers
  import opened PmuEngine
  import opened PmuSampler

  datatype Op = Sample(found: seq<Found>) | Close

  /** The engines of every GPU, and the number of the next descriptor. */
  datatype State = State(engines: Engines, next: nat)

  /** What ApplyIntelPMU and Close do to the sampler's fields. */
  function Run(ops: seq<Op>): State {
    if ops == [] then State(map[], 0)
    else
      var was := Run(ops[..|ops| - 1]);
      match ops[|ops| - 1]
      case Close => State(map[], was.next)
      case Sample(found) =>
        var s := SampleFound(was.engines, was.next, found, |found|);
        State(map k | k in s.engines && k in Present(found, |found|) :: s.engines[k], s.next)
  }

  /** One GPU since it last appeared: its number of busy events, and its samples. */
  datatype Life = Life(events: nat, samples: seq<Sampling>)

  /** The life of the GPU at k after a run, if it is there. */
  function LifeOf(k: Address, ops: seq<Op>): Option<Life>
    decreases |ops|, 0
  {
    if ops == [] then None
    else
      match ops[|ops| - 1]
      case Close => None
      case Sample(found) =>
        if exists i | 0 <= i < |found| :: found[i].bdf == k && found[i].events.Some?
        then LifeDuring(k, ops[..|ops| - 1], found, |found|) else None
  }

  /** The same in the middle of a sample, after the first n GPUs found. A GPU that was not there starts anew. */
  function LifeDuring(k: Address, ops: seq<Op>, found: seq<Found>, n: nat): Option<Life>
    requires n <= |found|
    decreases |ops|, 1, n
  {
    if n == 0 then LifeOf(k, ops)
    else
      var before, f := LifeDuring(k, ops, found, n - 1), found[n - 1];
      if f.bdf != k || f.events.None? then before
      else
        var life := if before.Some? then before.value else Life(f.events.value, []);
        var now := Sampling(f.turns, SampleFound(Run(ops).engines, Run(ops).next, found, n - 1).next);
        Some(life.(samples := life.samples + [now]))
  }

  /** The engines are those of the GPU's life. */
  ghost predicate Lives(engines: Engines, k: Address, life: Option<Life>) {
    && (k in engines <==> life.Some?)
    && (life.Some? ==> engines[k] == GpuAfter(life.value.events, life.value.samples) && life.value.samples != [])
  }

  lemma SampledNext(es: seq<Engine>, n: nat, samples: seq<Sampling>, s: Sampling)
    requires es == GpuAfter(n, samples)
    ensures
      var p := TakeTurns(es, s.turns, s.next, |es|);
      GpuAfter(n, samples + [s]) == p.engines && LastFractions(n, samples + [s]) == p.fractions
  {
    assert (samples + [s])[..|samples|] == samples;
  }

  /** The next GPU found goes through one more sample of its life; the others are left alone. */
  lemma LivesNext(k: Address, ops: seq<Op>, found: seq<Found>, n: nat)
    requires 0 < n <= |found|
    requires
      Lives(SampleFound(Run(ops).engines, Run(ops).next, found, n - 1).engines, k, LifeDuring(k, ops, found, n - 1))
    ensures
      var s := SampleFound(Run(ops).engines, Run(ops).next, found, n);
      && Lives(s.engines, k, LifeDuring(k, ops, found, n))
      && (found[n - 1].bdf == k && found[n - 1].events.Some? ==>
            var life := LifeDuring(k, ops, found, n).value;
            s.fractions[n - 1] == LastFractions(life.events, life.samples))
  {
    hide TakeTurns, GpuAfter, LastFractions, Run, LifeOf, FreshEngines;
    var was := SampleFound(Run(ops).engines, Run(ops).next, found, n - 1);
    var f := found[n - 1];
    if f.bdf == k && f.events.Some? {
      var before := LifeDuring(k, ops, found, n - 1);
      var life := if before.Some? then before.value else Life(f.events.value, []);
      FreshGpu(f.events.value);
      SampledNext(Entered(was.engines, f), life.events, life.samples, Sampling(f.turns, was.next));
    }
  }

  lemma FreshGpu(n: nat)
    ensures GpuAfter(n, []) == FreshEngines(n)
  {}

  /** In every reachable state, and in the middle of every sample, the sampler holds every GPU's own life. */
  lemma {:induction false} SamplerHoldsLives(k: Address, ops: seq<Op>)
    ensures Lives(Run(ops).engines, k, LifeOf(k, ops))
    decreases |ops|, 0
  {
    if ops != [] && ops[|ops| - 1].Sample? {
      hide Lives;
      var before, found := ops[..|ops| - 1], ops[|ops| - 1].found;
      SamplerHoldsLivesDuring(k, before, found, |found|);
      Restricted(k, ops);
    }
  }

  lemma Restricted(k: Address, ops: seq<Op>)
    requires ops != [] && ops[|ops| - 1].Sample?
    requires
      var before, found := ops[..|ops| - 1], ops[|ops| - 1].found;
      Lives(SampleFound(Run(before).engines, Run(before).next, found, |found|).engines, k,
            LifeDuring(k, before, found, |found|))
    ensures Lives(Run(ops).engines, k, LifeOf(k, ops))
  {
    hide SampleFound, GpuAfter, LifeDuring;
  }

  lemma {:induction false} SamplerHoldsLivesDuring(k: Address, ops: seq<Op>, found: seq<Found>, n: nat)
    requires n <= |found|
    ensures Lives(SampleFound(Run(ops).engines, Run(ops).next, found, n).engines, k, LifeDuring(k, ops, found, n))
    decreases |ops|, 1, n
  {
    hide Lives;
    if n == 0 {
      SamplerHoldsLives(k, ops);
    } else {
      SamplerHoldsLivesDuring(k, ops, found, n - 1);
      LivesNext(k, ops, found, n);
    }
  }

  lemma {:induction false} FractionsStay(st: Engines, next: nat, found: seq<Found>, n: nat, i: nat)
    requires i < n <= |found|
    ensures SampleFound(st, next, found, n).fractions[i] == SampleFound(st, next, found, i + 1).fractions[i]
  {
    if i + 1 < n {
      hide TakeTurns, Entered;
      FractionsStay(st, next, found, n - 1, i);
    }
  }

  /** A GPU that was not there before this sample is in its first. */
  lemma {:induction false} FirstSample(k: Address, ops: seq<Op>, found: seq<Found>, n: nat)
    requires n <= |found| && LifeOf(k, ops) == None
    requires forall j | 0 <= j < n :: found[j].bdf != k
    ensures LifeDuring(k, ops, found, n) == None
  {
    if n > 0 {
      FirstSample(k, ops, found, n - 1);
    }
  }

  /**
   After any run of samples and closes, with GPUs coming and going: a GPU has a usage exactly when it has
   engines and each of them was read in this sample and the one just before in the GPU's life, with readings
   that fit. The usage is then within 0 and 1. In the sample in which a GPU appears or returns there is none.
   */
  lemma UsageOverRuns(ops: seq<Op>, found: seq<Found>, i: nat, usage: Option<real>)
    requires i < |found| && found[i].events.Some?
    requires IsUsage(SampleFound(Run(ops).engines, Run(ops).next, found, |found|).fractions[i], usage)
    ensures
      var life := LifeDuring(found[i].bdf, ops, found, i + 1);
      && life.Some?
      && (usage.Some? <==>
            life.value.events > 0
            && forall e | 0 <= e < life.value.events :: EngineFits(life.value.events, life.value.samples, e))
      && (usage.Some? ==> 0.0 <= usage.value <= 1.0)
    ensures found[i].bdf !in Run(ops).engines && (forall j | 0 <= j < i :: found[j].bdf != found[i].bdf) ==>
              usage == None
  {
    hide SampleFound, LastFractions, EngineFits, Run, LifeDuring, LifeOf;
    var k := found[i].bdf;
    FractionsStay(Run(ops).engines, Run(ops).next, found, |found|, i);
    SamplerHoldsLivesDuring(k, ops, found, i);
    LivesNext(k, ops, found, i + 1);
    LifeGrows(ops, found, i);
    var life := LifeDuring(k, ops, found, i + 1).value;
    GpuUsageIsSound(life.events, life.samples, usage);
    SamplerHoldsLives(k, ops);
    if k !in Run(ops).engines && forall j | 0 <= j < i :: found[j].bdf != k {
      FirstSample(k, ops, found, i);
      OneSampleIsNoUsage(life.events, life.samples);
    }
  }

  lemma LifeGrows(ops: seq<Op>, found: seq<Found>, i: nat)
    requires i < |found| && found[i].events.Some?
    ensures
      var before, life := LifeDuring(found[i].bdf, ops, found, i), LifeDuring(found[i].bdf, ops, found, i + 1);
      life.Some? && |life.value.samples| == 1 + if before.Some? then |before.value.samples| else 0
  {
    hide SampleFound, Run;
  }

  lemma OneSampleIsNoUsage(n: nat, samples: seq<Sampling>)
    requires |samples| == 1
    ensures n > 0 ==> !EngineFits(n, samples, 0)
  {}
}
