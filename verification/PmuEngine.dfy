/**
 One engine counter of a GPU's PMU over time (gpu_linux.go, gpu_pmu_linux.go): opened when first
 needed, read once per sample, turned into a busy fraction against the read before.
 */
module PmuEngine {
  import opened Wrappers
  import opened Ledger
  import opened Quotients

  /** How long a counter that was denied waits before the next attempt to open it, in nanoseconds. */
  const PMU_OPEN_RETRY: nat := 60_000_000_000

  datatype OpenError = NoError | Denied | Failed

  /** gpuEngineState. An open counter is known by the number of its descriptor. */
  datatype Engine = Engine(
    counter: Option<nat>, value: nat, hasValue: bool, readAt: int, openErr: OpenError, openRetryAt: Option<int>)

  const CLOSED_ENGINE := Engine(None, 0, false, 0, NoError, None)

  /** What the environment answers to one engine in one sample. */
  datatype Turn = Turn(openAt: int, open: OpenError, read: Option<nat>, readAt: int)

  /** What one engine does in one sample; births counts the descriptors it took. */
  datatype Outcome = Outcome(engine: Engine, fraction: Option<real>, attempted: bool, births: nat, events: seq<Event>)

  /** The busy fraction of the interval between two reads, or None when they fit no interval. */
  function EngineBusy(previous: nat, current: nat, hasPrevious: bool, elapsed: int): (r: Option<real>)
    ensures r.Some? <==> hasPrevious && elapsed > 0 && previous <= current <= previous + elapsed
    ensures r.Some? ==> 0.0 <= r.value <= 1.0 && r.value * elapsed as real == (current - previous) as real
  {
    if !hasPrevious || elapsed <= 0 || current < previous then None
    else
      var delta := current - previous;
      if delta > elapsed then None else Share(delta, elapsed); Some(delta as real / elapsed as real)
  }

  /** Reads an open counter and rebaselines on the reading, or on nothing when the read fails. */
  function ReadCounter(e: Engine, t: Turn): Outcome
    requires e.counter.Some?
  {
    var events := [Used(e.counter.value)];
    match t.read
    case None => Outcome(e.(hasValue := false), None, false, 0, events)
    case Some(value) =>
      var elapsed := if e.hasValue then t.readAt - e.readAt else 0;
      Outcome(e.(value := value, hasValue := true, readAt := t.readAt),
              EngineBusy(e.value, value, e.hasValue, elapsed), false, 0, events)
  }

  /** One engine's part of sampleGPU; next numbers the descriptor an open would return. */
  function TakeTurn(e: Engine, t: Turn, next: nat): Outcome {
    if e.counter.Some? then ReadCounter(e, t)
    else if e.openErr != NoError && e.openRetryAt.Some? && t.openAt < e.openRetryAt.value then
      Outcome(e, None, false, 0, [])
    else if t.open != NoError then
      var retryAt := if t.open == Denied then Some(t.openAt + PMU_OPEN_RETRY) else e.openRetryAt;
      Outcome(e.(openErr := t.open, openRetryAt := retryAt), None, true, 0, [])
    else
      var r := ReadCounter(e.(counter := Some(next), hasValue := false, openErr := NoError, openRetryAt := None), t);
      r.(attempted := true, births := 1, events := [Opened(next)] + r.events)
  }

  // ----- one engine over a run of samples

  /** A turn and the number the next descriptor would get. */
  type Step = (Turn, nat)

  function EngineAfter(steps: seq<Step>): Engine {
    if steps == [] then CLOSED_ENGINE else LastOutcome(steps).engine
  }

  function LastOutcome(steps: seq<Step>): Outcome
    requires steps != []
    decreases |steps|, 0
  {
    var (t, next) := steps[|steps| - 1];
    TakeTurn(if |steps| == 1 then CLOSED_ENGINE else LastOutcome(steps[..|steps| - 1]).engine, t, next)
  }

  /** What the engine did in sample k. */
  function OutcomeAt(steps: seq<Step>, k: nat): Outcome
    requires k < |steps|
  {
    LastOutcome(steps[..k + 1])
  }

  lemma OutcomeFrom(steps: seq<Step>, k: nat)
    requires k < |steps|
    ensures
      var e := if k == 0 then CLOSED_ENGINE else OutcomeAt(steps, k - 1).engine;
      OutcomeAt(steps, k) == TakeTurn(e, steps[k].0, steps[k].1)
  {
    assert steps[..k + 1][..k] == steps[..k];
    assert k > 0 ==> steps[..k] == steps[..k - 1 + 1];
  }

  // ----- what the environment answers decides everything

  /** By sample n the counter was opened: some open that was tried succeeded. */
  predicate IsOpen(steps: seq<Step>, n: nat)
    requires n <= |steps|
    decreases n, 0
  {
    n > 0 && (IsOpen(steps, n - 1) || (Tries(steps, n - 1) && steps[n - 1].0.open == NoError))
  }

  /** The last sample before n in which an open was tried and denied. */
  function LastDenial(steps: seq<Step>, n: nat): (i: Option<nat>)
    requires n <= |steps|
    ensures i.Some? ==> i.value < n && steps[i.value].0.open == Denied
    decreases n, 0
  {
    if n == 0 then None
    else if steps[n - 1].0.open == Denied && Tries(steps, n - 1) then Some(n - 1)
    else LastDenial(steps, n - 1)
  }

  /** An open is tried in sample k exactly when the counter is not open and no denial is less than a minute old. */
  predicate Tries(steps: seq<Step>, k: nat)
    requires k < |steps|
    decreases k, 1
  {
    !IsOpen(steps, k)
    && match LastDenial(steps, k)
       case None => true
       case Some(i) => steps[k].0.openAt >= steps[i].0.openAt + 60_000_000_000
  }

  /** The value read in sample k and when: the counter is open by then and the read succeeds. */
  function ReadIn(steps: seq<Step>, k: nat): Option<(nat, int)>
    requires k < |steps|
  {
    if IsOpen(steps, k + 1) && steps[k].0.read.Some? then Some((steps[k].0.read.value, steps[k].0.readAt)) else None
  }

  /** The engine holds a counter exactly when one was opened; of the opens that failed it keeps the last denial. */
  lemma {:induction false} EngineKnows(steps: seq<Step>, k: nat)
    requires k < |steps|
    ensures
      var e, denial := OutcomeAt(steps, k).engine, LastDenial(steps, k + 1);
      && (e.counter.Some? <==> IsOpen(steps, k + 1))
      && (e.counter.None? ==>
            && e.openRetryAt == (if denial.Some? then Some(steps[denial.value].0.openAt + PMU_OPEN_RETRY) else None)
            && (denial.Some? ==> e.openErr != NoError))
    ensures OutcomeAt(steps, k).attempted <==> Tries(steps, k)
  {
    OutcomeFrom(steps, k);
    if k > 0 {
      hide OutcomeAt, EngineBusy;
      EngineKnows(steps, k - 1);
    }
  }

  /** The baseline is always the reading of the sample just before, or none. */
  lemma {:induction false} BaselineIsLastReading(steps: seq<Step>, k: nat)
    requires k < |steps|
    ensures
      var e := OutcomeAt(steps, k).engine;
      ReadIn(steps, k) == if e.hasValue then Some((e.value, e.readAt)) else None
  {
    OutcomeFrom(steps, k);
    EngineKnows(steps, k);
    if k > 0 {
      hide OutcomeAt, EngineBusy, IsOpen, Tries;
      EngineKnows(steps, k - 1);
      BaselineIsLastReading(steps, k - 1);
    }
  }

  /** Two successive readings that fit: time advanced, and the counter by no more than the time. */
  predicate Fit(before: Option<(nat, int)>, after: Option<(nat, int)>) {
    && before.Some? && after.Some?
    && before.value.1 < after.value.1
    && before.value.0 <= after.value.0 <= before.value.0 + (after.value.1 - before.value.1)
  }

  /** The two readings a usage in sample k would come from fit. */
  predicate FitIn(steps: seq<Step>, k: nat)
    requires k < |steps|
  {
    k > 0 && Fit(ReadIn(steps, k - 1), ReadIn(steps, k))
  }

  /** The counter's advance between them, and the time between them. */
  function AdvanceIn(steps: seq<Step>, k: nat): nat
    requires k < |steps| && FitIn(steps, k)
  {
    ReadIn(steps, k).value.0 - ReadIn(steps, k - 1).value.0
  }

  function ElapsedIn(steps: seq<Step>, k: nat): nat
    requires k < |steps| && FitIn(steps, k)
  {
    ReadIn(steps, k).value.1 - ReadIn(steps, k - 1).value.1
  }

  /**
   An engine has a usage in a sample exactly when it was read in that sample and in the one just before,
   and the two readings fit; the usage is then the counter's share of the time between the readings. A
   failed read, a decrease or an impossible delta therefore costs the samples it touches and no other.
   */
  lemma UsageComesFromTwoReadings(steps: seq<Step>, k: nat)
    requires k < |steps|
    ensures
      var fraction := OutcomeAt(steps, k).fraction;
      && (fraction.Some? <==> FitIn(steps, k))
      && (fraction.Some? ==>
            && 0.0 <= fraction.value <= 1.0
            && fraction.value * ElapsedIn(steps, k) as real == AdvanceIn(steps, k) as real)
  {
    OutcomeFrom(steps, k);
    EngineKnows(steps, k);
    hide OutcomeAt, IsOpen, Tries;
    if k > 0 {
      EngineKnows(steps, k - 1);
      BaselineIsLastReading(steps, k - 1);
    }
  }

  /** When every open and every read succeeds, everything is read, from the first sample on. */
  lemma {:induction false} AllIsRead(steps: seq<Step>, k: nat)
    requires k < |steps|
    requires forall i | 0 <= i <= k :: steps[i].0.open == NoError && steps[i].0.read.Some?
    ensures ReadIn(steps, k) == Some((steps[k].0.read.value, steps[k].0.readAt))
  {
    OpensAtOnce(steps, k + 1);
  }

  lemma {:induction false} OpensAtOnce(steps: seq<Step>, n: nat)
    requires 0 < n <= |steps| && steps[0].0.open == NoError
    ensures IsOpen(steps, n)
  {
    if n == 1 {
      assert Tries(steps, 0);
    } else {
      OpensAtOnce(steps, n - 1);
    }
  }

  /** A failed open is tried again in the very next sample, unless a denial is less than a minute old. */
  lemma FailedOpenIsRetried(steps: seq<Step>, k: nat)
    requires k + 1 < |steps| && Tries(steps, k) && steps[k].0.open == Failed
    requires LastDenial(steps, k).Some? ==> steps[k].0.openAt <= steps[k + 1].0.openAt
    ensures Tries(steps, k + 1)
  {}

  /** The busy time reported in one sample: fraction times elapsed. */
  function BusyTime(steps: seq<Step>, k: nat): real
    requires k < |steps| && FitIn(steps, k)
  {
    var fraction := OutcomeAt(steps, k).fraction;
    if fraction.Some? then fraction.value * ElapsedIn(steps, k) as real else 0.0
  }

  /** The same from sample i to sample j, summed. */
  function Reported(steps: seq<Step>, i: nat, j: nat): real
    requires i <= j < |steps| && forall k | i < k <= j :: FitIn(steps, k)
  {
    if i == j then 0.0 else Reported(steps, i, j - 1) + BusyTime(steps, j)
  }

  function ValueIn(steps: seq<Step>, k: nat): int
    requires k < |steps|
  {
    if ReadIn(steps, k).Some? then ReadIn(steps, k).value.0 else 0
  }

  /** While an engine stays usable, the reported busy time adds up to the counter's advance. */
  lemma {:induction false} ReportedBusyTelescopes(steps: seq<Step>, i: nat, j: nat)
    requires i <= j < |steps| && forall k | i < k <= j :: FitIn(steps, k)
    ensures Reported(steps, i, j) == (ValueIn(steps, j) - ValueIn(steps, i)) as real
    decreases j
  {
    if i < j {
      ReportedBusyTelescopes(steps, i, j - 1);
      BusyTimeIsAdvance(steps, j);
      hide BusyTime, ValueIn, FitIn;
    }
  }

  lemma BusyTimeIsAdvance(steps: seq<Step>, k: nat)
    requires k < |steps| && FitIn(steps, k)
    ensures BusyTime(steps, k) == (ValueIn(steps, k) - ValueIn(steps, k - 1)) as real
  {
    hide OutcomeAt, ReadIn;
    UsageComesFromTwoReadings(steps, k);
  }

  /** A denied open is retried a minute later at the earliest, and meanwhile the denial stays reported. */
  lemma {:induction false} DeniedOpenWaits(steps: seq<Step>, i: nat, j: nat)
    requires i < j < |steps| && Tries(steps, i) && steps[i].0.open == Denied
    requires forall k | i < k < j :: !Tries(steps, k)
    ensures OutcomeAt(steps, i).engine.openErr == Denied
    ensures Tries(steps, j) <==> steps[j].0.openAt >= steps[i].0.openAt + 60_000_000_000
    ensures !Tries(steps, j) ==> OutcomeAt(steps, j).engine == OutcomeAt(steps, i).engine
    decreases j
  {
    OutcomeFrom(steps, i);
    OutcomeFrom(steps, j);
    EngineKnows(steps, i);
    EngineKnows(steps, j);
    StillDenied(steps, i, j);
    hide OutcomeAt, IsOpen, Tries;
    if i < j - 1 {
      DeniedOpenWaits(steps, i, j - 1);
    }
  }

  lemma {:induction false} StillDenied(steps: seq<Step>, i: nat, j: nat)
    requires i < j < |steps| && Tries(steps, i) && steps[i].0.open == Denied
    requires forall k | i < k < j :: !Tries(steps, k)
    ensures LastDenial(steps, j) == Some(i) && !IsOpen(steps, j)
    decreases j
  {
    if i < j - 1 {
      StillDenied(steps, i, j - 1);
    }
  }
}
