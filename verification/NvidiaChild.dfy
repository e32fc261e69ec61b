/**
 The nvidia-smi child of GPUSampler (gpu_linux.go): when a child is started, served, declared stale,
 stopped and retried. One Visit holds what the environment answers during one call of nvidiaRows.
 */
module NvidiaChild {
  import opened Wrappers
  import opened Text
  import opened NvidiaStream
  import opened Ledger

  const MILLISECOND: nat := 1_000_000
  const SECOND: nat := 1000 * MILLISECOND
  const DEFAULT_PERIOD: nat := SECOND
  const MIN_PERIOD: nat := 500 * MILLISECOND
  const MAX_PERIOD: nat := 5 * SECOND
  const MAX_BACKOFF: nat := 30 * SECOND
  const MAX_FAILURES: nat := 6

  /** Clock readings in the order they are taken, the outcomes of start and smi, and the child's reads. */
  datatype Visit = Visit(
    gate: int, periodAt: int, begun: int, fedAt: int, servedAt: int, staleAt: int, retryFrom: int,
    startOk: bool, script: seq<Read>, smi: Result<string>)

  datatype Child = Child(id: nat, frame: Frame, started: int, period: nat)

  /** The nvidia fields of GPUSampler, with the number of children started so far. */
  datatype Owner = Owner(child: Option<Child>, retryAt: Option<int>, failures: nat, lastSample: Option<int>,
                         births: nat)

  const NEW_OWNER := Owner(None, None, 0, None, 0)

  /** A start attempt: the reading that allowed it, one taken right after it, and whether it worked. */
  datatype Attempt = Attempt(gate: int, begun: int, ok: bool)

  datatype Outcome = Outcome(owner: Owner, rows: Result<string>, fault: bool, events: seq<Event>,
                             attempts: seq<Attempt>)

  function Pow2(n: nat): (p: nat)
    ensures p >= 1
  {
    if n == 0 then 1 else 2 * Pow2(n - 1)
  }

  /** The delay after a number of failures; the shift is taken of at most MAX_FAILURES. */
  function Backoff(failures: nat): (delay: nat)
    ensures 2 * SECOND <= delay <= MAX_BACKOFF || failures == 0
  {
    var capped := if failures > MAX_FAILURES then MAX_FAILURES else failures;
    var backoff := DEFAULT_PERIOD * Pow2(capped);
    if backoff > MAX_BACKOFF then MAX_BACKOFF else backoff
  }

  function Capped(failures: nat): nat {
    if failures > MAX_FAILURES then MAX_FAILURES else failures
  }

  /** The loop period of a new child: the gap since the last sample, kept within bounds. */
  function Period(lastSample: Option<int>, now: int): (period: nat)
    ensures MIN_PERIOD <= period <= MAX_PERIOD
  {
    match lastSample
    case None => DEFAULT_PERIOD
    case Some(last) =>
      var gap := now - last;
      if gap < MIN_PERIOD then MIN_PERIOD else if gap > MAX_PERIOD then MAX_PERIOD else gap
  }

  predicate Due(retryAt: Option<int>, now: int) {
    retryAt == None || retryAt.value <= now
  }

  /** Drains and serves a live child, or gives it up when it is gone or silent. */
  function Served(o: Owner, v: Visit): Outcome
    requires o.child.Some?
  {
    var c := o.child.value;
    var frame, gone := Fed(c.frame, Drained(v.script), v.fedAt), EndsGone(v.script);
    var kept := o.(child := Some(c.(frame := frame)));
    if frame.tick != [] && !gone && !IsStale(frame, c.started, c.period, v.servedAt) then
      Outcome(kept, Ok(JoinRows(frame.tick)), false, [Used(c.id)], [])
    else if !gone && !IsStale(frame, c.started, c.period, v.staleAt) then
      Outcome(kept, Ok([]), false, [Used(c.id)], [])
    else
      var failures := Capped(o.failures + 1);
      var left := o.(child := None, failures := failures, retryAt := Some(v.retryFrom + Backoff(failures)));
      Outcome(left, v.smi, v.smi.Ok?, [Used(c.id), Closed(c.id)], [])
  }

  /** One call of nvidiaRows. */
  function Visited(o: Owner, v: Visit, runsChild: bool): Outcome {
    if o.child.Some? then Served(o, v)
    else if !runsChild || !Due(o.retryAt, v.gate) then Outcome(o, v.smi, false, [], [])
    else if !v.startOk then
      var failures := Capped(o.failures + 1);
      Outcome(o.(failures := failures, retryAt := Some(v.begun + Backoff(failures))), Err, false, [],
              [Attempt(v.gate, v.begun, false)])
    else
      var child := Child(o.births, FRESH, v.begun, Period(o.lastSample, v.periodAt));
      var next := Served(o.(child := Some(child), failures := 0, births := o.births + 1), v);
      next.(events := [Opened(o.births)] + next.events, attempts := [Attempt(v.gate, v.begun, true)])
  }

  class GpuSampler {
    const runsChild: bool
    var stream: Stream?
    var child: nat
    var births: nat
    var retryAt: Option<int>
    var failures: nat
    var lastSample: Option<int>
    var fault: bool
    ghost var log: seq<Event>

    ghost predicate Valid()
      reads this, stream
    {
      stream != null ==> stream.Valid() && !stream.gone
    }

    ghost function Live(): Option<Child>
      reads this, stream
    {
      if stream == null then None else Some(Child(child, stream.State(), stream.started, stream.period))
    }

    ghost function State(): Owner
      reads this, stream
    {
      Owner(Live(), retryAt, failures, lastSample, births)
    }

    constructor (runsChild: bool)
      ensures Valid() && State() == NEW_OWNER && log == [] && this.runsChild == runsChild
    {
      this.runsChild := runsChild;
      stream, child, births, retryAt, failures, lastSample, fault := null, 0, 0, None, 0, None, false;
      log := [];
    }

    /** The delay before a failed child is started again; it also caps the failure count. */
    method NvidiaBackoff() returns (delay: nat)
      modifies this`failures
      ensures failures == Capped(old(failures)) && delay == Backoff(failures)
      ensures DEFAULT_PERIOD * Pow2(failures) <= MAX_INT64
    {
      if failures > MAX_FAILURES {
        failures := MAX_FAILURES;
      }
      ShiftFits(failures);
      delay := DEFAULT_PERIOD * Pow2(failures);
      if delay > MAX_BACKOFF {
        delay := MAX_BACKOFF;
      }
    }

    method StopStream()
      modifies this`stream, this`log
      ensures stream == null
      ensures log == if old(stream) == null then old(log) else old(log) + [Closed(child)]
    {
      if stream == null {
        return;
      }
      log := log + [Closed(child)];
      stream := null;
    }

    method StartStream(v: Visit) returns (ok: bool)
      requires Valid() && stream == null
      modifies this`stream, this`child, this`births, this`failures, this`retryAt, this`log
      ensures Valid() && ok == v.startOk && (ok ==> fresh(stream))
      ensures
        if v.startOk then
          && log == old(log) + [Opened(old(births))]
          && State() == old(State()).(child := Some(Child(old(births), FRESH, v.begun, Period(lastSample, v.periodAt))),
                                      failures := 0, births := old(births) + 1)
        else
          && log == old(log)
          && State() == old(State()).(failures := Capped(old(failures) + 1),
                                      retryAt := Some(v.begun + Backoff(Capped(old(failures) + 1))))
    {
      var period := Period(lastSample, v.periodAt);
      if !v.startOk {
        failures := failures + 1;
        var delay := NvidiaBackoff();
        retryAt := Some(v.begun + delay);
        return false;
      }
      stream := new Stream(period, v.begun);
      child, births := births, births + 1;
      log := log + [Opened(child)];
      failures := 0;
      return true;
    }

    /** The NVIDIA rows for one sample: from the child, or from a one-shot run while there is none. */
    method NvidiaRows(v: Visit) returns (rows: Result<string>)
      requires Valid() && !fault
      modifies this, stream
      ensures Valid()
      ensures
        var r := Visited(old(State()), v, runsChild);
        State() == r.owner && rows == r.rows && fault == r.fault && log == old(log) + r.events
    {
      hide Served, Backoff, Period;
      if stream == null {
        if !runsChild {
          return v.smi;
        }
        if Due(retryAt, v.gate) {
          var ok := StartStream(v);
          if !ok {
            return Err;
          }
        }
        if stream == null {
          return v.smi;
        }
      }
      rows := ServeChild(v);
    }

    /** Reads the live child; a child that is gone or silent is stopped and the one-shot run answers. */
    method ServeChild(v: Visit) returns (rows: Result<string>)
      requires Valid() && stream != null && !fault
      modifies this, stream
      ensures Valid()
      ensures
        var r := Served(old(State()), v);
        State() == r.owner && rows == r.rows && fault == r.fault && log == old(log) + r.events
    {
      hide Fed, Drained, EndsGone, JoinRows, Backoff, IsStale;
      log := log + [Used(child)];
      var served := stream.Serve(v.script, v.fedAt, v.servedAt);
      if served.Some? {
        return Ok(served.value);
      }
      if !stream.Stale(v.staleAt) {
        return Ok([]);
      }
      fault := true;
      failures := failures + 1;
      var delay := NvidiaBackoff();
      retryAt := Some(v.retryFrom + delay);
      StopStream();
      if v.smi.Err? {
        fault := false;
      }
      return v.smi;
    }

    /** The nvidia part of Sample; the DRM directory may be unreadable, or list no NVIDIA GPU. */
    method Sample(collectedAt: int, readable: bool, nvidia: bool, v: Visit) returns (rows: Result<string>)
      requires Valid()
      modifies this, stream
      ensures Valid()
      ensures
        var r := Step(old(State()), Sampling(collectedAt, readable, nvidia, v), runsChild);
        State() == r.owner && rows == r.rows && fault == r.fault && log == old(log) + r.events
    {
      fault := false;
      rows := Ok([]);
      if !readable {
        return Err;
      }
      if nvidia {
        rows := NvidiaRows(v);
      }
      lastSample := Some(collectedAt);
    }

    method Close()
      requires Valid()
      modifies this
      ensures Valid()
      ensures
        var r := Step(old(State()), Closing, runsChild);
        State() == r.owner && log == old(log) + r.events
    {
      StopStream();
      retryAt := None;
    }
  }

  // ----- whole runs

  datatype Op = Sampling(collectedAt: int, readable: bool, nvidia: bool, visit: Visit) | Closing

  function Step(o: Owner, op: Op, runsChild: bool): Outcome {
    match op
    case Sampling(collectedAt, readable, nvidia, v) =>
      if !readable then Outcome(o, Err, false, [], [])
      else
        var r := if nvidia then Visited(o, v, runsChild) else Outcome(o, Ok([]), false, [], []);
        r.(owner := r.owner.(lastSample := Some(collectedAt)))
    case Closing =>
      Outcome(o.(child := None, retryAt := None), Ok([]), false,
              if o.child.Some? then [Closed(o.child.value.id)] else [], [])
  }

  lemma ShiftFits(failures: nat)
    requires failures <= MAX_FAILURES
    ensures DEFAULT_PERIOD * Pow2(failures) <= 64 * SECOND
    ensures Pow2(failures) == [1, 2, 4, 8, 16, 32, 64][failures]
  {
    assert Pow2(1) == 2 && Pow2(2) == 4 && Pow2(3) == 8 && Pow2(4) == 16 && Pow2(5) == 32 && Pow2(6) == 64;
  }
}
