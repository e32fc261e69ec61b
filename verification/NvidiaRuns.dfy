/**
 The nvidia-smi child over whole runs of Sample and Close: one child at a time, each stopped once,
 starts spaced out, and how long exactly a failed or lost child waits.
 */
module NvidiaRuns {
  import opened Wrappers
  import opened NvidiaStream
  import opened NvidiaChild
  import opened Ledger

  datatype Trail = Trail(owner: Owner, log: seq<Event>, attempts: seq<Attempt>)

  function Run(o: Owner, ops: seq<Op>, runsChild: bool): Trail {
    if ops == [] then Trail(o, [], [])
    else
      var t := Run(o, ops[..|ops| - 1], runsChild);
      var r := Step(t.owner, ops[|ops| - 1], runsChild);
      Trail(r.owner, t.log + r.events, t.attempts + r.attempts)
  }

  // ----- the ledger

  /** The books agree with the sampler: its children are numbered in order and only its own is live. */
  ghost predicate BooksAgree(books: Option<Books>, o: Owner) {
    && books.Some?
    && (forall id: nat :: id in books.value.ever <==> id < o.births)
    && books.value.live == (if o.child.Some? then {o.child.value.id} else {})
    && (o.child.Some? ==> o.child.value.id < o.births && o.failures == 0)
  }

  lemma StepKeepsBooks(o: Owner, log: seq<Event>, op: Op, runsChild: bool)
    requires BooksAgree(Audit(log), o)
    ensures
      var r := Step(o, op, runsChild);
      BooksAgree(Audit(log + r.events), r.owner)
  {
    hide Audit, Fed, Backoff, Period, JoinRows, Drained, EndsGone;
    var r := Step(o, op, runsChild);
    if r.events == [] {
      assert log + r.events == log;
    } else {
      AuditNext(log, r.events[0]);
      assert log + r.events[..1] == log + [r.events[0]];
      if |r.events| > 1 {
        AuditNext(log + [r.events[0]], r.events[1]);
        assert log + r.events[..2] == log + [r.events[0]] + [r.events[1]];
        if |r.events| > 2 {
          AuditNext(log + r.events[..2], r.events[2]);
          assert log + r.events == log + r.events[..2] + [r.events[2]];
        } else {
          assert log + r.events == log + r.events[..2];
        }
      } else {
        assert log + r.events == log + r.events[..1];
      }
    }
  }

  /** Every run leaves a log an auditor accepts, whose live children are exactly the sampler's own. */
  lemma {:induction false} RunKeepsBooks(ops: seq<Op>, runsChild: bool)
    ensures var t := Run(NEW_OWNER, ops, runsChild); BooksAgree(Audit(t.log), t.owner)
  {
    if ops != [] {
      hide Step;
      var before := ops[..|ops| - 1];
      RunKeepsBooks(before, runsChild);
      var t := Run(NEW_OWNER, before, runsChild);
      StepKeepsBooks(t.owner, t.log, ops[|ops| - 1], runsChild);
    }
  }

  /**
   Over any run of samples and closes: every child started was stopped or is the current one, never
   both, and a stopped child is never read, stopped or reused again.
   */
  lemma ChildLifecycle(ops: seq<Op>, runsChild: bool)
    ensures
      var t := Run(NEW_OWNER, ops, runsChild);
      && (forall id :: (Opened(id) in t.log && Closed(id) !in t.log)
                       <==> (t.owner.child.Some? && t.owner.child.value.id == id))
      && (forall i, j :: 0 <= i < j < |t.log| && t.log[i].Closed? ==> t.log[j].id != t.log[i].id)
      && (forall i, j :: 0 <= i < j < |t.log| && t.log[i].Opened? ==> t.log[j] != t.log[i])
      && (forall j :: 0 <= j < |t.log| && !t.log[j].Opened? ==> Opened(t.log[j].id) in t.log[..j])
  {
    var t := Run(NEW_OWNER, ops, runsChild);
    hide Run, Audit;
    RunKeepsBooks(ops, runsChild);
    AuditLive(t.log);
    forall i, j | 0 <= i < j < |t.log|
      ensures t.log[i].Closed? ==> t.log[j].id != t.log[i].id
      ensures t.log[i].Opened? ==> t.log[j] != t.log[i]
    {
      AuditMeaning(t.log, i, j);
    }
    forall j | 0 <= j < |t.log| && !t.log[j].Opened?
      ensures Opened(t.log[j].id) in t.log[..j]
    {
      UsedAfterOpened(t.log, j);
    }
  }

  lemma UsedAfterOpened(log: seq<Event>, j: nat)
    requires Audit(log).Some? && j < |log| && !log[j].Opened?
    ensures Opened(log[j].id) in log[..j]
  {
    AuditPrefix(log, j + 1);
    AuditPrefix(log, j);
    assert log[..j + 1][..j] == log[..j];
    AuditLive(log[..j]);
  }

  /** After Close no child is left. */
  lemma NothingLiveAfterClose(ops: seq<Op>, runsChild: bool)
    requires ops != [] && ops[|ops| - 1] == Closing
    ensures
      var log := Run(NEW_OWNER, ops, runsChild).log;
      forall id :: Opened(id) in log ==> Closed(id) in log
  {
    ChildLifecycle(ops, runsChild);
  }

  // ----- the clock

  /** The readings of one operation, in order, none before from. */
  predicate InOrder(op: Op, from: int) {
    match op
    case Closing => true
    case Sampling(at, _, _, v) =>
      from <= at && VisitInOrder(v, at)
  }

  function ClockAfter(ops: seq<Op>, from: int): int {
    if ops == [] then from
    else if ops[|ops| - 1].Sampling? then ops[|ops| - 1].visit.retryFrom
    else ClockAfter(ops[..|ops| - 1], from)
  }

  /** A run of samples under a clock that never runs backwards. */
  predicate Clocked(ops: seq<Op>, from: int) {
    ops == [] ||
    (Clocked(ops[..|ops| - 1], from) && ops[|ops| - 1].Sampling?
     && InOrder(ops[|ops| - 1], ClockAfter(ops[..|ops| - 1], from)))
  }

  // ----- spacing of starts

  /** How many start attempts in a row failed, up to the last one. */
  function Streak(attempts: seq<Attempt>): nat {
    if attempts == [] || attempts[|attempts| - 1].ok then 0 else 1 + Streak(attempts[..|attempts| - 1])
  }

  /** The least delay after m failed starts in a row: 2^m seconds, at most 30; 2 seconds when the last start worked. */
  function Delay(m: nat): nat {
    if m == 0 then 2_000_000_000
    else if Pow2(m) > 30 then 30_000_000_000
    else Pow2(m) * 1_000_000_000
  }

  lemma {:induction false} Pow2Monotone(m: nat, n: nat)
    requires m <= n
    ensures Pow2(m) <= Pow2(n)
  {
    if m < n {
      Pow2Monotone(m, n - 1);
    }
  }

  lemma BackoffCoversDelay(failures: nat, m: nat)
    requires 1 <= failures && Capped(m) <= failures
    ensures Backoff(failures) >= Delay(m) >= 2 * SECOND
  {
    ShiftFits(Capped(failures));
    ShiftFits(Capped(m));
    if m > MAX_FAILURES {
      Pow2Monotone(MAX_FAILURES, m);
    } else {
      Pow2Monotone(m, Capped(failures));
    }
    if m > 0 {
      Pow2Monotone(1, m);
    }
  }

  ghost predicate SpacedAttempts(attempts: seq<Attempt>) {
    && (forall i | 0 <= i < |attempts| :: attempts[i].gate <= attempts[i].begun)
    && (forall i | 0 < i < |attempts| ::
          attempts[i].gate >= attempts[i - 1].begun + Delay(Streak(attempts[..i])))
  }

  /** What holds between calls: attempts so far are spaced, and the next one is held back long enough. */
  ghost predicate Guarded(t: Trail, now: int) {
    && SpacedAttempts(t.attempts)
    && (t.owner.child.Some? ==> t.owner.failures == 0)
    && (t.attempts != [] ==>
          var last, m := t.attempts[|t.attempts| - 1], Streak(t.attempts);
          && last.begun <= now
          && (t.owner.child.Some? ==> last.ok)
          && (t.owner.child.None? && m > 0 ==> t.owner.failures >= Capped(m))
          && (t.owner.child.None? ==> t.owner.retryAt.Some? && t.owner.retryAt.value >= last.begun + Delay(m)))
    && (t.owner.child.Some? ==> t.attempts != [])
  }

  lemma AttemptAdded(attempts: seq<Attempt>, a: Attempt)
    requires SpacedAttempts(attempts) && a.gate <= a.begun
    requires attempts != [] ==> a.gate >= attempts[|attempts| - 1].begun + Delay(Streak(attempts))
    ensures SpacedAttempts(attempts + [a])
    ensures Streak(attempts + [a]) == if a.ok then 0 else 1 + Streak(attempts)
  {
    var all := attempts + [a];
    assert all[..|attempts|] == attempts;
    forall i | 0 < i < |all|
      ensures all[i].gate >= all[i - 1].begun + Delay(Streak(all[..i]))
    {
      assert i < |attempts| ==> all[..i] == attempts[..i];
    }
  }

  /** Serving either keeps the child or gives it up and holds the next start back. */
  lemma ServedShape(o: Owner, v: Visit)
    requires o.child.Some?
    ensures
      var r := Served(o, v);
      && r.attempts == [] && r.owner.lastSample == o.lastSample
      && if r.owner.child.Some? then r.owner.failures == o.failures
         else
           var failures := Capped(o.failures + 1);
           r.owner.failures == failures && r.owner.retryAt == Some(v.retryFrom + Backoff(failures))
  {
    hide Fed, Backoff;
  }

  /** The readings of one visit, in order, none before from. */
  predicate VisitInOrder(v: Visit, from: int) {
    from <= v.gate <= v.periodAt <= v.begun <= v.fedAt <= v.servedAt <= v.staleAt <= v.retryFrom
  }

  lemma ServingKeepsGuard(t: Trail, v: Visit, now: int, log: seq<Event>)
    requires Guarded(t, now) && VisitInOrder(v, now) && t.owner.child.Some?
    ensures Guarded(Trail(Served(t.owner, v).owner, log, t.attempts), v.retryFrom)
  {
    hide Served, Backoff, Delay, Pow2, SpacedAttempts;
    ServedShape(t.owner, v);
    BackoffCoversDelay(1, 0);
    assert Streak(t.attempts) == 0;
  }

  lemma FailedStartKeepsGuard(t: Trail, v: Visit, now: int)
    requires Guarded(t, now) && VisitInOrder(v, now) && t.owner.child.None? && Due(t.owner.retryAt, v.gate)
    ensures
      var failures := Capped(t.owner.failures + 1);
      var owner := t.owner.(failures := failures, retryAt := Some(v.begun + Backoff(failures)));
      Guarded(Trail(owner, t.log, t.attempts + [Attempt(v.gate, v.begun, false)]), v.retryFrom)
  {
    hide Backoff, Delay, Pow2, SpacedAttempts, Streak;
    var m := Streak(t.attempts);
    AttemptAdded(t.attempts, Attempt(v.gate, v.begun, false));
    assert m > 0 ==> t.attempts != [] by {
      StreakNonEmpty(t.attempts);
    }
    BackoffCoversDelay(Capped(t.owner.failures + 1), 1 + m);
  }

  lemma StreakNonEmpty(attempts: seq<Attempt>)
    ensures Streak(attempts) > 0 ==> attempts != []
  {}

  lemma GoodStartKeepsGuard(t: Trail, v: Visit, now: int, owner: Owner)
    requires Guarded(t, now) && VisitInOrder(v, now) && t.owner.child.None? && Due(t.owner.retryAt, v.gate)
    requires owner.child.Some? && owner.failures == 0
    ensures Guarded(Trail(owner, t.log, t.attempts + [Attempt(v.gate, v.begun, true)]), v.begun)
  {
    hide Delay, Pow2, SpacedAttempts, Streak;
    AttemptAdded(t.attempts, Attempt(v.gate, v.begun, true));
  }

  lemma GuardLater(t: Trail, now: int, later: int)
    requires Guarded(t, now) && now <= later
    ensures Guarded(t, later)
  {}

  lemma VisitKeepsGuard(t: Trail, v: Visit, now: int, runsChild: bool)
    requires Guarded(t, now) && VisitInOrder(v, now)
    ensures
      var r := Visited(t.owner, v, runsChild);
      Guarded(Trail(r.owner, t.log + r.events, t.attempts + r.attempts), v.retryFrom)
  {
    hide Served, Period, Backoff, Guarded;
    var r, o := Visited(t.owner, v, runsChild), t.owner;
    assert t.attempts + [] == t.attempts && t.log + [] == t.log;
    if o.child.Some? {
      ServedShape(o, v);
      ServingKeepsGuard(t, v, now, t.log + r.events);
    } else if !runsChild || !Due(o.retryAt, v.gate) {
      GuardLater(t, now, v.retryFrom);
    } else if !v.startOk {
      FailedStartKeepsGuard(t, v, now);
    } else {
      var begun := o.(child := Some(Child(o.births, FRESH, v.begun, Period(o.lastSample, v.periodAt))), failures := 0,
                      births := o.births + 1);
      var next := Trail(begun, t.log, t.attempts + [Attempt(v.gate, v.begun, true)]);
      GoodStartKeepsGuard(t, v, now, begun);
      ServedShape(begun, v);
      ServingKeepsGuard(next, v.(gate := v.begun, periodAt := v.begun), v.begun, t.log + r.events);
      SameReadings(begun, v);
    }
  }

  /** Serving reads the clock only after the start. */
  lemma SameReadings(o: Owner, v: Visit)
    requires o.child.Some?
    ensures Served(o, v.(gate := v.begun, periodAt := v.begun)).owner == Served(o, v).owner
  {
    hide Fed, Backoff;
  }

  lemma SampleKeepsGuard(t: Trail, op: Op, now: int, runsChild: bool)
    requires Guarded(t, now) && op.Sampling? && InOrder(op, now)
    ensures
      var r := Step(t.owner, op, runsChild);
      Guarded(Trail(r.owner, t.log + r.events, t.attempts + r.attempts), op.visit.retryFrom)
  {
    hide Visited, SpacedAttempts;
    if op.readable && op.nvidia {
      VisitKeepsGuard(t, op.visit, now, runsChild);
    } else {
      assert t.attempts + [] == t.attempts;
    }
  }

  /**
   No retry storm: under a clock that never runs backwards, with no Close in between, each start
   attempt comes at least Delay(m) after the one before it, where m counts the failed starts in a row.
   */
  lemma {:induction false} StartsAreSpaced(o: Owner, ops: seq<Op>, from: int, runsChild: bool)
    requires o.child == None && Clocked(ops, from)
    ensures Guarded(Run(o, ops, runsChild), ClockAfter(ops, from))
  {
    if ops != [] {
      hide Step, Guarded;
      var before := ops[..|ops| - 1];
      StartsAreSpaced(o, before, from, runsChild);
      SampleKeepsGuard(Run(o, before, runsChild), ops[|ops| - 1], ClockAfter(before, from), runsChild);
    }
  }

  /** How many attempts were allowed in a window of the clock. */
  function CountIn(attempts: seq<Attempt>, from: int, to: int): nat {
    if attempts == [] then 0
    else
      var last := attempts[|attempts| - 1];
      CountIn(attempts[..|attempts| - 1], from, to) + if from <= last.gate <= to then 1 else 0
  }

  lemma LastIsSpaced(attempts: seq<Attempt>)
    requires SpacedAttempts(attempts) && attempts != []
    ensures
      var n := |attempts| - 1;
      SpacedAttempts(attempts[..n]) && (n > 0 ==> attempts[n].gate >= attempts[n - 1].gate + 2 * SECOND)
  {
    hide Delay;
    var n := |attempts| - 1;
    assert forall i | 0 <= i < n :: attempts[..n][..i] == attempts[..i];
    if n > 0 {
      DelayAtLeast(Streak(attempts[..n]));
    }
  }

  lemma {:induction false} SpacedCount(attempts: seq<Attempt>, from: int, to: int)
    requires SpacedAttempts(attempts) && CountIn(attempts, from, to) > 0
    ensures
      var gap := 2 * SECOND * (CountIn(attempts, from, to) - 1);
      gap <= to - from && gap <= attempts[|attempts| - 1].gate - from
  {
    hide SpacedAttempts;
    var before := attempts[..|attempts| - 1];
    LastIsSpaced(attempts);
    if CountIn(before, from, to) > 0 {
      SpacedCount(before, from, to);
    }
  }

  lemma DelayAtLeast(m: nat)
    ensures Delay(m) >= 2 * SECOND
  {
    if m > 0 {
      Pow2Monotone(1, m);
    }
  }

  /** No more than T / 2s + 1 start attempts in any window of length T, in any run. */
  lemma AttemptsInWindow(o: Owner, ops: seq<Op>, clock: int, runsChild: bool, from: int, length: nat)
    requires o.child == None && Clocked(ops, clock)
    ensures CountIn(Run(o, ops, runsChild).attempts, from, from + length) <= length / 2_000_000_000 + 1
  {
    hide Run, Clocked;
    var attempts := Run(o, ops, runsChild).attempts;
    StartsAreSpaced(o, ops, clock, runsChild);
    if CountIn(attempts, from, from + length) > 0 {
      SpacedCount(attempts, from, from + length);
    }
  }

  // ----- how long exactly the next start waits

  /**
   The failures since the child last ran: the failed starts in a row, and the loss of the child the good
   start before them made.
   */
  function Failures(attempts: seq<Attempt>): nat {
    var m := Streak(attempts);
    if m < |attempts| then m + 1 else m
  }

  /** The sampler counts exactly those; while its child runs it counts none. */
  ghost predicate Counted(t: Trail) {
    if t.owner.child.Some? then t.owner.failures == 0 && t.attempts != [] && t.attempts[|t.attempts| - 1].ok
    else t.owner.failures == if Failures(t.attempts) > 6 then 6 else Failures(t.attempts)
  }

  predicate NoClose(ops: seq<Op>) {
    forall i | 0 <= i < |ops| :: ops[i].Sampling?
  }

  /** The delays in nanoseconds: two seconds after one failure, doubling, and thirty seconds from five on. */
  lemma Delays(m: nat)
    ensures Delay(1) == 2_000_000_000 && Delay(2) == 4_000_000_000 && Delay(3) == 8_000_000_000
    ensures Delay(4) == 16_000_000_000 && (m >= 5 ==> Delay(m) == 30_000_000_000)
  {
    ShiftFits(1);
    ShiftFits(2);
    ShiftFits(3);
    ShiftFits(4);
    ShiftFits(5);
    if m >= 5 {
      Pow2Monotone(5, m);
    }
  }

  lemma StreakNext(attempts: seq<Attempt>, a: Attempt)
    ensures Streak(attempts + [a]) == if a.ok then 0 else 1 + Streak(attempts)
    ensures Failures(attempts + [a]) == if a.ok then 1 else 1 + Failures(attempts)
  {
    assert (attempts + [a])[..|attempts|] == attempts;
  }

  lemma VisitCounts(t: Trail, v: Visit, runsChild: bool)
    requires Counted(t)
    ensures
      var r := Visited(t.owner, v, runsChild);
      Counted(Trail(r.owner, t.log + r.events, t.attempts + r.attempts))
  {
    hide Served, Period, Backoff, Streak;
    var o := t.owner;
    assert t.attempts + [] == t.attempts;
    if o.child.Some? {
      ServedShape(o, v);
      StreakNext(t.attempts[..|t.attempts| - 1], t.attempts[|t.attempts| - 1]);
      assert t.attempts[..|t.attempts| - 1] + [t.attempts[|t.attempts| - 1]] == t.attempts;
    } else {
      StreakNext(t.attempts, Attempt(v.gate, v.begun, v.startOk));
      var child := Child(o.births, FRESH, v.begun, Period(o.lastSample, v.periodAt));
      ServedShape(o.(child := Some(child), failures := 0, births := o.births + 1), v);
    }
  }

  lemma {:induction false} FailuresAreCounted(ops: seq<Op>, runsChild: bool)
    requires NoClose(ops)
    ensures Counted(Run(NEW_OWNER, ops, runsChild))
  {
    if ops != [] {
      hide Visited, Counted;
      var before, op := ops[..|ops| - 1], ops[|ops| - 1];
      var t := Run(NEW_OWNER, before, runsChild);
      FailuresAreCounted(before, runsChild);
      VisitCounts(t, op.visit, runsChild);
      CountedElsewhere(t, op, runsChild);
    } else {
      hide Visited;
    }
  }

  /** Only the child and the failures are counted; the instant of the sample does not matter. */
  lemma CountedElsewhere(t: Trail, op: Op, runsChild: bool)
    requires Counted(t) && op.Sampling?
    requires
      var r := Visited(t.owner, op.visit, runsChild);
      Counted(Trail(r.owner, t.log + r.events, t.attempts + r.attempts))
    ensures
      var r := Step(t.owner, op, runsChild);
      Counted(Trail(r.owner, t.log + r.events, t.attempts + r.attempts))
  {
    hide Visited, Failures;
    assert t.attempts + [] == t.attempts;
  }

  lemma BackoffIsDelay(failures: nat)
    requires failures >= 1
    ensures Backoff(Capped(failures)) == Delay(failures)
  {
    ShiftFits(Capped(failures));
    if failures > MAX_FAILURES {
      Pow2Monotone(MAX_FAILURES, failures);
    }
  }

  /** A failed start holds the next one back by exactly 2^m s, at most 30 s, after m failures since the child ran. */
  lemma FailedStartRetriedAfterDelay(ops: seq<Op>, v: Visit, runsChild: bool)
    requires NoClose(ops)
    ensures
      var t := Run(NEW_OWNER, ops, runsChild);
      var r := Visited(t.owner, v, runsChild);
      r.attempts != [] && !r.attempts[0].ok ==>
        && Failures(t.attempts + r.attempts) == Failures(t.attempts) + 1
        && r.owner.child.None? && r.owner.retryAt == Some(v.begun + Delay(Failures(t.attempts) + 1))
  {
    hide Run, Served, Backoff, Delay, Failures;
    var t := Run(NEW_OWNER, ops, runsChild);
    FailuresAreCounted(ops, runsChild);
    StreakNext(t.attempts, Attempt(v.gate, v.begun, false));
    BackoffIsDelay(Failures(t.attempts) + 1);
    if t.owner.child.Some? {
      ServedShape(t.owner, v);
    }
  }

  /**
   A child that is lost, be it in the very call that started it, is retried exactly two seconds later:
   losses never add up, however often they happened before.
   */
  lemma LostChildRetriedAfterTwoSeconds(ops: seq<Op>, v: Visit, runsChild: bool)
    ensures
      var o := Run(NEW_OWNER, ops, runsChild).owner;
      var r := Visited(o, v, runsChild);
      (exists id :: Closed(id) in r.events) ==>
        r.owner.child.None? && r.owner.retryAt == Some(v.retryFrom + 2_000_000_000) && r.owner.failures == 1
  {
    hide Fed, Run, Drained, EndsGone, JoinRows;
    RunKeepsBooks(ops, runsChild);
    ShiftFits(1);
  }

  // ----- a child that is lost in the call that starts it, over and over

  function Crash(at: int): Op {
    Sampling(at, true, true, Visit(at, at, at, at, at, at, at, true, [Read([], true)], Err))
  }

  /** The instant of sample k, one every two seconds. */
  function Instant(k: nat): int {
    2_000_000_000 * k
  }

  /** A good start at each of those instants. */
  ghost predicate EveryTwoSeconds(attempts: seq<Attempt>) {
    forall i | 0 <= i < |attempts| :: attempts[i] == Attempt(Instant(i), Instant(i), true)
  }

  lemma EveryTwoSecondsNext(attempts: seq<Attempt>)
    requires EveryTwoSeconds(attempts)
    ensures
      var at := Instant(|attempts|);
      EveryTwoSeconds(attempts + [Attempt(at, at, true)])
  {}

  /** Samples with a child that is gone at its first read. */
  function CrashLoop(n: nat): seq<Op> {
    if n == 0 then [] else CrashLoop(n - 1) + [Crash(Instant(n - 1))]
  }

  lemma CrashIsLost(o: Owner, at: int)
    requires o.child.None? && Due(o.retryAt, at)
    ensures
      var r := Step(o, Crash(at), true);
      && r.owner == Owner(None, Some(at + 2 * SECOND), 1, Some(at), o.births + 1)
      && r.attempts == [Attempt(at, at, true)] && r.events == [Opened(o.births), Used(o.births), Closed(o.births)]
  {
    hide Fed, JoinRows, IsStale;
    ShiftFits(1);
  }

  lemma CrashInOrder(at: int)
    ensures InOrder(Crash(at), at) && Crash(at).Sampling? && Crash(at).visit.retryFrom == at
  {}

  lemma {:induction false} CrashLoopIsClocked(n: nat)
    ensures |CrashLoop(n)| == n && Clocked(CrashLoop(n), 0)
    ensures 0 <= ClockAfter(CrashLoop(n), 0) <= Instant(n)
  {
    if n > 0 {
      hide Crash, InOrder;
      CrashLoopIsClocked(n - 1);
      assert CrashLoop(n)[..n - 1] == CrashLoop(n - 1);
      CrashInOrder(Instant(n - 1));
      LaterInOrder(Crash(Instant(n - 1)), Instant(n - 1), ClockAfter(CrashLoop(n - 1), 0));
    }
  }

  lemma LaterInOrder(op: Op, from: int, earlier: int)
    requires InOrder(op, from) && earlier <= from
    ensures InOrder(op, earlier)
  {}

  /**
   However long that goes on, under a clock that never runs backwards, the delay stays at two seconds: n
   children started and lost in n samples, two seconds apart, and the next is due two seconds later again.
   */
  lemma {:induction false} CrashLoopNeverBacksOff(n: nat)
    ensures
      var t := Run(NEW_OWNER, CrashLoop(n), true);
      && |t.attempts| == n && t.owner.child.None? && t.owner.births == n
      && EveryTwoSeconds(t.attempts)
      && (n == 0 ==> t.owner.retryAt == None)
      && (n > 0 ==> t.owner.failures == 1 && t.owner.retryAt == Some(Instant(n)))
  {
    if n > 0 {
      hide Step, Crash;
      var before, at := CrashLoop(n - 1), Instant(n - 1);
      CrashLoopNeverBacksOff(n - 1);
      assert CrashLoop(n) == before + [Crash(at)];
      RunNext(NEW_OWNER, before, Crash(at), true);
      assert at + 2 * SECOND == Instant(n);
      EveryTwoSecondsNext(Run(NEW_OWNER, before, true).attempts);
      hide CrashLoop, Run, Due, Instant, EveryTwoSeconds;
      FirstIsDue(Run(NEW_OWNER, before, true).owner, at);
      CrashIsLost(Run(NEW_OWNER, before, true).owner, at);
    }
  }

  lemma FirstIsDue(o: Owner, now: int)
    requires o.retryAt == None || o.retryAt == Some(now)
    ensures Due(o.retryAt, now)
  {}

  lemma RunNext(o: Owner, ops: seq<Op>, op: Op, runsChild: bool)
    ensures
      var t := Run(o, ops, runsChild);
      var r := Step(t.owner, op, runsChild);
      Run(o, ops + [op], runsChild) == Trail(r.owner, t.log + r.events, t.attempts + r.attempts)
  {
    hide Step;
    assert (ops + [op])[..|ops|] == ops;
  }
}
