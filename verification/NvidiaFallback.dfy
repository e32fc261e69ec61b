/**
 What GPUSampler does around the nvidia-smi child: the one-shot run that answers while there is none, the
 fault it reports, and the loop period a new child is given.
 */
module NvidiaFallback {
  import opened Wrappers
  import opened NvidiaStream
  import opened NvidiaChild
  import opened NvidiaRuns
  import opened Ledger

  // ----- while no child may be started

  /** Samples that come before an instant. */
  predicate Before(ops: seq<Op>, retryAt: int) {
    forall i | 0 <= i < |ops| :: ops[i].Sampling? && ops[i].visit.gate < retryAt
  }

  /** What a sample answers without a child: the one-shot run's rows, if it lists an NVIDIA GPU at all. */
  function OneShot(op: Op): Result<string>
    requires op.Sampling?
  {
    if !op.readable then Err else if op.nvidia then op.visit.smi else Ok("")
  }

  /** While the next start is held back, the one-shot run answers every sample and no child is touched. */
  lemma {:induction false} OneShotAnswersUntilRetry(o: Owner, ops: seq<Op>, retryAt: int, runsChild: bool)
    requires o.child == None && (runsChild ==> o.retryAt == Some(retryAt) && Before(ops, retryAt))
    requires forall i | 0 <= i < |ops| :: ops[i].Sampling?
    ensures
      var t := Run(o, ops, runsChild);
      && t.log == [] && t.attempts == [] && t.owner.child == None
      && t.owner.retryAt == o.retryAt && t.owner.failures == o.failures
    ensures ops != [] ==>
              var r := Step(Run(o, ops[..|ops| - 1], runsChild).owner, ops[|ops| - 1], runsChild);
              r.rows == OneShot(ops[|ops| - 1]) && !r.fault
  {
    if ops != [] {
      hide Served;
      OneShotAnswersUntilRetry(o, ops[..|ops| - 1], retryAt, runsChild);
    }
  }

  /** After a lost child, or a start that failed, that is so for every sample before the retry instant. */
  lemma OneShotAnswersAfterFault(earlier: seq<Op>, op: Op, ops: seq<Op>, runsChild: bool)
    requires op.Sampling? && op.readable && op.nvidia
    requires
      var r := Step(Run(NEW_OWNER, earlier, runsChild).owner, op, runsChild);
      (r.attempts != [] || r.events != []) && r.owner.child == None
    ensures
      var r := Step(Run(NEW_OWNER, earlier, runsChild).owner, op, runsChild);
      && r.owner.retryAt.Some?
      && (Before(ops, r.owner.retryAt.value) && ops != [] ==>
            Step(Run(r.owner, ops[..|ops| - 1], runsChild).owner, ops[|ops| - 1], runsChild).rows
            == OneShot(ops[|ops| - 1]))
  {
    hide Run, Fed, Backoff, Period, JoinRows, Drained, EndsGone, IsStale;
    var r := Step(Run(NEW_OWNER, earlier, runsChild).owner, op, runsChild);
    if Before(ops, r.owner.retryAt.value) && ops != [] {
      OneShotAnswersUntilRetry(r.owner, ops, r.owner.retryAt.value, runsChild);
    }
  }

  /**
   A fault is reported exactly when a child was lost and the one-shot run answers for it. A failed start, or a DRM
   directory that cannot be read, has no rows.
   */
  lemma FaultsAreReported(o: Owner, op: Op, runsChild: bool)
    requires op.Sampling?
    ensures
      var r := Step(o, op, runsChild);
      && (r.fault <==> op.visit.smi.Ok? && exists id :: Closed(id) in r.events)
      && ((exists id :: Closed(id) in r.events) ==> op.readable && op.nvidia && r.rows == op.visit.smi)
      && (r.attempts != [] && !r.attempts[0].ok ==> r.rows == Err)
      && (!op.readable ==> r.rows == Err)
  {
    hide Fed, Backoff, Period, JoinRows, Drained, EndsGone, IsStale;
    var r := Step(o, op, runsChild);
    if op.readable && r.owner.child == None && (o.child.Some? || (r.attempts != [] && r.attempts[0].ok)) && op.nvidia {
      assert r.events[|r.events| - 1].Closed?;
    }
  }

  // ----- the loop period of a new child

  /** The instant of the last sample of a run that could read the DRM directory. */
  function LastSampleAt(ops: seq<Op>): Option<int> {
    if ops == [] then None
    else
      match ops[|ops| - 1]
      case Sampling(at, true, _, _) => Some(at)
      case _ => LastSampleAt(ops[..|ops| - 1])
  }

  lemma {:induction false} LastSampleIsKept(ops: seq<Op>, runsChild: bool)
    ensures Run(NEW_OWNER, ops, runsChild).owner.lastSample == LastSampleAt(ops)
  {
    if ops != [] {
      var before := ops[..|ops| - 1];
      LastSampleIsKept(before, runsChild);
      KeepsLastSample(Run(NEW_OWNER, before, runsChild).owner, ops[|ops| - 1], runsChild);
      hide Step;
    }
  }

  lemma KeepsLastSample(o: Owner, op: Op, runsChild: bool)
    ensures Step(o, op, runsChild).owner.lastSample
         == match op case Sampling(at, true, _, _) => Some(at) case _ => o.lastSample
  {
    hide Visited;
  }

  /**
   A child started after any run loops at the pace of its consumer: the gap since the last sample, at least half
   a second and at most five; one second when there was none.
   */
  lemma PeriodFollowsConsumer(ops: seq<Op>, v: Visit, runsChild: bool)
    ensures
      var r := Visited(Run(NEW_OWNER, ops, runsChild).owner, v, runsChild);
      r.owner.child.Some? && r.attempts != [] ==>
        var period := r.owner.child.value.period;
        match LastSampleAt(ops)
        case None => period == 1_000_000_000
        case Some(at) =>
          && (500_000_000 <= v.periodAt - at <= 5_000_000_000 ==> period == v.periodAt - at)
          && (v.periodAt - at < 500_000_000 ==> period == 500_000_000)
          && (v.periodAt - at > 5_000_000_000 ==> period == 5_000_000_000)
  {
    hide Run, Fed, Backoff, JoinRows, Drained, EndsGone, IsStale;
    LastSampleIsKept(ops, runsChild);
  }
}
