/**
 What Sample serves over whole runs: the rows of the newest report the running child itself has
 printed since it was started, while they are fresh.
 */
module NvidiaServing {
  import opened Wrappers
  import opened Text
  import opened NvidiaStream
  import opened NvidiaFraming
  import opened NvidiaChild
  import opened NvidiaRuns
  import opened Ledger

  /** What one operation drains from a child, and when. */
  function Said(op: Op): seq<(string, int)> {
    match op
    case Closing => []
    case Sampling(_, _, _, v) => [(Drained(v.script), v.fedAt)]
  }

  /** Everything a run has read from one child: what it said in each operation whose events use that child. */
  function Heard(id: nat, ops: seq<Op>, runsChild: bool): seq<(string, int)> {
    if ops == [] then []
    else
      var before, op := ops[..|ops| - 1], ops[|ops| - 1];
      var events := Step(Run(NEW_OWNER, before, runsChild).owner, op, runsChild).events;
      Heard(id, before, runsChild) + if Used(id) in events then Said(op) else []
  }

  lemma {:induction false} HeardIsUsed(id: nat, ops: seq<Op>, runsChild: bool)
    requires Heard(id, ops, runsChild) != []
    ensures Used(id) in Run(NEW_OWNER, ops, runsChild).log
  {
    hide Step, Said;
    var before := ops[..|ops| - 1];
    if Heard(id, before, runsChild) != [] {
      HeardIsUsed(id, before, runsChild);
    }
  }

  /** Nothing is heard from a child before it starts. */
  lemma UnbornIsSilent(id: nat, ops: seq<Op>, runsChild: bool)
    requires id >= Run(NEW_OWNER, ops, runsChild).owner.births
    ensures Heard(id, ops, runsChild) == []
  {
    hide Run, Heard, Audit;
    if Heard(id, ops, runsChild) != [] {
      HeardIsUsed(id, ops, runsChild);
      RunKeepsBooks(ops, runsChild);
      AuditOrigin(Run(NEW_OWNER, ops, runsChild).log);
      assert false;
    }
  }

  lemma {:induction false} FedAllAtEnd(f: Frame, chunks: seq<(string, int)>, data: string, at: int)
    ensures FedAll(f, chunks + [(data, at)]) == Fed(FedAll(f, chunks), data, at)
    decreases chunks
  {
    hide Fed;
    var all := chunks + [(data, at)];
    if chunks == [] {
      assert all[1..] == [];
    } else {
      assert all[1..] == chunks[1..] + [(data, at)];
      FedAllAtEnd(Fed(f, chunks[0].0, chunks[0].1), chunks[1..], data, at);
    }
  }

  /** What a call does to the frame of the child that survives it. */
  lemma FrameAfterStep(o: Owner, op: Op, runsChild: bool)
    requires Step(o, op, runsChild).owner.child.Some?
    ensures
      var r := Step(o, op, runsChild);
      var c := r.owner.child.value;
      if Used(c.id) in r.events then
        && op.Sampling? && op.readable && op.nvidia
        && if o.child.Some?
           then c == o.child.value.(frame := Fed(o.child.value.frame, Drained(op.visit.script), op.visit.fedAt))
           else c.id == o.births && c.frame == Fed(FRESH, Drained(op.visit.script), op.visit.fedAt)
      else r.owner.child == o.child
  {
    hide Fed, Backoff, Period, JoinRows, Drained, EndsGone, IsStale;
  }

  /** In every reachable state the live child's frame is one framing of all that was heard from it. */
  lemma {:induction false} FrameIsHeard(ops: seq<Op>, runsChild: bool)
    ensures
      var o := Run(NEW_OWNER, ops, runsChild).owner;
      o.child.Some? ==> o.child.value.frame == FedAll(FRESH, Heard(o.child.value.id, ops, runsChild))
  {
    if ops != [] {
      hide Step, Fed, FedAll, Drained;
      var before, op := ops[..|ops| - 1], ops[|ops| - 1];
      var o := Run(NEW_OWNER, before, runsChild).owner;
      var r := Step(o, op, runsChild);
      if r.owner.child.Some? {
        var id := r.owner.child.value.id;
        var heard := Heard(id, before, runsChild);
        FrameIsHeard(before, runsChild);
        FrameAfterStep(o, op, runsChild);
        if Used(id) in r.events {
          if o.child.None? {
            UnbornIsSilent(id, before, runsChild);
            NothingFed();
          }
          FedAllAtEnd(FRESH, heard, Drained(op.visit.script), op.visit.fedAt);
        } else {
          assert heard + [] == heard;
        }
      }
    }
  }

  lemma NothingFed()
    ensures FedAll(FRESH, []) == FRESH
  {}

  // ----- the age of a report

  lemma {:induction false} AddedAt(f: Frame, rows: seq<Row>, now: int)
    ensures AddRows(f, rows, now).tickAt == f.tickAt || AddRows(f, rows, now).tickAt == Some(now)
    decreases rows
  {
    if rows != [] {
      AddedAt(AddRow(f, rows[0], now), rows[1..], now);
    }
  }

  /** A report's instant is that of the read that completed it. */
  lemma {:induction false} TickIsDated(f: Frame, chunks: seq<(string, int)>)
    ensures
      var at := FedAll(f, chunks).tickAt;
      at == f.tickAt || exists i | 0 <= i < |chunks| :: at == Some(chunks[i].1)
    decreases chunks
  {
    if chunks != [] {
      var (data, at) := chunks[0];
      TickIsDated(Fed(f, data, at), chunks[1..]);
      AddedAt(f.(buf := []), Rows(f.buf + data), at);
      assert forall i | 0 <= i < |chunks| - 1 :: chunks[1..][i] == chunks[i + 1];
      assert Fed(f, data, at).tickAt == Some(at) ==> Fed(f, data, at).tickAt == Some(chunks[0].1);
    }
  }

  // ----- the lines of an answer

  predicate OneLine(row: string) {
    '\n' !in row
  }

  lemma TrimKeepsOneLine(s: string)
    requires OneLine(s)
    ensures OneLine(TrimSpace(s))
  {
    TrimLeftKeepsOneLine(s);
    TrimRightKeepsOneLine(TrimLeft(s));
  }

  lemma {:induction false} TrimLeftKeepsOneLine(s: string)
    requires OneLine(s)
    ensures OneLine(TrimLeft(s))
  {
    if SpaceWidth(s) > 0 {
      TrimLeftKeepsOneLine(s[SpaceWidth(s)..]);
    }
  }

  lemma {:induction false} TrimRightKeepsOneLine(s: string)
    requires OneLine(s)
    ensures OneLine(TrimRight(s))
  {
    if SpaceWidthEnd(s) > 0 {
      TrimRightKeepsOneLine(s[..|s| - SpaceWidthEnd(s)]);
    }
  }

  ghost predicate OneLineEach(rows: seq<string>) {
    forall i | 0 <= i < |rows| :: OneLine(rows[i])
  }

  lemma {:induction false} LinesAreLines(s: string)
    ensures OneLineEach(Lines(s))
    decreases |s|
  {
    var i := IndexOf(s, '\n');
    if i >= 0 {
      IndexOfFirst(s, '\n');
      LinesAreLines(s[i + 1..]);
    }
  }

  lemma {:induction false} RowsAreLines(lines: seq<string>)
    requires OneLineEach(lines)
    ensures forall i | 0 <= i < |RowsOf(lines)| :: RowsOf(lines)[i].Some? ==> OneLine(RowsOf(lines)[i].value.1)
  {
    if lines != [] {
      hide TrimSpace, Atoi;
      RowsAreLines(lines[1..]);
      TrimKeepsOneLine(lines[0]);
      var line := TrimSpace(lines[0]);
      if RowCount(line).Some? {
        TrimKeepsOneLine(line[IndexOf(line, ',') + 1..]);
      }
    }
  }

  /** Rows written one line each: reading the lines gives the rows back. */
  lemma {:induction false} LinesOfJoined(rows: seq<string>)
    requires OneLineEach(rows)
    ensures Lines(JoinRows(rows)) == rows && Tail(JoinRows(rows)) == []
  {
    if rows != [] {
      var s, rest := JoinRows(rows), JoinRows(rows[1..]);
      LinesOfJoined(rows[1..]);
      FirstOfJoined(rows[0], rest);
      hide Lines, Tail, IndexOf;
      assert [rows[0]] + rows[1..] == rows;
    }
  }

  lemma FirstOfJoined(row: string, rest: string)
    requires OneLine(row)
    ensures Lines(row + "\n" + rest) == [row] + Lines(rest) && Tail(row + "\n" + rest) == Tail(rest)
  {
    var s := row + "\n" + rest;
    assert s[..|row|] == row && s[|row| + 1..] == rest;
    IndexOfIs(s, '\n', |row|);
    LinesStep(s);
    hide Lines, Tail, IndexOf;
  }

  /** Every row of a report that stood in some output is one line. */
  lemma ReportIsLines(text: string, k: nat, report: seq<string>)
    requires IsReport(Rows(text), k, report)
    ensures OneLineEach(report)
  {
    var rows := Rows(text);
    LinesAreLines(text);
    RowsAreLines(Lines(text));
    forall i | 0 <= i < |report| ensures OneLine(report[i]) {
      assert rows[k + i] == Some((|report|, report[i]));
    }
  }

  /** The answer is text whose lines are exactly these rows, each ended. */
  ghost predicate AnswersRows(answer: Result<string>, rows: seq<string>) {
    answer.Ok? && Lines(answer.value) == rows && Tail(answer.value) == []
  }

  lemma NoReportNoLines()
    ensures OneLineEach([])
  {}

  // ----- what Sample answers

  /** The last sign of life of a child: the instant of its newest report, or of its start. */
  function LastSign(c: Child): int {
    match c.frame.tickAt
    case Some(at) => at
    case None => c.started
  }

  lemma AnsweredByChild(o: Owner, op: Op, runsChild: bool)
    requires op.Sampling? && op.readable && op.nvidia && op.visit.servedAt <= op.visit.staleAt
    requires Step(o, op, runsChild).owner.child.Some?
    ensures
      var r := Step(o, op, runsChild);
      var c := r.owner.child.value;
      && r.rows == Ok(JoinRows(c.frame.tick)) && Used(c.id) in r.events
      && !EndsGone(op.visit.script) && op.visit.servedAt - LastSign(c) <= 2 * c.period
  {
    hide Fed, Backoff, Period, Drained, EndsGone;
    assert JoinRows([]) == [];
  }

  /** A child is given up only when it is gone, or silent for more than two periods. */
  lemma FreshChildIsKept(o: Owner, op: Op, runsChild: bool)
    requires op.Sampling? && op.readable && op.nvidia && o.child.Some?
    ensures
      var r := Step(o, op, runsChild);
      var fed := o.child.value.(frame := Fed(o.child.value.frame, Drained(op.visit.script), op.visit.fedAt));
      && (r.owner.child == Some(fed) || (r.owner.child == None && r.rows == op.visit.smi))
      && (!EndsGone(op.visit.script) && op.visit.staleAt - LastSign(fed) <= 2 * fed.period ==> r.owner.child.Some?)
  {
    hide Fed, Backoff, Period, Drained, EndsGone, JoinRows;
  }

  /**
   After any run, what Sample answers from a running child is its newest report: it stood in that child's
   own output since its start, as n lines that announce n, and it (or the start, before the first report)
   is at most two periods old. No child answers once it is gone or silent for longer, and none is given up
   before: then the one-shot run answers.
   */
  lemma ServedRowsAreFresh(ops: seq<Op>, op: Op, runsChild: bool)
    requires op.Sampling? && op.readable && op.nvidia && op.visit.servedAt <= op.visit.staleAt
    ensures
      var r := Step(Run(NEW_OWNER, ops, runsChild).owner, op, runsChild);
      r.owner.child.Some? ==>
        var c := r.owner.child.value;
        var heard := Heard(c.id, ops + [op], runsChild);
        && c.frame == FedAll(FRESH, heard) && AnswersRows(r.rows, c.frame.tick)
        && (c.frame.tick != [] ==> exists k :: IsReport(Rows(Joined(heard)), k, c.frame.tick))
        && (c.frame.tickAt.Some? ==> exists i | 0 <= i < |heard| :: c.frame.tickAt == Some(heard[i].1))
        && op.visit.servedAt - LastSign(c) <= 2 * c.period && !EndsGone(op.visit.script)
    ensures
      var o := Run(NEW_OWNER, ops, runsChild).owner;
      var r := Step(o, op, runsChild);
      o.child.Some? ==>
        var fed := o.child.value.(frame := Fed(o.child.value.frame, Drained(op.visit.script), op.visit.fedAt));
        && (r.owner.child.None? ==> r.rows == op.visit.smi)
        && (!EndsGone(op.visit.script) && op.visit.staleAt - LastSign(fed) <= 2 * fed.period ==>
              r.owner.child == Some(fed))
  {
    hide Step, FedAll, Heard, Fed, IsReport, Rows, Joined, EndsGone, Lines, Tail, JoinRows, OneLineEach;
    var o := Run(NEW_OWNER, ops, runsChild).owner;
    var r := Step(o, op, runsChild);
    if o.child.Some? {
      FreshChildIsKept(o, op, runsChild);
    }
    assert (ops + [op])[..|ops|] == ops;
    assert Run(NEW_OWNER, ops + [op], runsChild).owner == r.owner;
    if r.owner.child.Some? {
      var heard := Heard(r.owner.child.value.id, ops + [op], runsChild);
      FrameIsHeard(ops + [op], runsChild);
      AnsweredByChild(o, op, runsChild);
      ServedReportStoodInOutput(heard);
      TickIsDated(FRESH, heard);
      var report := r.owner.child.value.frame.tick;
      if report != [] {
        var k :| IsReport(Rows(Joined(heard)), k, report);
        ReportIsLines(Joined(heard), k, report);
      } else {
        NoReportNoLines();
      }
      LinesOfJoined(report);
    }
  }

  /**
   From the child's printer to the sampler's answer: when a running child has printed complete reports and
   part of the next one, read in any pieces over any number of samples, the lines Sample answers are exactly
   the rows of the last complete one, and it answers no line before there is one.
   */
  lemma SampleAnswersLastPrinted(ops: seq<Op>, op: Op, runsChild: bool,
                                 reports: seq<seq<string>>, next: seq<string>, cut: string)
    requires op.Sampling? && op.readable && op.nvidia && op.visit.servedAt <= op.visit.staleAt
    requires forall i | 0 <= i < |reports| :: WellFormedReport(reports[i])
    requires WellFormedReport(next) && cut < PrintReport(next)
    ensures
      var r := Step(Run(NEW_OWNER, ops, runsChild).owner, op, runsChild);
      r.owner.child.Some?
      && Joined(Heard(r.owner.child.value.id, ops + [op], runsChild)) == PrintReports(reports) + cut ==>
        AnswersRows(r.rows, if reports == [] then [] else reports[|reports| - 1])
  {
    hide *;
    var r := Step(Run(NEW_OWNER, ops, runsChild).owner, op, runsChild);
    ServedRowsAreFresh(ops, op, runsChild);
    if r.owner.child.Some? {
      var heard := Heard(r.owner.child.value.id, ops + [op], runsChild);
      if Joined(heard) == PrintReports(reports) + cut {
        CutOutputServesLastReport(reports, next, cut, heard);
      }
    }
  }
}
