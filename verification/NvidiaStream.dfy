/**
 The framer for the output of the long-lived nvidia-smi child (gpu_nvidia_linux.go): bytes arrive
 in chunks cut anywhere, each line carries the row count of its report, and the newest complete
 report is served.
 */
module NvidiaStream {
  import opened Wrappers
  import opened Text

  const STALE_FACTOR: nat := 2

  /** The framing fields of nvidiaStream. */
  datatype Frame = Frame(buf: string, pending: seq<string>, pendingCount: nat, tick: seq<string>, tickAt: Option<int>)

  const FRESH := Frame("", [], 0, [], None)

  /** A line with its count prefix parsed off, or None when it carries no count. */
  type Row = r: Option<(nat, string)> | r.Some? ==> r.value.0 >= 1 witness None

  /** Removes and parses the count prefix of a row. */
  function RowCount(row: string): Row {
    var i := IndexOf(row, ',');
    if i < 0 then None
    else
      var count := Atoi(TrimSpace(row[..i]));
      if count.None? || count.value < 1 then None
      else Some((count.value, TrimSpace(row[i + 1..])))
  }

  // ----- batch reading of a whole text

  /** The complete lines of a text, without their newlines. */
  function Lines(s: string): seq<string>
    decreases |s|
  {
    var i := IndexOf(s, '\n');
    if i < 0 then [] else [s[..i]] + Lines(s[i + 1..])
  }

  /** What follows the last newline. */
  function Tail(s: string): string
    decreases |s|
  {
    var i := IndexOf(s, '\n');
    if i < 0 then s else Tail(s[i + 1..])
  }

  /** The rows of some lines: trimmed, without the blank ones, their counts parsed off. */
  function RowsOf(lines: seq<string>): seq<Row> {
    if lines == [] then []
    else
      var line := TrimSpace(lines[0]);
      (if line == [] then [] else [RowCount(line)]) + RowsOf(lines[1..])
  }

  function Rows(s: string): seq<Row> {
    RowsOf(Lines(s))
  }

  /** Adds one row to the report being framed; a row without a count abandons the report. */
  function AddRow(f: Frame, row: Row, now: int): Frame {
    match row
    case None => f.(pending := [], pendingCount := 0)
    case Some((count, data)) =>
      var rows := (if count == f.pendingCount then f.pending else []) + [data];
      if |rows| == count
      then f.(pending := [], pendingCount := 0, tick := rows, tickAt := Some(now))
      else f.(pending := rows, pendingCount := count)
  }

  function AddRows(f: Frame, rows: seq<Row>, now: int): Frame
    decreases rows
  {
    if rows == [] then f else AddRows(AddRow(f, rows[0], now), rows[1..], now)
  }

  /** Batch-reads the buffer: splits it into lines, adds the rows and keeps the unfinished line. */
  function Settled(f: Frame, now: int): Frame {
    AddRows(f.(buf := []), Rows(f.buf), now).(buf := Tail(f.buf))
  }

  /** Reads one text in one go, behind what is buffered. */
  function Fed(f: Frame, data: string, now: int): Frame {
    Settled(f.(buf := f.buf + data), now)
  }

  /** The same, one buffered line at a time. */
  function Framed(f: Frame, now: int): Frame
    decreases |f.buf|
  {
    var i := IndexOf(f.buf, '\n');
    if i < 0 then f else Framed(TakeLine(f, i, now), now)
  }

  /** Takes the line that ends at i off the buffer and adds it unless it is blank. */
  function TakeLine(f: Frame, i: nat, now: int): (g: Frame)
    requires i < |f.buf|
    ensures g.buf == f.buf[i + 1..]
  {
    var line, left := TrimSpace(f.buf[..i]), f.(buf := f.buf[i + 1..]);
    if line == [] then left else AddRow(left, RowCount(line), now)
  }

  // ----- the stream object

  class Stream {
    const period: nat
    const started: int
    var buf: string
    var pending: seq<string>
    var tick: seq<string>
    var pendingCount: nat
    var tickAt: Option<int>
    var gone: bool

    function State(): Frame
      reads this
    {
      Frame(buf, pending, pendingCount, tick, tickAt)
    }

    /** The buffer holds one line that has not ended yet. */
    predicate Valid()
      reads this
    {
      '\n' !in buf
    }

    constructor (period: nat, now: int)
      ensures Valid()
      ensures State() == FRESH && !gone && started == now && this.period == period
    {
      this.period, started := period, now;
      buf, pending, tick, pendingCount, tickAt, gone := [], [], [], 0, None, false;
    }

    /** Frames the rows in one chunk: line by line, the state ends where one batch read would. */
    method Feed(data: string, now: int)
      modifies this
      ensures Valid() && State() == Fed(old(State()), data, now) && gone == old(gone)
    {
      buf := buf + data;
      ghost var all := State();
      while true
        invariant Framed(State(), now) == Framed(all, now)
        invariant gone == old(gone)
        decreases |buf|
      {
        var i := IndexOf(buf, '\n');
        if i < 0 {
          FramedIsSettled(all, now);
          IndexOfFirst(buf, '\n');
          return;
        }
        var line := TrimSpace(buf[..i]);
        buf := buf[i + 1..];
        if |line| == 0 {
          continue;
        }
        AddLine(line, now);
      }
    }

    /** Adds one trimmed line to the report being framed. */
    method AddLine(row: string, now: int)
      modifies this
      ensures State() == AddRow(old(State()), RowCount(row), now) && gone == old(gone)
    {
      var counted := RowCount(row);
      if counted.None? {
        pending := [];
        pendingCount := 0;
        return;
      }
      var count, data := counted.value.0, counted.value.1;
      if count != pendingCount {
        pending := [];
        pendingCount := count;
      }
      pending := pending + [data];
      if |pending| == pendingCount {
        tick := pending;
        pending := [];
        pendingCount := 0;
        tickAt := Some(now);
      }
    }

    /** Reads what the child has written, until it is silent or gone. */
    method Drain(script: seq<Read>, now: int)
      requires Valid()
      modifies this
      ensures Valid() && State() == Fed(old(State()), Drained(script), now)
      ensures gone == (old(gone) || EndsGone(script))
    {
      hide Fed;
      var i := 0;
      FedNothing(State(), now);
      ghost var start := State();
      while i < |script|
        invariant 0 <= i <= |script| && Valid()
        invariant Fed(State(), Drained(script[i..]), now) == Fed(start, Drained(script), now)
        invariant EndsGone(script[i..]) == EndsGone(script) && gone == old(gone)
      {
        var read := script[i];
        ghost var rest := script[i..];
        assert rest[1..] == script[i + 1..];
        ghost var before := State();
        if |read.data| > 0 {
          Feed(read.data, now);
        }
        if read.closed || |read.data| == 0 {
          gone := gone || read.closed;
          FedNothing(State(), now);
          return;
        }
        FeedingInParts(before, read.data, Drained(rest[1..]), now);
        i := i + 1;
      }
      FedNothing(State(), now);
    }

    /**
     Drains the child and serves the newest complete report. The clock is read at fedAt while
     framing and at checkAt for the staleness test.
     */
    method Serve(script: seq<Read>, fedAt: int, checkAt: int) returns (served: Option<string>)
      requires Valid()
      modifies this
      ensures Valid() && State() == Fed(old(State()), Drained(script), fedAt)
      ensures gone == (old(gone) || EndsGone(script))
      ensures served == if tick == [] || Stale(checkAt) then None else Some(JoinRows(tick))
    {
      Drain(script, fedAt);
      if |tick| == 0 || Stale(checkAt) {
        return None;
      }
      served := Some(JoinRows(tick));
    }

    /** The child is gone, or its output stopped moving for more than two periods. */
    predicate Stale(now: int)
      reads this
    {
      gone || IsStale(State(), started, period, now)
    }
  }

  predicate IsStale(f: Frame, started: int, period: nat, now: int) {
    now - (match f.tickAt case Some(at) => at case None => started) > STALE_FACTOR * period
  }

  /** Renders the rows of one report, one line each. */
  function JoinRows(rows: seq<string>): string {
    if rows == [] then [] else rows[0] + "\n" + JoinRows(rows[1..])
  }

  /** One read of the child: the bytes it handed out and whether it ended. */
  datatype Read = Read(data: string, closed: bool)

  /** The bytes drained from a scripted child: up to its first silent or closing read. */
  function Drained(script: seq<Read>): string {
    if script == [] then []
    else if script[0].closed || script[0].data == [] then script[0].data
    else script[0].data + Drained(script[1..])
  }

  predicate EndsGone(script: seq<Read>) {
    script != [] && (script[0].closed || (script[0].data != [] && EndsGone(script[1..])))
  }

  function AllData(script: seq<Read>): string {
    if script == [] then [] else script[0].data + AllData(script[1..])
  }

  /** The read says something and the child lives on. */
  predicate Speaks(r: Read) {
    r.data != [] && !r.closed
  }

  /** Draining reads up to the first read k that is silent or ends the child, that one included, and no further. */
  lemma {:induction false} DrainedUpTo(script: seq<Read>, k: nat)
    requires k <= |script| && forall i | 0 <= i < k :: Speaks(script[i])
    requires k < |script| ==> !Speaks(script[k])
    ensures Drained(script) == AllData(if k < |script| then script[..k + 1] else script)
    ensures EndsGone(script) <==> k < |script| && script[k].closed
  {
    if k > 0 {
      DrainedUpTo(script[1..], k - 1);
      assert k < |script| ==> script[..k + 1][1..] == script[1..][..k];
    } else if script != [] {
      OnlyData(script[0]);
      assert script[..1] == [script[0]];
    }
  }

  lemma OnlyData(r: Read)
    ensures AllData([r]) == r.data
  {
    assert [r][1..] == [];
    assert r.data + [] == r.data;
  }

  // ----- framing does not depend on the chunks

  /** A newline in a splits off the same line in front of any continuation b. */
  lemma FirstLineOfParts(a: string, b: string)
    requires IndexOf(a, '\n') >= 0
    ensures
      var i := IndexOf(a, '\n');
      IndexOf(a + b, '\n') == i && (a + b)[..i] == a[..i] && (a + b)[i + 1..] == a[i + 1..] + b
  {
    var i := IndexOf(a, '\n');
    IndexOfFirst(a, '\n');
    assert (a + b)[..i] == a[..i];
    IndexOfIs(a + b, '\n', i);
  }

  lemma LinesStep(s: string)
    requires IndexOf(s, '\n') >= 0
    ensures var i := IndexOf(s, '\n'); Lines(s) == [s[..i]] + Lines(s[i + 1..]) && Tail(s) == Tail(s[i + 1..])
  {}

  lemma {:induction false} LinesOfParts(a: string, b: string)
    ensures Lines(a + b) == Lines(a) + Lines(Tail(a) + b)
    decreases |a|
  {
    var i := IndexOf(a, '\n');
    if i < 0 {
      assert [] + Lines(a + b) == Lines(a + b);
    } else {
      LinesOfParts(a[i + 1..], b);
      LinesOfPartsStep(a, b);
    }
  }

  lemma LinesOfPartsStep(a: string, b: string)
    requires IndexOf(a, '\n') >= 0
    requires var rest := a[IndexOf(a, '\n') + 1..]; Lines(rest + b) == Lines(rest) + Lines(Tail(rest) + b)
    ensures Lines(a + b) == Lines(a) + Lines(Tail(a) + b)
  {
    FirstLineOfParts(a, b);
    LinesStep(a);
    LinesStep(a + b);
    hide *;
    var i := IndexOf(a, '\n');
    var line, rest := a[..i], a[i + 1..];
    assert [line] + (Lines(rest) + Lines(Tail(rest) + b)) == ([line] + Lines(rest)) + Lines(Tail(rest) + b);
  }

  lemma {:induction false} TailOfParts(a: string, b: string)
    ensures Tail(a + b) == Tail(Tail(a) + b)
    decreases |a|
  {
    var i := IndexOf(a, '\n');
    if i >= 0 {
      FirstLineOfParts(a, b);
      TailOfParts(a[i + 1..], b);
    }
  }

  lemma {:induction false} RowsOfParts(a: seq<string>, b: seq<string>)
    ensures RowsOf(a + b) == RowsOf(a) + RowsOf(b)
  {
    if a == [] {
      assert a + b == b;
    } else {
      assert (a + b)[1..] == a[1..] + b;
      RowsOfParts(a[1..], b);
    }
  }

  lemma {:induction false} AddRowsOfParts(f: Frame, a: seq<Row>, b: seq<Row>, now: int)
    ensures AddRows(f, a + b, now) == AddRows(AddRows(f, a, now), b, now)
    decreases a
  {
    if a == [] {
      assert a + b == b;
    } else {
      assert (a + b)[1..] == a[1..] + b;
      AddRowsOfParts(AddRow(f, a[0], now), a[1..], b, now);
    }
  }

  /** Adding rows neither reads nor moves the buffer. */
  lemma {:induction false} AddRowsKeepsBuffer(f: Frame, rows: seq<Row>, now: int, buf: string)
    ensures AddRows(f.(buf := buf), rows, now) == AddRows(f, rows, now).(buf := buf)
    decreases rows
  {
    if rows == [] {
    } else {
      AddRowsKeepsBuffer(AddRow(f, rows[0], now), rows[1..], now, buf);
    }
  }

  lemma RowsStep(s: string)
    requires IndexOf(s, '\n') >= 0
    ensures
      var i := IndexOf(s, '\n');
      var line := TrimSpace(s[..i]);
      && Rows(s) == (if line == [] then [] else [RowCount(line)]) + Rows(s[i + 1..])
      && Tail(s) == Tail(s[i + 1..])
  {
    LinesStep(s);
    hide Lines, Tail, IndexOf, TrimSpace, RowCount;
    assert Lines(s)[1..] == Lines(s[IndexOf(s, '\n') + 1..]);
  }

  lemma AddRowsStep(f: Frame, row: Row, rows: seq<Row>, now: int)
    ensures AddRows(f, [row] + rows, now) == AddRows(AddRow(f, row, now), rows, now)
  {
    assert ([row] + rows)[1..] == rows;
  }

  /** Taking one line off the buffer first changes nothing for a batch read. */
  lemma SettledStep(f: Frame, i: nat, now: int)
    requires i == IndexOf(f.buf, '\n')
    ensures Settled(f, now) == Settled(TakeLine(f, i, now), now)
  {
    hide TrimSpace, RowCount, Rows, Tail;
    var line, left := TrimSpace(f.buf[..i]), TakeLine(f, i, now);
    RowsStep(f.buf);
    if line == [] {
      assert [] + Rows(left.buf) == Rows(left.buf);
    } else {
      AddRowsStep(f.(buf := []), RowCount(line), Rows(left.buf), now);
      assert left.(buf := []) == AddRow(f.(buf := []), RowCount(line), now);
    }
  }

  lemma SettledDone(f: Frame, now: int)
    requires IndexOf(f.buf, '\n') < 0
    ensures Settled(f, now) == f
  {}

  /** Line-by-line framing and batch reading agree. */
  lemma {:induction false} FramedIsSettled(f: Frame, now: int)
    ensures Framed(f, now) == Settled(f, now)
    ensures IndexOf(Framed(f, now).buf, '\n') < 0
    decreases |f.buf|
  {
    hide Settled, TakeLine, IndexOf;
    var i := IndexOf(f.buf, '\n');
    if i >= 0 {
      InRange(f.buf);
      FramedIsSettled(TakeLine(f, i, now), now);
      SettledStep(f, i, now);
    } else {
      SettledDone(f, now);
    }
  }

  lemma InRange(s: string)
    ensures IndexOf(s, '\n') < |s|
  {}

  lemma FedNothing(f: Frame, now: int)
    requires '\n' !in f.buf
    ensures Fed(f, [], now) == f
  {
    assert f.buf + [] == f.buf;
  }

  lemma FeedingInParts(f: Frame, a: string, b: string, now: int)
    ensures Fed(Fed(f, a, now), b, now) == Fed(f, a + b, now)
  {
    var x := f.buf + a;
    assert f.buf + (a + b) == x + b;
    LinesOfParts(x, b);
    TailOfParts(x, b);
    RowsOfParts(Lines(x), Lines(Tail(x) + b));
    AddRowsOfParts(f.(buf := []), Rows(x), Rows(Tail(x) + b), now);
    AddRowsKeepsBuffer(f.(buf := []), Rows(x), now, []);
  }
}
