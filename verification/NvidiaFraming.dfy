/**
 What the nvidia-smi framer guarantees: the reports it serves do not depend on where the output was
 cut into chunks, every served report stood in the output, and printing then framing gives the
 newest complete report back.
 */
module NvidiaFraming {
  import opened Wrappers
  import opened Text
  import opened NvidiaStream

  // ----- any chunking, any clock

  /** Feeds chunks in order, each at its own instant. */
  function FedAll(f: Frame, chunks: seq<(string, int)>): Frame
    decreases chunks
  {
    if chunks == [] then f else FedAll(Fed(f, chunks[0].0, chunks[0].1), chunks[1..])
  }

  function Joined(chunks: seq<(string, int)>): string {
    if chunks == [] then [] else chunks[0].0 + Joined(chunks[1..])
  }

  /** A frame without the instant of its last report. */
  function Content(f: Frame): Frame {
    f.(tickAt := None)
  }

  lemma {:induction false} ClockIrrelevant(f: Frame, g: Frame, rows: seq<Row>, now: int, later: int)
    requires Content(f) == Content(g)
    ensures Content(AddRows(f, rows, now)) == Content(AddRows(g, rows, later))
    decreases rows
  {
    if rows != [] {
      ClockIrrelevant(AddRow(f, rows[0], now), AddRow(g, rows[0], later), rows[1..], now, later);
    }
  }

  lemma FedContent(f: Frame, g: Frame, data: string, now: int, later: int)
    requires Content(f) == Content(g)
    ensures Content(Fed(f, data, now)) == Content(Fed(g, data, later))
  {
    ClockIrrelevant(f.(buf := []), g.(buf := []), Rows(f.buf + data), now, later);
  }

  /** The framer's state after any chunks is its state after one feed of the whole text. */
  lemma {:induction false} ChunksIrrelevant(f: Frame, chunks: seq<(string, int)>, now: int)
    requires '\n' !in f.buf
    ensures Content(FedAll(f, chunks)) == Content(Fed(f, Joined(chunks), now))
    decreases chunks
  {
    if chunks == [] {
      FedNothing(f, now);
    } else {
      var (data, at) := chunks[0];
      var g := Fed(f, data, at);
      FramedIsSettled(f.(buf := f.buf + data), at);
      IndexOfFirst(g.buf, '\n');
      ChunksIrrelevant(g, chunks[1..], now);
      FedContent(g, Fed(f, data, now), Joined(chunks[1..]), now, now) by {
        FedContent(f, f, data, at, now);
      }
      FeedingInParts(f, data, Joined(chunks[1..]), now);
    }
  }

  // ----- where a served report comes from

  /** The rows from k on are a report: as many rows as each of them announces. */
  ghost predicate IsReport(rows: seq<Row>, k: nat, report: seq<string>) {
    && report != []
    && k + |report| <= |rows|
    && forall i | 0 <= i < |report| :: rows[k + i] == Some((|report|, report[i]))
  }

  /** The pending rows are the last rows read, all of one unfinished report. */
  ghost predicate PendingEndsRows(f: Frame, rows: seq<Row>) {
    var m := |f.pending|;
    && m <= |rows|
    && (if m == 0 then f.pendingCount == 0 else m < f.pendingCount)
    && forall i | 0 <= i < m :: rows[|rows| - m + i] == Some((f.pendingCount, f.pending[i]))
  }

  /** The tick is a report among the rows, and the rows after it complete no other report. */
  ghost predicate TickIsNewest(f: Frame, rows: seq<Row>, k: nat, now: int) {
    && IsReport(rows, k, f.tick)
    && AddRows(FRESH, rows[k + |f.tick|..], now) == Untouched(f)
  }

  lemma AddRowAtEnd(f: Frame, rows: seq<Row>, now: int)
    requires rows != []
    ensures AddRows(f, rows, now) == AddRow(AddRows(f, rows[..|rows| - 1], now), rows[|rows| - 1], now)
  {
    var n := |rows|;
    assert rows == rows[..n - 1] + [rows[n - 1]];
    AddRowsOfParts(f, rows[..n - 1], [rows[n - 1]], now);
  }

  lemma {:induction false} PendingRows(rows: seq<Row>, now: int)
    ensures PendingEndsRows(AddRows(FRESH, rows, now), rows)
  {
    if rows != [] {
      PendingRows(rows[..|rows| - 1], now);
      AddRowAtEnd(FRESH, rows, now);
    }
  }

  /** The row ends the report being framed. */
  ghost predicate Completes(f: Frame, row: Row) {
    row.Some? && row.value.0 == 1 + (if row.value.0 == f.pendingCount then |f.pending| else 0)
  }

  lemma CompletedReport(rows: seq<Row>, now: int)
    requires rows != [] && Completes(AddRows(FRESH, rows[..|rows| - 1], now), rows[|rows| - 1])
    ensures
      var f := AddRows(FRESH, rows, now);
      f.tickAt == Some(now) && |f.tick| <= |rows| && TickIsNewest(f, rows, |rows| - |f.tick|, now)
  {
    var n := |rows|;
    var before := AddRows(FRESH, rows[..n - 1], now);
    PendingRows(rows[..n - 1], now);
    AddRowAtEnd(FRESH, rows, now);
    AddRowsKeepsBuffer(FRESH, rows, now, []);
    hide AddRows, Completes;
    CompletedIsReport(before, rows, now);
    assert rows[n..] == [];
    NoRows(now);
  }

  lemma NoRows(now: int)
    ensures AddRows(FRESH, [], now) == FRESH
  {}

  /** The row that completes a report completes it with the pending rows before it. */
  lemma CompletedIsReport(before: Frame, rows: seq<Row>, now: int)
    requires rows != [] && PendingEndsRows(before, rows[..|rows| - 1]) && Completes(before, rows[|rows| - 1])
    ensures
      var f := AddRow(before, rows[|rows| - 1], now);
      && |f.tick| <= |rows| && IsReport(rows, |rows| - |f.tick|, f.tick)
      && Untouched(f) == FRESH.(buf := before.buf) && f.tickAt == Some(now)
  {
    var n, f := |rows|, AddRow(before, rows[|rows| - 1], now);
    var (count, data) := rows[n - 1].value;
    if count == before.pendingCount {
      assert f.tick == before.pending + [data];
    } else {
      assert f.tick == [data];
    }
  }

  /** A frame as it was before any report. */
  function Untouched(f: Frame): Frame {
    f.(tick := [], tickAt := None)
  }

  lemma KeptReport(rows: seq<Row>, row: Row, now: int, k: nat)
    requires !Completes(AddRows(FRESH, rows, now), row)
    requires TickIsNewest(AddRows(FRESH, rows, now), rows, k, now)
    ensures TickIsNewest(AddRows(FRESH, rows + [row], now), rows + [row], k, now)
  {
    hide AddRows;
    var before := AddRows(FRESH, rows, now);
    var from := k + |before.tick|;
    var rest := rows[from..];
    AddRowsOfParts(FRESH, rows, [row], now);
    AddRowsOfParts(FRESH, rest, [row], now);
    assert (rows + [row])[from..] == rest + [row];
    var f := AddRow(before, row, now);
    assert f.tick == before.tick;
    assert AddRow(Untouched(before), row, now) == Untouched(f);
    OneRow(before, row, now);
    OneRow(Untouched(before), row, now);
  }

  lemma OneRow(f: Frame, row: Row, now: int)
    ensures AddRows(f, [row], now) == AddRow(f, row, now)
  {
    assert [row][1..] == [];
  }

  /**
   On any text whatever, a served report is n consecutive rows that each announce n, and it is the
   newest one; there is none exactly while no report was completed.
   */
  lemma {:induction false} ServedReportStood(rows: seq<Row>, now: int)
    ensures
      var f := AddRows(FRESH, rows, now);
      && (f.tick != [] ==> exists k :: TickIsNewest(f, rows, k, now))
      && (f.tick == [] <==> f.tickAt == None)
  {
    if rows != [] {
      var rest, row := rows[..|rows| - 1], rows[|rows| - 1];
      var before := AddRows(FRESH, rest, now);
      ServedReportStood(rest, now);
      AddRowAtEnd(FRESH, rows, now);
      if Completes(before, row) {
        CompletedReport(rows, now);
      } else if before.tick != [] {
        var k :| TickIsNewest(before, rest, k, now);
        assert rows == rest + [row];
        KeptReport(rest, row, now, k);
      }
    }
  }

  /** The same for output in chunks: whatever is served stood in the output, n lines that announce n. */
  lemma ServedReportStoodInOutput(chunks: seq<(string, int)>)
    ensures
      var report, rows := FedAll(FRESH, chunks).tick, Rows(Joined(chunks));
      report != [] ==> exists k :: IsReport(rows, k, report)
  {
    hide AddRows, Rows, FedAll, Joined, IsReport;
    var f := Fed(FRESH, Joined(chunks), 0);
    ChunksIrrelevant(FRESH, chunks, 0);
    assert Content(FedAll(FRESH, chunks)).tick == FedAll(FRESH, chunks).tick;
    assert [] + Joined(chunks) == Joined(chunks);
    ServedReportStood(Rows(Joined(chunks)), 0);
  }

  // ----- printing reports, then framing them

  /** The part of a row after its count: trimmed text on one line. */
  predicate WellFormedRow(data: string) {
    TrimSpace(data) == data && '\n' !in data
  }

  predicate WellFormedReport(report: seq<string>) {
    1 <= |report| <= MAX_INT64 && forall i | 0 <= i < |report| :: WellFormedRow(report[i])
  }

  function PrintLine(n: nat, data: string): string {
    Decimal(n) + ", " + data
  }

  /** Rows as nvidia-smi prints them, each behind the size of the report. */
  function PrintRows(n: nat, rows: seq<string>): string {
    if rows == [] then [] else PrintLine(n, rows[0]) + "\n" + PrintRows(n, rows[1..])
  }

  function PrintReport(report: seq<string>): string {
    PrintRows(|report|, report)
  }

  function PrintReports(reports: seq<seq<string>>): string {
    if reports == [] then [] else PrintReport(reports[0]) + PrintReports(reports[1..])
  }

  /** Splitting at the first comma undoes joining with one. */
  lemma RowCountOfParts(digits: string, rest: string)
    requires forall i | 0 <= i < |digits| :: '0' <= digits[i] <= '9'
    ensures
      var count := Atoi(TrimSpace(digits));
      RowCount(digits + "," + rest) ==
        if count.None? || count.value < 1 then None else Some((count.value, TrimSpace(rest)))
  {
    hide Atoi, TrimSpace;
    var s := digits + "," + rest;
    assert s[..|digits|] == digits && s[|digits| + 1..] == rest;
    IndexOfIs(s, ',', |digits|);
  }

  lemma TrimPrinted(n: nat, data: string)
    requires WellFormedRow(data)
    ensures TrimSpace(PrintLine(n, data)) == Decimal(n) + "," + (if data == [] then [] else " " + data)
  {
    hide TrimSpace, Decimal;
    var digits := Decimal(n);
    assert PrintLine(n, data) == digits + "," + " " + data;
    if data == [] {
      TrimTrailingSpace(digits + ",");
      assert PrintLine(n, data) == digits + "," + " ";
    } else {
      TrimPrefixed(digits + ",", data);
      assert digits + "," + " " + data == digits + "," + (" " + data);
    }
  }

  /** Parsing the count undoes printing it. */
  lemma RowCountOfPrinted(n: nat, data: string)
    requires 1 <= n <= MAX_INT64 && WellFormedRow(data)
    ensures
      var line := TrimSpace(PrintLine(n, data));
      line != [] && RowCount(line) == Some((n, data))
  {
    hide Atoi, RowCount;
    var rest := if data == [] then [] else " " + data;
    TrimPrinted(n, data);
    RowCountOfParts(Decimal(n), rest);
    TrimPlain(Decimal(n));
    ParseDecimal(n);
    if data != [] {
      TrimLeadingSpace(data);
    }
  }

  lemma TrimTrailingSpace(s: string)
    requires s != [] && PlainChar(s[0]) && PlainChar(s[|s| - 1])
    ensures TrimSpace(s + " ") == s
  {
    assert SpaceWidth(s + " ") == 0;
    assert (s + " ")[..|s|] == s;
    assert SpaceWidthEnd(s) == 0 && SpaceWidthEnd(s + " ") == 1;
    assert TrimRight(s + " ") == TrimRight(s) == s;
  }

  /** Feeding one line adds its row. */
  lemma FeedLine(f: Frame, text: string, now: int)
    requires f.buf == [] && '\n' !in text && TrimSpace(text) != []
    ensures Fed(f, text + "\n", now) == AddRow(f, RowCount(TrimSpace(text)), now)
  {
    hide TrimSpace, RowCount;
    var g := f.(buf := text + "\n");
    assert f.buf + (text + "\n") == g.buf;
    assert g.buf[..|text|] == text;
    IndexOfIs(g.buf, '\n', |text|);
    FramedIsSettled(g, now);
    var left := TakeLine(g, |text|, now);
    assert left.buf == [];
    assert Framed(g, now) == Framed(left, now) == left;
  }

  lemma FeedPrintedRow(f: Frame, n: nat, data: string, now: int)
    requires f.buf == [] && 1 <= n <= MAX_INT64 && WellFormedRow(data)
    ensures Fed(f, PrintLine(n, data) + "\n", now) == AddRow(f, Some((n, data)), now)
  {
    hide TrimSpace, RowCount;
    RowCountOfPrinted(n, data);
    FeedLine(f, PrintLine(n, data), now);
  }

  /** The frame holds the first rows of an n-row report and nothing else unfinished. */
  predicate Holds(f: Frame, n: nat, rows: seq<string>) {
    f.buf == [] && f.pending == rows && f.pendingCount == (if rows == [] then 0 else n)
  }

  /** The rows that finish a report replace the tick by the whole report. */
  lemma {:induction false} FeedRestOfReport(f: Frame, n: nat, done: seq<string>, rows: seq<string>, now: int)
    requires Holds(f, n, done) && rows != [] && |done| + |rows| == n <= MAX_INT64
    requires forall i | 0 <= i < |rows| :: WellFormedRow(rows[i])
    ensures Fed(f, PrintRows(n, rows), now) == Frame([], [], 0, done + rows, Some(now))
    decreases rows
  {
    hide Fed;
    var first, rest := PrintLine(n, rows[0]) + "\n", PrintRows(n, rows[1..]);
    var g := AddRow(f, Some((n, rows[0])), now);
    FeedPrintedRow(f, n, rows[0], now);
    FeedingInParts(f, first, rest, now);
    if |rows| == 1 {
      assert done + rows == done + [rows[0]];
      FedNothing(g, now);
    } else {
      FeedRestOfReport(g, n, done + [rows[0]], rows[1..], now);
      assert done + [rows[0]] + rows[1..] == done + rows;
    }
  }

  /** Rows that do not finish their report only wait. */
  lemma {:induction false} FeedStartOfReport(f: Frame, n: nat, done: seq<string>, rows: seq<string>, now: int)
    requires Holds(f, n, done) && |done| + |rows| < n <= MAX_INT64
    requires forall i | 0 <= i < |rows| :: WellFormedRow(rows[i])
    ensures
      var g := Fed(f, PrintRows(n, rows), now);
      Holds(g, n, done + rows) && g.tick == f.tick && g.tickAt == f.tickAt
    decreases rows
  {
    hide Fed;
    if rows == [] {
      FedNothing(f, now);
      assert done + rows == done;
    } else {
      FeedPrintedRow(f, n, rows[0], now);
      FeedingInParts(f, PrintLine(n, rows[0]) + "\n", PrintRows(n, rows[1..]), now);
      FeedStartOfReport(AddRow(f, Some((n, rows[0])), now), n, done + [rows[0]], rows[1..], now);
      assert done + [rows[0]] + rows[1..] == done + rows;
    }
  }

  /** A report cut anywhere before its last newline leaves the tick alone. */
  lemma {:induction false} FeedCutReport(f: Frame, n: nat, done: seq<string>, rows: seq<string>, cut: string, now: int)
    requires Holds(f, n, done) && |done| + |rows| == n <= MAX_INT64
    requires forall i | 0 <= i < |rows| :: WellFormedRow(rows[i])
    requires cut < PrintRows(n, rows)
    ensures var g := Fed(f, cut, now); g.tick == f.tick && g.tickAt == f.tickAt
    decreases rows
  {
    var first, rest := PrintLine(n, rows[0]) + "\n", PrintRows(n, rows[1..]);
    if |cut| < |first| {
      assert cut == PrintLine(n, rows[0])[..|cut|];
      assert '\n' !in cut;
      FramedIsSettled(f.(buf := f.buf + cut), now);
    } else {
      assert cut == first + cut[|first|..];
      assert cut[|first|..] < rest;
      FeedPrintedRow(f, n, rows[0], now);
      FeedingInParts(f, first, cut[|first|..], now);
      FeedCutReport(AddRow(f, Some((n, rows[0])), now), n, done + [rows[0]], rows[1..], cut[|first|..], now);
    }
  }

  lemma {:induction false} FeedReports(f: Frame, reports: seq<seq<string>>, now: int)
    requires Holds(f, 0, []) && forall i | 0 <= i < |reports| :: WellFormedReport(reports[i])
    ensures
      var g := Fed(f, PrintReports(reports), now);
      Holds(g, 0, []) && g.tick == if reports == [] then f.tick else reports[|reports| - 1]
    decreases reports
  {
    if reports == [] {
      FedNothing(f, now);
    } else {
      var report := reports[0];
      FeedRestOfReport(f, |report|, [], report, now);
      assert [] + report == report;
      FeedingInParts(f, PrintReport(report), PrintReports(reports[1..]), now);
      FeedReports(Frame([], [], 0, report, Some(now)), reports[1..], now);
    }
  }

  /**
   Printing reports, cutting the next one off at any byte, and framing the text in any chunks serves
   exactly the rows of the last complete report, and nothing while there is none.
   */
  lemma CutOutputServesLastReport(reports: seq<seq<string>>, next: seq<string>, cut: string, chunks: seq<(string, int)>)
    requires forall i | 0 <= i < |reports| :: WellFormedReport(reports[i])
    requires WellFormedReport(next) && cut < PrintReport(next)
    requires Joined(chunks) == PrintReports(reports) + cut
    ensures FedAll(FRESH, chunks).tick == if reports == [] then [] else reports[|reports| - 1]
  {
    var now := 0;
    var g := Fed(FRESH, PrintReports(reports), now);
    FeedReports(FRESH, reports, now);
    FeedCutReport(g, |next|, [], next, cut, now);
    FeedingInParts(FRESH, PrintReports(reports), cut, now);
    ChunksIrrelevant(FRESH, chunks, now);
    assert Content(FedAll(FRESH, chunks)).tick == FedAll(FRESH, chunks).tick;
  }

  lemma {:induction false} PrintRowsOfParts(n: nat, a: seq<string>, b: seq<string>)
    ensures PrintRows(n, a + b) == PrintRows(n, a) + PrintRows(n, b)
  {
    if a == [] {
      assert a + b == b;
    } else {
      assert (a + b)[1..] == a[1..] + b;
      PrintRowsOfParts(n, a[1..], b);
    }
  }

  // ----- a report that stops early, at any byte, and the complete report behind it

  /** The line where the end of cut output and the first line of the next report run together. */
  function JoinedRow(part: string, report: seq<string>): Row
    requires report != []
  {
    RowCount(TrimSpace(part + PrintLine(|report|, report[0])))
  }

  /** A cut inside a count leaves digits, which the next count continues. */
  predicate InsideCount(part: string) {
    part != [] && ',' !in part
  }

  function RunTogether(part: string, report: seq<string>): nat {
    DigitsValue(part + Decimal(|report|), 10)
  }

  lemma TrimJoined(part: string, n: nat, data: string)
    requires part != [] && PlainChar(part[0]) && WellFormedRow(data)
    ensures TrimSpace(part + PrintLine(n, data)) == part + TrimSpace(PrintLine(n, data))
  {
    hide TrimSpace, Decimal;
    TrimPrinted(n, data);
    var head := part + (Decimal(n) + ",");
    if data == [] {
      assert part + PrintLine(n, data) == head + " ";
      TrimTrailingSpace(head);
    } else {
      assert part + PrintLine(n, data) == head + " " + data;
      TrimPrefixed(head, data);
      assert head + " " + data == part + (Decimal(n) + "," + (" " + data));
    }
  }

  /** Cut inside its count, a row takes the next report's count and data, unless that count is too large. */
  lemma JoinedInsideCount(n: nat, part: string, report: seq<string>)
    requires n >= 1 && WellFormedReport(report)
    requires InsideCount(part) && part <= Decimal(n)
    ensures RunTogether(part, report) > |report|
    ensures
      var count := RunTogether(part, report);
      JoinedRow(part, report) == if count > MAX_INT64 then None else Some((count, report[0]))
  {
    hide TrimSpace, RowCount, Decimal;
    var r, data := |report|, report[0];
    var rest := if data == [] then [] else " " + data;
    var digits := part + Decimal(r);
    DecimalPrefixPositive(n, part);
    DecimalValue(r);
    DigitsOfParts(part, Decimal(r));
    TrimJoined(part, r, data);
    TrimPrinted(r, data);
    assert part + TrimSpace(PrintLine(r, data)) == digits + "," + rest;
    RowCountOfParts(digits, rest);
    TrimPlain(digits);
    if data != [] {
      TrimLeadingSpace(data);
    }
    TrimPlain([]);
  }

  /** Cut behind its count, a row keeps that count and swallows the next report's line into its data. */
  lemma JoinedBehindCount(n: nat, x: string, report: seq<string>)
    requires 1 <= n <= MAX_INT64 && WellFormedReport(report)
    ensures
      var data := TrimSpace(x + TrimSpace(PrintLine(|report|, report[0])));
      JoinedRow(Decimal(n) + "," + x, report) == Some((n, data)) && |data| > |report[0]|
  {
    hide TrimSpace, RowCount, Decimal, Atoi, SpaceWidthEnd;
    var part, line := Decimal(n) + "," + x, PrintLine(|report|, report[0]);
    TrimJoined(part, |report|, report[0]);
    TrimPrinted(|report|, report[0]);
    LineIsTrimmed(|report|, report[0]);
    assert part + TrimSpace(line) == Decimal(n) + "," + (x + TrimSpace(line));
    RowCountOfParts(Decimal(n), x + TrimSpace(line));
    TrimPlain(Decimal(n));
    ParseDecimal(n);
    TrimKeepsEnd(x, TrimSpace(line));
  }

  lemma LineIsTrimmed(n: nat, data: string)
    requires WellFormedRow(data)
    ensures
      var line := TrimSpace(PrintLine(n, data));
      line != [] && PlainChar(line[0]) && SpaceWidthEnd(line) == 0
  {
    hide TrimSpace;
    TrimPrinted(n, data);
    if data != [] {
      TrimmedEnds(data);
      TrimPrefixed(Decimal(n) + ",", data);
      assert Decimal(n) + "," + " " + data == TrimSpace(PrintLine(n, data));
      TrimmedEnds(TrimSpace(PrintLine(n, data)));
    }
  }

  /** A row of another count starts afresh. */
  lemma FeedForgetsOther(f: Frame, n: nat, rows: seq<string>, now: int)
    requires f.buf == [] && f.pendingCount != n && 1 <= n <= MAX_INT64 && rows != []
    requires forall i | 0 <= i < |rows| :: WellFormedRow(rows[i])
    ensures Fed(f, PrintRows(n, rows), now) == Fed(f.(pending := [], pendingCount := 0), PrintRows(n, rows), now)
  {
    hide Fed;
    var clean := f.(pending := [], pendingCount := 0);
    var first, rest := PrintLine(n, rows[0]) + "\n", PrintRows(n, rows[1..]);
    FeedPrintedRow(f, n, rows[0], now);
    FeedPrintedRow(clean, n, rows[0], now);
    FeedingInParts(f, first, rest, now);
    FeedingInParts(clean, first, rest, now);
  }

  /** A report stopped after m of its n rows: the tick once a complete report has followed. */
  function TickAfterRows(earlier: seq<string>, n: nat, report: seq<string>): seq<string>
    requires |earlier| < n
  {
    if earlier != [] && n == |report| then earlier + report[..n - |earlier|] else report
  }

  lemma CutBetweenRows(f: Frame, n: nat, earlier: seq<string>, report: seq<string>, now: int)
    requires Holds(f, n, earlier) && |earlier| < n && WellFormedReport(report)
    ensures
      var g := Fed(f, PrintReport(report), now);
      && g.tick == TickAfterRows(earlier, n, report)
      && (Holds(g, 0, []) <==> earlier == [] || n != |report|)
  {
    hide Fed;
    var r, m := |report|, |earlier|;
    if m == 0 {
      FeedRestOfReport(f, r, [], report, now);
      assert [] + report == report;
    } else if n != r {
      FeedForgetsOther(f, r, report, now);
      FeedRestOfReport(f.(pending := [], pendingCount := 0), r, [], report, now);
      assert [] + report == report;
    } else {
      FeedAcross(f, n, earlier, report, now);
    }
  }

  /** Rows of two reports with one count: the first n make up a tick, the others wait. */
  lemma FeedAcross(f: Frame, n: nat, earlier: seq<string>, rows: seq<string>, now: int)
    requires Holds(f, n, earlier) && |earlier| < n <= MAX_INT64 && n - |earlier| <= |rows| < 2 * n - |earlier|
    requires forall i | 0 <= i < |rows| :: WellFormedRow(rows[i])
    ensures
      var g, k := Fed(f, PrintRows(n, rows), now), n - |earlier|;
      g.tick == earlier + rows[..k] && Holds(g, n, rows[k..])
  {
    hide Fed;
    var k := n - |earlier|;
    var a, b := rows[..k], rows[k..];
    assert rows == a + b;
    PrintRowsOfParts(n, a, b);
    FeedRestOfReport(f, n, earlier, a, now);
    FeedingInParts(f, PrintRows(n, a), PrintRows(n, b), now);
    FeedStartOfReport(Fed(f, PrintRows(n, a), now), n, [], b, now);
    assert [] + b == b;
  }

  /**
   The tick once a row run together with the first line of a report, and that report's other rows, have
   followed the first rows of an n-row report. The report itself is not among the cases.
   */
  function TickAfterJoined(tick: seq<string>, n: nat, earlier: seq<string>, row: Row, report: seq<string>)
    : seq<string>
    requires |earlier| < n && report != []
  {
    if row.None? || row.value.0 != n then tick
    else if |earlier| + 1 == n then earlier + [row.value.1]
    else if n == |report| then earlier + [row.value.1] + report[1..n - |earlier|]
    else tick
  }

  lemma CutInsideRow(f: Frame, n: nat, earlier: seq<string>, part: string, report: seq<string>, now: int)
    requires Holds(f, n, earlier) && |earlier| < n <= MAX_INT64 && WellFormedReport(report)
    requires part != [] && '\n' !in part && PlainChar(part[0])
    requires var row := JoinedRow(part, report); row.Some? && row.value.0 != n ==> row.value.0 > |report|
    ensures
      var g, row := Fed(f, part + PrintReport(report), now), JoinedRow(part, report);
      && g.tick == TickAfterJoined(f.tick, n, earlier, row, report)
      && (Holds(g, 0, []) <==>
            || (|report| == 1 && (row.None? || (row.value.0 == n == |earlier| + 1)))
            || (|report| == n && row.Some? && row.value.0 == n && earlier == []))
  {
    hide Fed, RowCount, TrimSpace;
    var r, row, rest := |report|, JoinedRow(part, report), report[1..];
    var line := part + PrintLine(r, report[0]);
    assert part + PrintReport(report) == (line + "\n") + PrintRows(r, rest);
    TrimJoined(part, r, report[0]);
    FeedLine(f, line, now);
    FeedingInParts(f, line + "\n", PrintRows(r, rest), now);
    var mid := AddRow(f, row, now);
    if mid.pending == [] {
      FeedStartOfReport(mid, r, [], rest, now);
      assert [] + rest == rest;
    } else if row.value.0 == n == r {
      assert Holds(mid, n, earlier + [row.value.1]);
      FeedAcross(mid, n, earlier + [row.value.1], rest, now);
      assert earlier + [row.value.1] + rest[..n - |earlier| - 1] == earlier + [row.value.1] + report[1..n - |earlier|];
    } else if rest == [] {
      FedNothing(mid, now);
    } else {
      FeedForgetsOther(mid, r, rest, now);
      FeedStartOfReport(mid.(pending := [], pendingCount := 0), r, [], rest, now);
      assert [] + rest == rest;
    }
  }

  /** Cut output is some whole rows and the start of the next one. */
  lemma {:induction false} CutSplits(n: nat, rows: seq<string>, cut: string) returns (m: nat, part: string)
    requires cut < PrintRows(n, rows)
    ensures m < |rows| && cut == PrintRows(n, rows[..m]) + part && part <= PrintLine(n, rows[m])
    decreases rows
  {
    var first, rest := PrintLine(n, rows[0]) + "\n", PrintRows(n, rows[1..]);
    if |cut| < |first| {
      m, part := 0, cut;
      assert cut == PrintLine(n, rows[0])[..|cut|];
    } else {
      var k, p := CutSplits(n, rows[1..], cut[|first|..]);
      m, part := k + 1, p;
      assert rows[..m] == [rows[0]] + rows[1..][..k];
      assert cut == first + (PrintRows(n, rows[1..][..k]) + part);
    }
  }

  /** Whole rows end in a newline, so what follows the last newline is the row that was cut. */
  lemma TailOfCut(n: nat, rows: seq<string>, part: string)
    requires |rows| < n <= MAX_INT64 && '\n' !in part
    requires forall i | 0 <= i < |rows| :: WellFormedRow(rows[i])
    ensures Tail(PrintRows(n, rows) + part) == part
  {
    FeedStartOfReport(FRESH, n, [], rows, 0);
    assert [] + PrintRows(n, rows) == PrintRows(n, rows);
    TailOfParts(PrintRows(n, rows), part);
    assert [] + part == part;
    IndexOfFirst(part, '\n');
  }

  /** A row cut before its newline is cut inside its count, or keeps its count and comma. */
  lemma CutRow(n: nat, data: string, part: string)
    requires part != [] && part <= PrintLine(n, data) && WellFormedRow(data)
    ensures '\n' !in part && PlainChar(part[0])
    ensures if InsideCount(part) then part <= Decimal(n) else Decimal(n) + "," <= part
  {
    hide Decimal;
    var digits := Decimal(n);
    assert PrintLine(n, data) == digits + "," + " " + data;
    if |part| <= |digits| {
      assert part == digits[..|part|];
    } else {
      assert part[|digits|] == ',' && part[..|digits|] == digits;
    }
  }

  /**
   The tick after a report that stopped after m whole rows and part of the next one, and then a complete
   report. Rows of both reports make it up in three cases: the counts are equal; the row run together
   keeps the count and is the last of its report; or their digits run together into that count.
   */
  function TickAfterCut(tick: seq<string>, next: seq<string>, m: nat, part: string, report: seq<string>)
    : seq<string>
    requires m < |next| && report != []
  {
    if part == [] then TickAfterRows(next[..m], |next|, report)
    else TickAfterJoined(tick, |next|, next[..m], JoinedRow(part, report), report)
  }

  /** The counts of the row run together. */
  lemma JoinedCount(n: nat, data: string, part: string, report: seq<string>)
    requires 1 <= n <= MAX_INT64 && WellFormedRow(data) && WellFormedReport(report)
    requires part != [] && part <= PrintLine(n, data)
    ensures
      var row := JoinedRow(part, report);
      if InsideCount(part) then
        && RunTogether(part, report) > |report|
        && row == if RunTogether(part, report) > MAX_INT64 then None else Some((RunTogether(part, report), report[0]))
      else row.Some? && row.value.0 == n && row.value.1 != report[0]
  {
    hide JoinedRow, RunTogether, TrimSpace, Decimal;
    CutRow(n, data, part);
    if InsideCount(part) {
      JoinedInsideCount(n, part, report);
    } else {
      assert part == Decimal(n) + "," + part[|Decimal(n)| + 1..];
      JoinedBehindCount(n, part[|Decimal(n)| + 1..], report);
    }
  }

  /** What is served after a report that stops anywhere and a complete one, row by row. */
  lemma TruncatedServes(f: Frame, next: seq<string>, m: nat, part: string, report: seq<string>, now: int)
    requires Holds(f, 0, []) && WellFormedReport(next) && WellFormedReport(report)
    requires m < |next| && part <= PrintLine(|next|, next[m])
    ensures
      var g := Fed(f, PrintRows(|next|, next[..m]) + part + PrintReport(report), now);
      && g.tick == TickAfterCut(f.tick, next, m, part, report)
      && (Holds(g, 0, []) && g.tick == report <==>
            || (part == [] && (m == 0 || |next| != |report|))
            || (f.tick == report && CountTooLarge(part, report)))
  {
    hide Fed, JoinedRow, PrintRows, RunTogether;
    var n, earlier := |next|, next[..m];
    var mid := Fed(f, PrintRows(n, earlier), now);
    FeedStartOfReport(f, n, [], earlier, now);
    assert [] + earlier == earlier;
    assert PrintRows(n, earlier) + part + PrintReport(report) == PrintRows(n, earlier) + (part + PrintReport(report));
    FeedingInParts(f, PrintRows(n, earlier), part + PrintReport(report), now);
    if part == [] {
      assert part + PrintReport(report) == PrintReport(report);
      CutBetweenRows(mid, n, earlier, report, now);
    } else {
      CutRow(n, next[m], part);
      JoinedCount(n, next[m], part, report);
      CutInsideRow(mid, n, earlier, part, report, now);
    }
  }

  /** The digits of two counts run together into one that no row can carry, and no other row follows. */
  predicate CountTooLarge(part: string, report: seq<string>) {
    |report| == 1 && InsideCount(part) && RunTogether(part, report) > MAX_INT64
  }

  /**
   A report that stops at any byte, then a complete report, in any chunks: that report is served, with
   nothing left pending, exactly when nothing of the first was printed, or it stopped at the end of a row
   and the counts differ. (Or else, when even the count run together from both is unusable and the same
   readings were the tick before.)
   */
  lemma TruncatedThenComplete(f: Frame, next: seq<string>, cut: string, report: seq<string>,
                              chunks: seq<(string, int)>)
    requires Holds(f, 0, []) && WellFormedReport(next) && WellFormedReport(report)
    requires cut < PrintReport(next) && Joined(chunks) == cut + PrintReport(report)
    ensures
      var g := FedAll(f, chunks);
      Holds(g, 0, []) && g.tick == report <==>
        || cut == []
        || (Tail(cut) == [] && |next| != |report|)
        || (f.tick == report && CountTooLarge(Tail(cut), report))
  {
    hide Fed, FedAll, JoinedRow, TickAfterCut, CountTooLarge;
    var m, part := CutSplits(|next|, next, cut);
    assert '\n' !in part by {
      if part != [] {
        CutRow(|next|, next[m], part);
      }
    }
    TailOfCut(|next|, next[..m], part);
    TruncatedServes(f, next, m, part, report, 0);
    ChunksIrrelevant(f, chunks, 0);
    SameContent(FedAll(f, chunks), Fed(f, Joined(chunks), 0));
    PrintedNotEmpty(|next|, next[..m]);
  }

  lemma SameContent(f: Frame, g: Frame)
    requires Content(f) == Content(g)
    ensures f.buf == g.buf && f.pending == g.pending && f.pendingCount == g.pendingCount && f.tick == g.tick
  {
    assert Content(f).buf == f.buf && Content(f).pending == f.pending;
    assert Content(f).pendingCount == f.pendingCount && Content(f).tick == f.tick;
  }

  lemma PrintedNotEmpty(n: nat, rows: seq<string>)
    ensures PrintRows(n, rows) == [] <==> rows == []
  {}

  // ----- three outputs whose reports are not served alone

  lemma PlainRow(data: string)
    requires Plain(data)
    ensures WellFormedRow(data)
  {
    TrimPlain(data);
  }

  lemma JoinedWholeRow(data: string, report: seq<string>)
    requires Plain(data) && data != [] && WellFormedReport(report)
    ensures JoinedRow(PrintLine(2, data), report) == Some((2, data + TrimSpace(PrintLine(|report|, report[0]))))
  {
    hide TrimSpace, RowCount, Decimal;
    var line := TrimSpace(PrintLine(|report|, report[0]));
    assert PrintLine(2, data) == Decimal(2) + "," + (" " + data);
    JoinedBehindCount(2, " " + data, report);
    LineIsTrimmed(|report|, report[0]);
    assert (" " + data) + line == " " + (data + line);
    EndOfParts(data, line);
    TrimmedEnds(data + line);
    TrimLeadingSpace(data + line);
  }

  /** Cut between two rows, and the next report has two rows as well: the tick mixes them. */
  lemma MixedReport(a: string, b: string, report: seq<string>)
    requires Plain(a) && Plain(b) && WellFormedReport(report) && |report| == 2
    ensures Fed(FRESH, PrintRows(2, [a]) + PrintReport(report), 0).tick == [a, report[0]]
  {
    hide Fed, PrintRows, PrintReport;
    var next := [a, b];
    PlainRow(a);
    PlainRow(b);
    assert next[..1] == [a] && report[..1] == [report[0]];
    TruncatedServes(FRESH, next, 1, [], report, 0);
    assert PrintRows(2, [a]) + [] + PrintReport(report) == PrintRows(2, [a]) + PrintReport(report);
  }

  lemma PlainPair(a: string, b: string)
    requires Plain(a) && Plain(b)
    ensures WellFormedReport([a, b]) && PrintRows(2, []) == [] && PrintLine(2, a) != [] && PrintLine(2, b) != []
  {
    hide TrimSpace, Decimal;
    TrimPlain(a);
    TrimPlain(b);
  }

  lemma NothingPending()
    ensures Holds(FRESH, 0, [])
  {}

  /** Cut before the newline of the second row: the next report's first line joins it, whatever its count. */
  lemma MixedRow(a: string, b: string, report: seq<string>)
    requires Plain(a) && Plain(b) && b != [] && WellFormedReport(report)
    ensures Fed(FRESH, PrintRows(2, [a]) + PrintLine(2, b) + PrintReport(report), 0).tick
      == [a, b + TrimSpace(PrintLine(|report|, report[0]))]
  {
    WellFormedNotEmpty(report);
    hide *;
    PlainPair(a, b);
    NothingPending();
    JoinedWholeRow(b, report);
    SecondRowTick(a, b, PrintLine(2, b), report);
    TruncatedServes(FRESH, [a, b], 1, PrintLine(2, b), report, 0);
    assert [a, b][..1] == [a];
  }

  lemma WellFormedNotEmpty(report: seq<string>)
    requires WellFormedReport(report)
    ensures report != []
  {}

  lemma SecondRowTick(a: string, b: string, part: string, report: seq<string>)
    requires report != [] && part != []
    requires var row := JoinedRow(part, report); row.Some? && row.value.0 == 2
    ensures TickAfterCut(FRESH.tick, [a, b], 1, part, report) == [a, JoinedRow(part, report).value.1]
  {
    hide JoinedRow;
    assert [a, b][..1] == [a];
  }

  /** Cut before the newline of the first row, with nothing pending, and the counts are equal. */
  lemma MixedFirstRow(b: string, c: string, report: seq<string>)
    requires Plain(b) && Plain(c) && b != [] && WellFormedReport(report) && |report| == 2
    ensures Fed(FRESH, PrintLine(2, b) + PrintReport(report), 0).tick
      == [b + TrimSpace(PrintLine(|report|, report[0])), report[1]]
  {
    hide *;
    PlainPair(b, c);
    NothingPending();
    JoinedWholeRow(b, report);
    FirstRowTick(b, c, PrintLine(2, b), report);
    var part := PrintLine(2, b);
    TruncatedServes(FRESH, [b, c], 0, part, report, 0);
    assert [b, c][..0] == [];
    assert PrintRows(2, [b, c][..0]) + part == part;
    assert PrintRows(2, [b, c][..0]) + part == part;
  }

  lemma FirstRowTick(b: string, c: string, part: string, report: seq<string>)
    requires |report| == 2 && part != []
    requires var row := JoinedRow(part, report); row.Some? && row.value.0 == 2
    ensures TickAfterCut(FRESH.tick, [b, c], 0, part, report) == [JoinedRow(part, report).value.1, report[1]]
  {
    hide JoinedRow;
    var data := JoinedRow(part, report).value.1;
    assert [b, c][..0] == [] && [] + [data] + report[1..2] == [data, report[1]];
  }

  lemma PlainReport(report: seq<string>)
    requires 1 <= |report| <= MAX_INT64 && forall i | 0 <= i < |report| :: Plain(report[i])
    ensures WellFormedReport(report)
  {
    forall i | 0 <= i < |report| ensures WellFormedRow(report[i]) {
      PlainRow(report[i]);
    }
  }

  /** The three of them with their bytes. */
  lemma MixedReportExample()
    ensures Fed(FRESH, PrintRows(2, ["a"]) + PrintReport(["x", "y"]), 0).tick == ["a", "x"]
    ensures Fed(FRESH, PrintRows(2, ["a"]) + "2, b" + PrintReport(["x", "y", "z"]), 0).tick == ["a", "b3, x"]
    ensures Fed(FRESH, "2, b" + PrintReport(["x", "y"]), 0).tick == ["b2, x", "y"]
  {
    hide Fed, PrintRows, PrintReport, WellFormedReport, WellFormedRow, TrimSpace;
    var two, three := ["x", "y"], ["x", "y", "z"];
    PlainReport(two);
    PlainReport(three);
    PlainRow("x");
    TrimPrinted(2, "x");
    TrimPrinted(3, "x");
    assert PrintLine(2, "b") == "2, b" && Decimal(2) == "2" && Decimal(3) == "3";
    assert "b" + ("2" + "," + " x") == "b2, x" && "b" + ("3" + "," + " x") == "b3, x";
    assert TrimSpace(PrintLine(2, "x")) == "2" + "," + " x" && TrimSpace(PrintLine(3, "x")) == "3" + "," + " x";
    hide PrintLine;
    MixedReport("a", "b", two);
    MixedRow("a", "b", three);
    MixedFirstRow("b", "c", two);
  }
}
