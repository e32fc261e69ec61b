/** RAM and swap on FreeBSD (parseFreeBSDMemory in freebsd.go). Wrap marks each unchecked operation. */
module FreeBsdMemory {
  import opened Wrappers
  import opened Text
  import opened Folds

  const KILO: nat := 1024

  datatype Capacity = Capacity(total: nat, used: nat, available: nat)

  /** One line of swapinfo: not a device, malformed, or a device's blocks and used blocks. */
  datatype Row = Skipped | Bad | Device(blocks: nat, used: nat)

  predicate HasSuffix(s: string, c: char) {
    s != [] && s[|s| - 1] == c
  }

  function TrimSuffix(s: string, c: char): string {
    if HasSuffix(s, c) then s[..|s| - 1] else s
  }

  /** Reads one line; the numeric columns come from the right, because device paths can contain spaces. */
  function ParseRow(line: string): (r: Row)
    ensures r.Device? ==> r.used <= r.blocks && r.blocks * KILO <= MAX_UINT64
  {
    var fields := Fields(line);
    if fields == [] then Skipped
    else if |fields| < 5 then Bad
    else if fields[0] == "Total" then Skipped
    else
      var row := fields[|fields| - 4..];
      var percent := ParseUint(TrimSuffix(row[3], '%'));
      var blocks, used, avail := ParseUint(row[0]), ParseUint(row[1]), ParseUint(row[2]);
      if percent.None? || !HasSuffix(row[3], '%') || percent.value > 100 then Bad
      else if blocks.None? || used.None? || avail.None? then Bad
      else if used.value > blocks.value || avail.value != blocks.value - used.value then Bad
      else if blocks.value > MAX_UINT64 / KILO then Bad
      else Device(blocks.value, used.value)
  }

  /** A line of swapinfo as it is printed: the device, its blocks, the used and the free ones, and a percentage. */
  function PrintRow(device: seq<string>, blocks: nat, used: nat, avail: nat, percent: nat): seq<string> {
    device + [Decimal(blocks), Decimal(used), Decimal(avail), Decimal(percent) + "%"]
  }

  /**
   Reading a printed line finds the device's blocks, whatever spaces its path has; the line is refused exactly when
   its counters contradict each other, the device is too large, or the percentage is above 100. Totals are skipped.
   */
  lemma ReadsPrintedRow(device: seq<string>, blocks: nat, used: nat, avail: nat, percent: nat)
    requires device != [] && forall i | 0 <= i < |device| :: device[i] != [] && Plain(device[i])
    requires blocks <= MAX_UINT64 && used <= MAX_UINT64 && avail <= MAX_UINT64 && percent <= MAX_UINT64
    ensures ParseRow(JoinTokens(PrintRow(device, blocks, used, avail, percent))) ==
            if device[0] == "Total" then Skipped
            else if used + avail == blocks && blocks * 1024 <= MAX_UINT64 && percent <= 100 then Device(blocks, used)
            else Bad
  {
    hide Fields, JoinTokens, ParseUint, Decimal;
    var tokens := PrintRow(device, blocks, used, avail, percent);
    DecimalPlain(blocks);
    DecimalPlain(used);
    DecimalPlain(avail);
    DecimalPlain(percent);
    FieldsOfJoin(tokens);
    var n := |tokens| - 4;
    assert tokens[n..] == [Decimal(blocks), Decimal(used), Decimal(avail), Decimal(percent) + "%"];
    assert TrimSuffix(Decimal(percent) + "%", '%') == Decimal(percent);
    ParseDecimal(blocks);
    ParseDecimal(used);
    ParseDecimal(avail);
    ParseDecimal(percent);
  }

  /** A blank line is skipped, and one with fewer than five columns refused. */
  lemma ReadsShortRow(tokens: seq<string>)
    requires |tokens| < 5 && forall i | 0 <= i < |tokens| :: tokens[i] != [] && Plain(tokens[i])
    ensures ParseRow(JoinTokens(tokens)) == if tokens == [] then Skipped else Bad
  {
    hide Fields, JoinTokens;
    FieldsOfJoin(tokens);
  }

  function Blocks(lines: seq<string>): nat {
    if lines == [] then 0
    else
      var r := ParseRow(lines[|lines| - 1]);
      Blocks(lines[..|lines| - 1]) + if r.Device? then r.blocks else 0
  }

  function UsedBlocks(lines: seq<string>): nat {
    if lines == [] then 0
    else
      var r := ParseRow(lines[|lines| - 1]);
      UsedBlocks(lines[..|lines| - 1]) + if r.Device? then r.used else 0
  }

  lemma BlocksNext(lines: seq<string>, i: nat)
    requires i < |lines|
    ensures var r := ParseRow(lines[i]);
            && Blocks(lines[..i + 1]) == Blocks(lines[..i]) + (if r.Device? then r.blocks else 0)
            && UsedBlocks(lines[..i + 1]) == UsedBlocks(lines[..i]) + (if r.Device? then r.used else 0)
  {
    hide ParseRow;
    assert lines[..i + 1][..i] == lines[..i];
  }

  lemma {:induction false} BlocksOfPrefix(lines: seq<string>, i: nat)
    requires i <= |lines|
    ensures Blocks(lines[..i]) <= Blocks(lines)
    decreases |lines| - i
  {
    hide ParseRow;
    if i < |lines| {
      BlocksNext(lines, i);
      BlocksOfPrefix(lines, i + 1);
    } else {
      assert lines[..i] == lines;
    }
  }

  /**
   Adds up the swap devices. The running sums never wrap, for any number of lines; the sample is refused
   exactly when some line is malformed or the devices together exceed 64 bits.
   */
  method SumSwap(lines: seq<string>) returns (r: Result<Capacity>)
    ensures r.Ok? <==> (forall i | 0 <= i < |lines| :: ParseRow(lines[i]) != Bad) && Blocks(lines) * 1024 <= MAX_UINT64
    ensures r.Ok? ==> r.value.total == Blocks(lines) * 1024 && r.value.used == UsedBlocks(lines) * 1024
    ensures r.Ok? ==> r.value.used + r.value.available == r.value.total <= MAX_UINT64
  {
    var swapTotal: nat, swapUsed: nat := 0, 0;
    for i := 0 to |lines|
      invariant swapTotal == Blocks(lines[..i]) * KILO <= MAX_UINT64
      invariant swapUsed == UsedBlocks(lines[..i]) * KILO <= swapTotal
      invariant forall k | 0 <= k < i :: ParseRow(lines[k]) != Bad
    {
      var row := ParseRow(lines[i]);
      hide ParseRow;
      BlocksNext(lines, i);
      BlocksOfPrefix(lines, i + 1);
      if row == Bad {
        return Err;
      }
      if row.Device? {
        if swapTotal > MAX_UINT64 - row.blocks * KILO || swapUsed > MAX_UINT64 - row.used * KILO {
          return Err;
        }
        swapTotal := Wrap(swapTotal + row.blocks * KILO);
        swapUsed := Wrap(swapUsed + row.used * KILO);
      }
    }
    assert lines[..|lines|] == lines;
    return Ok(Capacity(swapTotal, swapUsed, swapTotal - swapUsed));
  }

  lemma {:induction false} ProductFits(pages: nat, size: nat)
    requires size > 0
    ensures pages > MAX_UINT64 / size <==> pages * size > MAX_UINT64
  {
    var q := MAX_UINT64 / size;
    assert q * size <= MAX_UINT64 < (q + 1) * size;
    if pages > q {
      assert pages * size >= (q + 1) * size;
    } else {
      assert pages * size <= q * size;
    }
  }

  /**
   RAM from page counts: refused exactly when a count contradicts another or the total exceeds 64 bits;
   otherwise the products are exact, and used and available pages make up the whole.
   */
  method SumPages(pages: nat, size: nat, free: nat, inactive: nat) returns (r: Result<Capacity>)
    requires pages <= MAX_UINT64 && size <= MAX_UINT64 && free <= MAX_UINT64 && inactive <= MAX_UINT64
    ensures r.Ok? <==> pages > 0 && size > 0 && pages * size <= MAX_UINT64 && free + inactive <= pages
    ensures r.Ok? ==> r.value == Capacity(pages * size, (pages - free - inactive) * size, (free + inactive) * size)
  {
    if pages == 0 || size == 0 {
      return Err;
    }
    ProductFits(pages, size);
    if pages > MAX_UINT64 / size || free > pages || inactive > pages - free {
      return Err;
    }
    PartOfPages(pages, free, inactive, size);
    hide Wrap;
    var total := Wrap(pages * size);
    var available := Wrap(Wrap(free + inactive) * size);
    return Ok(Capacity(total, total - available, available));
  }

  lemma PartOfPages(pages: nat, free: nat, inactive: nat, size: nat)
    requires free + inactive <= pages
    ensures (free + inactive) * size <= pages * size
    ensures pages * size - (free + inactive) * size == (pages - free - inactive) * size
  {}

  datatype Memory = Memory(ram: Capacity, swap: Capacity)

  /** The lines of swapinfo after its header, when the header is there. */
  function SwapLines(swap: string): Option<seq<string>> {
    var lines := SplitLines(TrimSpace(swap));
    if lines == [] || !("Device" <= lines[0]) then None else Some(lines[1..])
  }

  /** swapinfo's output: a header, and one line for each device. */
  function PrintSwap(header: string, lines: seq<string>): string {
    if lines == [] then header else PrintSwap(header, lines[..|lines| - 1]) + "\n" + lines[|lines| - 1]
  }

  predicate PrintedLine(line: string) {
    line != "" && '\n' !in line && PlainChar(line[0]) && PlainChar(line[|line| - 1])
  }

  lemma {:induction false} SwapShape(header: string, lines: seq<string>)
    requires PrintedLine(header) && forall i | 0 <= i < |lines| :: PrintedLine(lines[i])
    ensures
      var s := PrintSwap(header, lines);
      s != "" && PlainChar(s[0]) && PlainChar(s[|s| - 1]) && SplitLines(s) == [header] + lines
  {
    if lines == [] {
      NoSplit(header);
    } else {
      var n := |lines| - 1;
      SwapShape(header, lines[..n]);
      SplitAtEnd(PrintSwap(header, lines[..n]), lines[n]);
      assert lines == lines[..n] + [lines[n]];
      assert [header] + lines[..n] + [lines[n]] == [header] + lines;
    }
  }

  /** The lines behind the header of printed output, when the header starts with "Device"; else nothing. */
  lemma SwapLinesOfPrinted(header: string, lines: seq<string>)
    requires PrintedLine(header) && forall i | 0 <= i < |lines| :: PrintedLine(lines[i])
    ensures SwapLines(PrintSwap(header, lines) + "\n") == if "Device" <= header then Some(lines) else None
  {
    hide PrintSwap, SplitLines, TrimSpace, PrintedLine;
    SwapShape(header, lines);
    TrimNewline(PrintSwap(header, lines));
  }

  /** What a list of readings adds up to, device by device. */
  function BlocksOf(r: Row): nat {
    match r case Device(blocks, _) => blocks case _ => 0
  }

  function UsedOf(r: Row): nat {
    match r case Device(_, used) => used case _ => 0
  }

  lemma {:induction false} BlocksAreSums(lines: seq<string>)
    ensures Blocks(lines) == Sum(seq(|lines|, i requires 0 <= i < |lines| => BlocksOf(ParseRow(lines[i]))))
    ensures UsedBlocks(lines) == Sum(seq(|lines|, i requires 0 <= i < |lines| => UsedOf(ParseRow(lines[i]))))
  {
    hide ParseRow;
    if lines != [] {
      var n := |lines| - 1;
      BlocksAreSums(lines[..n]);
      var b, c := seq(n + 1, i requires 0 <= i < n + 1 => BlocksOf(ParseRow(lines[i]))),
                  seq(n, i requires 0 <= i < n => BlocksOf(ParseRow(lines[..n][i])));
      var u, v := seq(n + 1, i requires 0 <= i < n + 1 => UsedOf(ParseRow(lines[i]))),
                  seq(n, i requires 0 <= i < n => UsedOf(ParseRow(lines[..n][i])));
      assert b == c + [BlocksOf(ParseRow(lines[n]))] && u == v + [UsedOf(ParseRow(lines[n]))];
      SumAppend(c, BlocksOf(ParseRow(lines[n])));
      SumAppend(v, UsedOf(ParseRow(lines[n])));
    }
  }

  method ParseMemory(ram: string, swap: string) returns (r: Result<Memory>)
    ensures
      var f, lines := Fields(ram), SwapLines(swap);
      r.Ok? <==>
        && |f| == 4 && (forall i | 0 <= i < 4 :: ParseUint(f[i]).Some?)
        && (var pages, size, free, inactive :=
              ParseUint(f[0]).value, ParseUint(f[1]).value, ParseUint(f[2]).value, ParseUint(f[3]).value;
            pages > 0 && size > 0 && pages * size <= MAX_UINT64 && free + inactive <= pages)
        && lines.Some? && (forall i | 0 <= i < |lines.value| :: ParseRow(lines.value[i]) != Bad)
        && Blocks(lines.value) * 1024 <= MAX_UINT64
    ensures r.Ok? ==>
              var f := Fields(ram);
              var pages, size := ParseUint(f[0]).value, ParseUint(f[1]).value;
              var idle := ParseUint(f[2]).value + ParseUint(f[3]).value;
              r.value.ram.total == pages * size && r.value.ram.available == idle * size
    ensures r.Ok? ==> r.value.swap.total == Blocks(SwapLines(swap).value) * 1024
    ensures r.Ok? ==> r.value.swap.used == UsedBlocks(SwapLines(swap).value) * 1024
    ensures r.Ok? ==> r.value.ram.used + r.value.ram.available == r.value.ram.total <= MAX_UINT64
    ensures r.Ok? ==> r.value.swap.used + r.value.swap.available == r.value.swap.total <= MAX_UINT64
  {
    hide Fields, SwapLines, ParseRow;
    var fields := Fields(ram);
    if |fields| != 4 {
      return Err;
    }
    var counts: seq<nat> := [];
    for i := 0 to 4
      invariant |counts| == i
      invariant forall k | 0 <= k < i :: ParseUint(fields[k]) == Some(counts[k]) && counts[k] <= MAX_UINT64
    {
      var value := ParseUint(fields[i]);
      if value.None? {
        return Err;
      }
      counts := counts + [value.value];
    }
    hide ParseUint;
    var pages := SumPages(counts[0], counts[1], counts[2], counts[3]);
    if pages.Err? {
      return Err;
    }
    var lines := SwapLines(swap);
    if lines.None? {
      return Err;
    }
    var devices := SumSwap(lines.value);
    if devices.Err? {
      return Err;
    }
    PagesAddUp(counts[0], counts[1], counts[2] + counts[3]);
    return Ok(Memory(pages.value, devices.value));
  }

  lemma PagesAddUp(pages: nat, size: nat, available: nat)
    requires available <= pages
    ensures (pages - available) * size + available * size == pages * size
  {}
}
