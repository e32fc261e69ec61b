/**
 CPU and memory on FreeBSD (freebsd.go). The sums are 64 bits wide and mostly unchecked; Wrap marks
 each operation the code does not check.
 */
module FreeBsd {
  import opened Wrappers
  import opened Text
  import opened Folds
  import opened Quotients

  const STATES: nat := 5
  const IDLE: nat := 4

  /** Five tick counters: user, nice, system, interrupt, idle. */
  type Ticks = seq<nat>

  /** What parsing establishes of a row: five counters whose total fits 64 bits. */
  predicate Bounded(t: Ticks) {
    |t| == STATES && Sum(t) <= MAX_UINT64
  }

  /** The fields are five counters that parse, and their total fits. */
  predicate RowIs(fields: seq<string>, t: Ticks) {
    |fields| == STATES && Bounded(t) && forall i | 0 <= i < STATES :: ParseUint(fields[i]) == Some(t[i])
  }

  /** The row's counters, or Err exactly when there are not five that parse and whose total fits. */
  method ParseTicks(fields: seq<string>) returns (r: Result<Ticks>)
    ensures r.Ok? <==> exists t :: RowIs(fields, t)
    ensures r.Ok? ==> RowIs(fields, r.value)
  {
    hide ParseUint;
    if |fields| != STATES {
      return Err;
    }
    var ticks: Ticks := [];
    var total: nat := 0;
    for i := 0 to |fields|
      invariant |ticks| == i && total == Sum(ticks) <= MAX_UINT64
      invariant forall k | 0 <= k < i :: ParseUint(fields[k]) == Some(ticks[k])
    {
      var value := ParseUint(fields[i]);
      if value.None? {
        return Err;
      }
      ghost var more := ticks + [value.value];
      assert more[..i] == ticks;
      if value.value > MAX_UINT64 - total {
        forall t | |t| == STATES && forall k | 0 <= k < STATES :: ParseUint(fields[k]) == Some(t[k])
          ensures !RowIs(fields, t)
        {
          assert t[..i + 1] == more;
          SumPrefix(t, i + 1);
        }
        return Err;
      }
      total := total + value.value;
      ticks := ticks + [value.value];
    }
    assert RowIs(fields, ticks);
    return Ok(ticks);
  }

  predicate InOrder(previous: Ticks, current: Ticks)
    requires |previous| == |current| == STATES
  {
    forall i | 0 <= i < STATES :: previous[i] <= current[i]
  }

  /** The busy share of the exact, unbounded interval. */
  function UsageOf(previous: Ticks, current: Ticks): Option<real>
    requires |previous| == |current| == STATES
  {
    if !InOrder(previous, current) || Sum(current) <= Sum(previous) then None
    else
      var total, idle := Sum(current) - Sum(previous), current[IDLE] - previous[IDLE];
      Some((total - idle) as real / total as real)
  }

  lemma {:induction false} SumsInOrder(p: seq<nat>, c: seq<nat>)
    requires |p| == |c| && forall i | 0 <= i < |p| :: p[i] <= c[i]
    ensures Sum(p) <= Sum(c)
    ensures forall i | 0 <= i < |p| :: c[i] - p[i] <= Sum(c) - Sum(p)
  {
    if p != [] {
      SumsInOrder(p[..|p| - 1], c[..|c| - 1]);
    }
  }

  /**
   The usage between two rows. Its running sum is unchecked, but because parsing bounds every row it
   never wraps: the result is that of exact arithmetic, and a share between 0 and 1.
   */
  method Usage(previous: Ticks, current: Ticks) returns (usage: Option<real>)
    requires Bounded(previous) && Bounded(current)
    ensures usage == UsageOf(previous, current)
    ensures usage.Some? ==> 0.0 <= usage.value <= 1.0
  {
    var total: nat, idle: nat := 0, 0;
    for i := 0 to |current|
      invariant forall k | 0 <= k < i :: previous[k] <= current[k]
      invariant total == Sum(current[..i]) - Sum(previous[..i]) <= MAX_UINT64
      invariant idle == if i > IDLE then current[IDLE] - previous[IDLE] else 0
    {
      if current[i] < previous[i] {
        return None;
      }
      var delta := current[i] - previous[i];
      SumNext(current, i);
      SumNext(previous, i);
      SumPrefix(current, i + 1);
      total := Wrap(total + delta);
      if i == IDLE {
        idle := delta;
      }
    }
    assert current[..|current|] == current && previous[..|previous|] == previous;
    if total == 0 {
      return None;
    }
    SumsInOrder(previous, current);
    Share(total - idle, total);
    return Some((total - idle) as real / total as real);
  }

  /** The ticks that passed at work, in user, nice, system and interrupt, and the idle ones. */
  function Worked(p: Ticks, c: Ticks): int
    requires |p| == |c| == STATES
  {
    (c[0] + c[1] + c[2] + c[3]) as int - (p[0] + p[1] + p[2] + p[3])
  }

  lemma SumOfFive(t: Ticks)
    requires |t| == STATES
    ensures Sum(t) == t[0] + t[1] + t[2] + t[3] + t[4]
  {
    SumNext(t, 4);
    SumNext(t, 3);
    SumNext(t, 2);
    SumNext(t, 1);
    SumNext(t, 0);
    assert t[..5] == t && t[..0] == [];
  }

  /** A usage is the worked part of all ticks that passed, exactly when no counter ran back and some passed. */
  lemma UsageIsShare(p: Ticks, c: Ticks)
    requires |p| == |c| == 5
    ensures
      var u, worked, idle := UsageOf(p, c), Worked(p, c), c[4] as int - p[4];
      && (u.Some? <==> (forall i | 0 <= i < 5 :: p[i] <= c[i]) && worked + idle > 0)
      && (u.Some? ==> 0.0 <= u.value <= 1.0 && u.value * (worked + idle) as real == worked as real)
  {
    SumOfFive(p);
    SumOfFive(c);
    hide Sum;
    if UsageOf(p, c).Some? {
      Share(Worked(p, c), Worked(p, c) + (c[4] - p[4]));
    }
  }

  /** Idle ticks never raise the usage. */
  lemma IdleNeverRaises(p: Ticks, c: Ticks, more: nat)
    requires |p| == |c| == 5
    ensures
      var d := c[4 := c[4] + more];
      UsageOf(p, c).Some? && UsageOf(p, d).Some? ==> UsageOf(p, d).value <= UsageOf(p, c).value
  {
    hide UsageOf, Sum;
    var d := c[4 := c[4] + more];
    if UsageOf(p, c).Some? && UsageOf(p, d).Some? {
      UsageIsShare(p, c);
      UsageIsShare(p, d);
      var worked, idle := Worked(p, c), c[4] as int - p[4];
      assert Worked(p, d) == worked;
      LargerWhole(UsageOf(p, c).value, UsageOf(p, d).value, worked, worked + idle, worked + idle + more);
    }
  }

  datatype CpuState = CpuState(aggregate: Ticks, cores: seq<Ticks>)

  predicate BoundedState(s: CpuState) {
    Bounded(s.aggregate) && forall i | 0 <= i < |s.cores| :: Bounded(s.cores[i])
  }

  /** The counters of core c in the core row. */
  function CoreFields(cores: seq<string>, c: nat): seq<string>
    requires STATES * (c + 1) <= |cores|
  {
    cores[STATES * c..STATES * (c + 1)]
  }

  /** The aggregate and core rows of a sample are those of this state, with at least one core. */
  ghost predicate RowsAre(aggregate: seq<string>, cores: seq<string>, s: CpuState) {
    && RowIs(aggregate, s.aggregate)
    && s.cores != [] && |cores| == STATES * |s.cores|
    && forall c | 0 <= c < |s.cores| :: RowIs(CoreFields(cores, c), s.cores[c])
  }

  /** Three load averages in braces; isLoad tells which texts are finite numbers that are not negative. */
  predicate IsLoadRow(row: string, isLoad: string -> bool) {
    var load := Fields(TrimChars(row, {' ', '{', '}', '\t'}));
    |load| == 3 && forall i | 0 <= i < 3 :: isLoad(load[i])
  }

  /** The sysctl output is an aggregate row, a core row and a load row that parse, the first two into this state. */
  ghost predicate OutputIs(body: string, isLoad: string -> bool, s: CpuState) {
    var rows := SplitLines(TrimSpace(body));
    |rows| == 3 && RowsAre(Fields(rows[0]), Fields(rows[1]), s) && IsLoadRow(rows[2], isLoad)
  }

  // ----- what sysctl prints

  function Decimals(t: Ticks): seq<string> {
    seq(|t|, i requires 0 <= i < |t| => Decimal(t[i]))
  }

  function AllDecimals(cores: seq<Ticks>): seq<string> {
    if cores == [] then [] else AllDecimals(cores[..|cores| - 1]) + Decimals(cores[|cores| - 1])
  }

  function PrintLoad(load: seq<string>): string {
    "{ " + JoinTokens(load) + " }"
  }

  lemma RowIsPrinted(t: Ticks)
    requires Bounded(t)
    ensures RowIs(Decimals(t), t)
  {
    SumOfFive(t);
    forall i | 0 <= i < STATES ensures ParseUint(Decimals(t)[i]) == Some(t[i]) {
      ParseDecimal(t[i]);
    }
  }

  lemma {:induction false} CoresArePrinted(cores: seq<Ticks>)
    requires forall i | 0 <= i < |cores| :: Bounded(cores[i])
    ensures |AllDecimals(cores)| == STATES * |cores|
    ensures forall c | 0 <= c < |cores| :: CoreFields(AllDecimals(cores), c) == Decimals(cores[c])
  {
    if cores != [] {
      var n := |cores| - 1;
      CoresArePrinted(cores[..n]);
      var before, all := AllDecimals(cores[..n]), AllDecimals(cores);
      forall c | 0 <= c < |cores|
        ensures CoreFields(all, c) == Decimals(cores[c])
      {
        if c < n {
          assert CoreFields(all, c) == CoreFields(before, c);
        } else {
          assert all[STATES * n..STATES * (n + 1)] == Decimals(cores[n]);
        }
      }
    }
  }

  /** The rows as printed are those of the state. */
  lemma PrintedRowsAre(s: CpuState)
    requires BoundedState(s) && s.cores != []
    ensures RowsAre(Decimals(s.aggregate), AllDecimals(s.cores), s)
  {
    hide RowIs;
    RowIsPrinted(s.aggregate);
    CoresArePrinted(s.cores);
    forall c | 0 <= c < |s.cores| ensures RowIs(CoreFields(AllDecimals(s.cores), c), s.cores[c]) {
      RowIsPrinted(s.cores[c]);
    }
  }

  lemma {:induction false} TrimmedOfBraces(s: string)
    requires s != "" && PlainChar(s[0]) && PlainChar(s[|s| - 1])
    requires s[0] !in {'{', '}'} && s[|s| - 1] !in {'{', '}'}
    ensures TrimChars("{ " + s + " }", {' ', '{', '}', '\t'}) == s
  {
    var cut := {' ', '{', '}', '\t'};
    var whole := "{ " + s + " }";
    assert whole[1..][1..] == s + " }";
    assert TrimChars(whole, cut) == TrimChars(s + " }", cut);
    assert (s + " }")[..|s| + 1][..|s|] == s;
    assert TrimChars(s + " }", cut) == TrimChars((s + " }")[..|s| + 1], cut) == TrimChars(s, cut) == s;
  }

  lemma {:induction false} EndsOfJoined(tokens: seq<string>)
    requires tokens != [] && forall i | 0 <= i < |tokens| :: tokens[i] != "" && Plain(tokens[i])
    ensures
      var s := JoinTokens(tokens);
      s != "" && s[0] == tokens[0][0] && s[|s| - 1] == tokens[|tokens| - 1][|tokens[|tokens| - 1]| - 1]
  {
    if |tokens| > 1 {
      EndsOfJoined(tokens[1..]);
    }
  }

  /** The load row as printed is accepted exactly when it lists three numbers. */
  lemma LoadRowIsPrinted(load: seq<string>, isLoad: string -> bool)
    requires load != [] && forall i | 0 <= i < |load| :: load[i] != "" && Plain(load[i])
    requires forall i | 0 <= i < |load| :: '{' !in load[i] && '}' !in load[i]
    ensures IsLoadRow(PrintLoad(load), isLoad) <==> |load| == 3 && isLoad(load[0]) && isLoad(load[1]) && isLoad(load[2])
  {
    hide TrimChars, Fields, JoinTokens;
    EndsOfJoined(load);
    TrimmedOfBraces(JoinTokens(load));
    FieldsOfJoin(load);
  }

  function PrintOutput(s: CpuState, load: seq<string>): string {
    JoinTokens(Decimals(s.aggregate)) + "\n" + JoinTokens(AllDecimals(s.cores)) + "\n" + PrintLoad(load)
  }

  ghost predicate IsDecimal(s: string) {
    exists n: nat :: s == Decimal(n)
  }

  ghost predicate DecimalTokens(tokens: seq<string>) {
    tokens != [] && forall i | 0 <= i < |tokens| :: IsDecimal(tokens[i])
  }

  /** Tokens in digits are plain, and joined they are one line that starts and ends plain. */
  lemma JoinedDecimals(tokens: seq<string>)
    requires DecimalTokens(tokens)
    ensures
      var s := JoinTokens(tokens);
      && Fields(s) == tokens && s != "" && PlainChar(s[0]) && PlainChar(s[|s| - 1]) && '\n' !in s
  {
    hide JoinTokens, Fields, Decimal;
    forall i | 0 <= i < |tokens| ensures tokens[i] != "" && Plain(tokens[i]) {
      var n: nat :| tokens[i] == Decimal(n);
      DecimalPlain(n);
    }
    FieldsOfJoin(tokens);
    EndsOfJoined(tokens);
    JoinedIsOneLine(tokens);
  }

  lemma {:induction false} JoinedIsOneLine(tokens: seq<string>)
    requires forall i | 0 <= i < |tokens| :: Plain(tokens[i])
    ensures '\n' !in JoinTokens(tokens)
  {
    if |tokens| > 1 {
      JoinedIsOneLine(tokens[1..]);
    }
  }

  lemma DecimalsAreTokens(t: Ticks)
    requires t != []
    ensures DecimalTokens(Decimals(t))
  {
    forall i | 0 <= i < |t| ensures IsDecimal(Decimals(t)[i]) {
      assert Decimals(t)[i] == Decimal(t[i]);
    }
  }

  lemma TokensOfParts(a: seq<string>, b: seq<string>)
    requires DecimalTokens(a) && DecimalTokens(b)
    ensures DecimalTokens(a + b)
  {
    hide IsDecimal;
  }

  lemma {:induction false} AllDecimalTokens(cores: seq<Ticks>)
    requires cores != [] && forall i | 0 <= i < |cores| :: Bounded(cores[i])
    ensures DecimalTokens(AllDecimals(cores))
  {
    var n := |cores| - 1;
    hide Decimal, Sum, DecimalTokens, Decimals;
    DecimalsAreTokens(cores[n]);
    if n > 0 {
      AllDecimalTokens(cores[..n]);
      TokensOfParts(AllDecimals(cores[..n]), Decimals(cores[n]));
    } else {
      assert AllDecimals(cores[..n]) == [];
      assert [] + Decimals(cores[n]) == Decimals(cores[n]);
    }
  }

  /**
   Reading undoes printing: whatever a sampler prints of a state is read as that state, and accepted exactly when the
   load row lists three numbers.
   */
  lemma OutputIsPrinted(s: CpuState, load: seq<string>, isLoad: string -> bool)
    requires BoundedState(s) && s.cores != []
    requires load != [] && forall i | 0 <= i < |load| :: load[i] != "" && Plain(load[i])
    requires forall i | 0 <= i < |load| :: '{' !in load[i] && '}' !in load[i]
    ensures OutputIs(PrintOutput(s, load) + "\n", isLoad, s)
            <==> |load| == 3 && isLoad(load[0]) && isLoad(load[1]) && isLoad(load[2])
  {
    hide JoinTokens, Fields, SplitLines, TrimSpace, IsLoadRow, RowsAre, AllDecimals, Decimal, Sum;
    var a, c, l := JoinTokens(Decimals(s.aggregate)), JoinTokens(AllDecimals(s.cores)), PrintLoad(load);
    DecimalsAreTokens(s.aggregate);
    JoinedDecimals(Decimals(s.aggregate));
    AllDecimalTokens(s.cores);
    JoinedDecimals(AllDecimals(s.cores));
    JoinedIsOneLine(load);
    NoSplit(a);
    SplitAtEnd(a, c);
    SplitAtEnd(a + "\n" + c, l);
    TrimNewline(PrintOutput(s, load));
    assert SplitLines(PrintOutput(s, load)) == [a, c, l];
    PrintedRowsAre(s);
    LoadRowIsPrinted(load, isLoad);
  }

  lemma BadCore(aggregate: seq<string>, cores: seq<string>, c: nat)
    requires STATES * (c + 1) <= |cores| && forall t :: !RowIs(CoreFields(cores, c), t)
    ensures forall s :: !RowsAre(aggregate, cores, s)
  {
    hide RowIs;
    forall s: CpuState | |cores| == STATES * |s.cores|
      ensures !RowsAre(aggregate, cores, s)
    {
      assert !RowIs(CoreFields(cores, c), s.cores[c]);
    }
  }

  lemma RowsAreBounded(aggregate: seq<string>, cores: seq<string>, s: CpuState)
    requires RowsAre(aggregate, cores, s)
    ensures BoundedState(s)
  {
    forall c | 0 <= c < |s.cores| ensures Bounded(s.cores[c]) {
      assert RowIs(CoreFields(cores, c), s.cores[c]);
    }
  }

  class CPUSampler {
    var previous: Option<CpuState>

    ghost predicate Valid()
      reads this
    {
      previous.Some? ==> BoundedState(previous.value)
    }

    constructor ()
      ensures Valid() && previous == None
    {
      previous := None;
    }

    /** The counters of the aggregate and core rows, exactly when they parse. */
    method ParseRows(aggregate: seq<string>, cores: seq<string>) returns (r: Result<CpuState>)
      ensures r.Ok? <==> exists s :: RowsAre(aggregate, cores, s)
      ensures r.Ok? ==> RowsAre(aggregate, cores, r.value)
    {
      hide RowIs;
      var total := ParseTicks(aggregate);
      if total.Err? || |cores| == 0 || |cores| % STATES != 0 {
        return Err;
      }
      var current := CpuState(total.value, []);
      for i := 0 to |cores| / STATES
        invariant |current.cores| == i && current.aggregate == total.value
        invariant forall c | 0 <= c < i :: RowIs(CoreFields(cores, c), current.cores[c])
      {
        var core := ParseTicks(CoreFields(cores, i));
        if core.Err? {
          BadCore(aggregate, cores, i);
          return Err;
        }
        current := current.(cores := current.cores + [core.value]);
      }
      assert RowsAre(aggregate, cores, current);
      return Ok(current);
    }

    /**
     One sample from the output of sysctl: accepted exactly when its three rows parse. It then becomes the
     baseline, and each usage is against the same core of the baseline before; else the baseline stays.
     */
    method SampleCPU(body: string, isLoad: string -> bool) returns (r: Result<(Option<real>, seq<Option<real>>)>)
      requires Valid()
      modifies this
      ensures Valid()
      ensures r.Ok? <==> exists s :: OutputIs(body, isLoad, s)
      ensures r.Err? ==> previous == old(previous)
      ensures r.Ok? ==>
                && previous.Some? && OutputIs(body, isLoad, previous.value)
                && var (usage, shares) := r.value;
                   var was, now := old(previous), previous.value;
                   && usage == (if was.Some? then UsageOf(was.value.aggregate, now.aggregate) else None)
                   && |shares| == |now.cores|
                   && forall i | 0 <= i < |shares| ::
                        shares[i] == if was.Some? && i < |was.value.cores|
                                     then UsageOf(was.value.cores[i], now.cores[i]) else None
    {
      hide UsageOf, RowsAre, IsLoadRow, TrimSpace, Fields, SplitLines;
      var rows := SplitLines(TrimSpace(body));
      if |rows| != 3 {
        return Err;
      }
      var parsed := ParseRows(Fields(rows[0]), Fields(rows[1]));
      if parsed.Err? || !IsLoadRow(rows[2], isLoad) {
        return Err;
      }
      var current := parsed.value;
      RowsAreBounded(Fields(rows[0]), Fields(rows[1]), current);
      var usage: Option<real> := None;
      var shares: seq<Option<real>> := [];
      if previous.Some? {
        usage := Usage(previous.value.aggregate, current.aggregate);
      }
      for i := 0 to |current.cores|
        invariant unchanged(this) && |shares| == i
        invariant forall k | 0 <= k < i ::
          shares[k] == if previous.Some? && k < |previous.value.cores|
                       then UsageOf(previous.value.cores[k], current.cores[k]) else None
      {
        var share: Option<real> := None;
        if previous.Some? && i < |previous.value.cores| {
          share := Usage(previous.value.cores[i], current.cores[i]);
        }
        shares := shares + [share];
      }
      assert OutputIs(body, isLoad, current);
      previous := Some(current);
      return Ok((usage, shares));
    }
  }
}
