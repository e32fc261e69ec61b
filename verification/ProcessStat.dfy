/** One /proc/<pid>/stat line (parseProcessStat in process_linux.go). */
module ProcessStat {
  import opened Wrappers
  import opened Text

  datatype Stat = Stat(pid: int, name: string, parentPID: int, cpuTicks: nat, startTimeTicks: nat)

  /** The index of the first a that is followed by b, or -1. */
  function IndexPair(s: string, a: char, b: char): (i: int)
    ensures i == -1 || (0 <= i < |s| - 1 && s[i] == a && s[i + 1] == b)
  {
    if |s| < 2 then -1
    else if s[0] == a && s[1] == b then 0
    else
      var i := IndexPair(s[1..], a, b);
      if i < 0 then -1 else i + 1
  }

  /** The index of the last a that is followed by b, or -1. */
  function LastIndexPair(s: string, a: char, b: char): (i: int)
    ensures i == -1 || (0 <= i < |s| - 1 && s[i] == a && s[i + 1] == b)
  {
    var n := |s|;
    if n < 2 then -1
    else if s[n - 2] == a && s[n - 1] == b then n - 2
    else LastIndexPair(s[..n - 1], a, b)
  }

  function ParseProcessStat(text: string): Result<Stat> {
    var line := TrimSpace(text);
    var open, close := IndexPair(line, ' ', '('), LastIndexPair(line, ')', ' ');
    if open < 1 || close <= open + 2 then Err
    else
      var pid := Atoi(TrimSpace(line[..open]));
      var fields := Fields(line[close + 2..]);
      if pid.None? || pid.value <= 0 || |fields| < 20 then Err
      else FromFields(pid.value, line[open + 2..close], fields)
  }

  function FromFields(pid: int, name: string, fields: seq<string>): Result<Stat>
    requires |fields| >= 20
  {
    var parentPID, userTicks, systemTicks, startTimeTicks :=
      Atoi(fields[1]), ParseUint(fields[11]), ParseUint(fields[12]), ParseUint(fields[19]);
    if parentPID.None? || parentPID.value < 0 || userTicks.None? || systemTicks.None? then Err
    else if userTicks.value + systemTicks.value > MAX_UINT64 then Err
    else if startTimeTicks.None? || startTimeTicks.value == 0 then Err
    else Ok(Stat(pid, name, parentPID.value, userTicks.value + systemTicks.value, startTimeTicks.value))
  }

  // ----- the kernel's side

  /** The fields after the name: numbers and a state letter, never a parenthesis. */
  predicate FieldTokens(fields: seq<string>) {
    |fields| >= 20 && forall i | 0 <= i < |fields| :: fields[i] != [] && Plain(fields[i]) && ')' !in fields[i]
  }

  function PrintStat(pid: nat, name: string, fields: seq<string>): string {
    Decimal(pid) + " (" + name + ") " + JoinTokens(fields) + "\n"
  }

  lemma {:induction false} IndexPairIs(s: string, a: char, b: char, k: nat)
    requires k + 1 < |s| && s[k] == a && s[k + 1] == b && a !in s[..k]
    ensures IndexPair(s, a, b) == k
  {
    if k > 0 {
      assert s[..k] == [s[0]] + s[1..][..k - 1];
      IndexPairIs(s[1..], a, b, k - 1);
    }
  }

  lemma {:induction false} LastIndexPairIs(s: string, a: char, b: char, k: nat)
    requires k + 1 < |s| && s[k] == a && s[k + 1] == b && a !in s[k + 1..]
    ensures LastIndexPair(s, a, b) == k
    decreases |s|
  {
    var n := |s|;
    if k < n - 2 {
      assert s[n - 2] in s[k + 1..];
      assert s[k + 1..] == s[..n - 1][k + 1..] + [s[n - 1]];
      LastIndexPairIs(s[..n - 1], a, b, k);
    }
  }

  lemma {:induction false} JoinShape(tokens: seq<string>)
    requires tokens != [] && forall i | 0 <= i < |tokens| :: tokens[i] != [] && Plain(tokens[i]) && ')' !in tokens[i]
    ensures var s := JoinTokens(tokens); s != [] && PlainChar(s[|s| - 1]) && ')' !in s
  {
    if |tokens| > 1 {
      JoinShape(tokens[1..]);
    }
  }

  /** The parser finds the PID, the name and the fields where the kernel put them. */
  lemma SplitPrinted(pid: nat, name: string, fields: seq<string>)
    requires FieldTokens(fields)
    ensures
      var line := TrimSpace(PrintStat(pid, name, fields));
      var open, close := IndexPair(line, ' ', '('), LastIndexPair(line, ')', ' ');
      && open == |Decimal(pid)| && close == open + 2 + |name|
      && line[..open] == Decimal(pid) && line[open + 2..close] == name && Fields(line[close + 2..]) == fields
  {
    hide TrimSpace, JoinTokens, Fields, IndexPair, LastIndexPair;
    var digits, rest := Decimal(pid), JoinTokens(fields);
    var line := digits + " (" + name + ") " + rest;
    JoinShape(fields);
    FieldsOfJoin(fields);
    TrimNewline(line);
    assert PrintStat(pid, name, fields) == line + "\n";
    var open := |digits|;
    var close := open + 2 + |name|;
    assert line[..open] == digits;
    IndexPairIs(line, ' ', '(', open);
    assert line[close + 2..] == rest;
    assert line[close + 1..] == " " + rest;
    LastIndexPairIs(line, ')', ' ', close);
    assert line[open + 2..close] == name;
  }

  /**
   Parsing undoes printing, for every name, with any parentheses and spaces in it, and every numeric
   field in range: the same PID, name, parent, ticks and start time come back, unless the name is empty,
   the PID or start time is zero, or the ticks overflow; then the line is refused.
   */
  lemma ParseUndoesPrint(pid: nat, name: string, fields: seq<string>, parent: nat, user: nat, system: nat, start: nat)
    requires FieldTokens(fields)
    requires fields[1] == Decimal(parent) && fields[11] == Decimal(user)
    requires fields[12] == Decimal(system) && fields[19] == Decimal(start)
    requires pid <= MAX_INT64 && parent <= MAX_INT64
    requires user <= MAX_UINT64 && system <= MAX_UINT64 && start <= MAX_UINT64
    ensures ParseProcessStat(PrintStat(pid, name, fields)) ==
            if name != "" && pid > 0 && start > 0 && user + system <= MAX_UINT64
            then Ok(Stat(pid, name, parent, user + system, start)) else Err
  {
    hide Fields, TrimSpace, Atoi, IndexPair, LastIndexPair, PrintStat, Decimal, FieldTokens, FromFields;
    SplitPrinted(pid, name, fields);
    TrimPlain(Decimal(pid)) by {
      DecimalPlain(pid);
    }
    ParseDecimal(pid);
    assert |fields| >= 20 by {
      TokensEnough(fields);
    }
    FieldsGiveStat(pid, name, fields, parent, user, system, start);
  }

  lemma TokensEnough(fields: seq<string>)
    requires FieldTokens(fields)
    ensures |fields| >= 20
  {}

  lemma FieldsGiveStat(pid: nat, name: string, fields: seq<string>, parent: nat, user: nat, system: nat, start: nat)
    requires |fields| >= 20
    requires fields[1] == Decimal(parent) && fields[11] == Decimal(user)
    requires fields[12] == Decimal(system) && fields[19] == Decimal(start)
    requires parent <= MAX_INT64 && user <= MAX_UINT64 && system <= MAX_UINT64 && start <= MAX_UINT64
    ensures FromFields(pid, name, fields) ==
            if start > 0 && user + system <= MAX_UINT64 then Ok(Stat(pid, name, parent, user + system, start)) else Err
  {
    hide Atoi, ParseUint, Decimal;
    ParseDecimal(parent);
    ParseDecimal(user);
    ParseDecimal(system);
    ParseDecimal(start);
  }

  /** A line whose numbers are not in digits, or whose parent is negative, is refused. */
  lemma BadFieldsAreRefused(pid: nat, name: string, fields: seq<string>, k: nat, i: nat)
    requires FieldTokens(fields) && k in {11, 12, 19} && i < |fields[k]|
    requires !('0' <= fields[k][i] <= '9')
    ensures ParseProcessStat(PrintStat(pid, name, fields)) == Err
  {
    hide Fields, TrimSpace, Atoi, IndexPair, LastIndexPair, PrintStat, Decimal, FieldTokens;
    SplitPrinted(pid, name, fields);
    TokensEnough(fields);
    assert DigitValue(fields[k][i]) >= 10;
    assert ParseUint(fields[k]) == None;
  }

  lemma NegativeParentIsRefused(pid: nat, name: string, fields: seq<string>, parent: nat)
    requires FieldTokens(fields) && fields[1] == "-" + Decimal(parent) && 0 < parent <= MAX_INT64
    ensures ParseProcessStat(PrintStat(pid, name, fields)) == Err
  {
    hide Fields, TrimSpace, IndexPair, LastIndexPair, PrintStat, Decimal, FieldTokens, ParseUint;
    SplitPrinted(pid, name, fields);
    TokensEnough(fields);
    DecimalValue(parent);
    assert fields[1][1..] == Decimal(parent);
  }
}
