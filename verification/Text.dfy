/**
 The parts of Go's bytes, strings and strconv packages that the collectors' parsers use.
 A Go byte string is a Dafny string with one character per byte.
 */
module Text {
  import opened Wrappers

  const MAX_UINT64: nat := 0xFFFF_FFFF_FFFF_FFFF
  const MAX_INT64: nat := 0x7FFF_FFFF_FFFF_FFFF
  const TWO_POW_64: nat := 0x1_0000_0000_0000_0000

  /** What a uint64 holds after an unchecked sum or product. */
  function Wrap(n: nat): (w: nat)
    ensures w <= MAX_UINT64
    ensures n <= MAX_UINT64 ==> w == n
  {
    n % TWO_POW_64
  }

  lemma WrapSum(a: nat, b: nat)
    ensures Wrap(Wrap(a) + b) == Wrap(a + b)
  {}

  /** The one-byte white space characters of unicode.IsSpace. */
  predicate AsciiSpace(c: char) {
    c == ' ' || c == '\t' || c == '\n' || c == '\r' || c == '\U{0B}' || c == '\U{0C}'
  }

  /** U+0085 and U+00A0, in UTF-8. */
  predicate Space2(a: char, b: char) {
    a == '\U{C2}' && (b == '\U{85}' || b == '\U{A0}')
  }

  /** U+1680, U+2000..U+200A, U+2028, U+2029, U+202F, U+205F and U+3000, in UTF-8. */
  predicate Space3(a: char, b: char, c: char) {
    || (a == '\U{E1}' && b == '\U{9A}' && c == '\U{80}')
    || (a == '\U{E2}' && b == '\U{80}'
        && ('\U{80}' <= c <= '\U{8A}' || c == '\U{A8}' || c == '\U{A9}' || c == '\U{AF}'))
    || (a == '\U{E2}' && b == '\U{81}' && c == '\U{9F}')
    || (a == '\U{E3}' && b == '\U{80}' && c == '\U{80}')
  }

  /** How many bytes of white space start s: the width of its first rune when that is a space, else 0. */
  function SpaceWidth(s: string): (w: nat)
    ensures w <= |s|
  {
    if |s| >= 1 && AsciiSpace(s[0]) then 1
    else if |s| >= 2 && Space2(s[0], s[1]) then 2
    else if |s| >= 3 && Space3(s[0], s[1], s[2]) then 3
    else 0
  }

  /** How many bytes of white space end s. */
  function SpaceWidthEnd(s: string): (w: nat)
    ensures w <= |s|
  {
    var n := |s|;
    if n >= 1 && AsciiSpace(s[n - 1]) then 1
    else if n >= 2 && Space2(s[n - 2], s[n - 1]) then 2
    else if n >= 3 && Space3(s[n - 3], s[n - 2], s[n - 1]) then 3
    else 0
  }

  function TrimLeft(s: string): string
  {
    if SpaceWidth(s) == 0 then s else TrimLeft(s[SpaceWidth(s)..])
  }

  function TrimRight(s: string): string
  {
    if SpaceWidthEnd(s) == 0 then s else TrimRight(s[..|s| - SpaceWidthEnd(s)])
  }

  function TrimSpace(s: string): string {
    TrimRight(TrimLeft(s))
  }

  /** strings.Trim with a cutset. */
  function TrimChars(s: string, cut: set<char>): string {
    if s == [] then s
    else if s[0] in cut then TrimChars(s[1..], cut)
    else if s[|s| - 1] in cut then TrimChars(s[..|s| - 1], cut)
    else s
  }

  /** The index of the first c from k on, or -1. */
  function IndexFrom(s: string, c: char, k: nat): (i: int)
    requires k <= |s|
    ensures i == -1 || (k <= i < |s| && s[i] == c)
    decreases |s| - k
  {
    if k == |s| then -1 else if s[k] == c then k else IndexFrom(s, c, k + 1)
  }

  /** The index of the first c in s, or -1. */
  function IndexOf(s: string, c: char): int {
    IndexFrom(s, c, 0)
  }

  lemma {:induction false} IndexFromIs(s: string, c: char, k: nat, i: nat)
    requires k <= i < |s| && s[i] == c && forall j | k <= j < i :: s[j] != c
    ensures IndexFrom(s, c, k) == i
    decreases i - k
  {
    if k < i {
      IndexFromIs(s, c, k + 1, i);
    }
  }

  lemma IndexOfIs(s: string, c: char, i: nat)
    requires i < |s| && s[i] == c && c !in s[..i]
    ensures IndexOf(s, c) == i
  {
    assert forall j | 0 <= j < i :: s[j] == s[..i][j];
    IndexFromIs(s, c, 0, i);
  }

  /** Nothing before the index is a c, and with no index nothing is. */
  lemma {:induction false} IndexFromFirst(s: string, c: char, k: nat)
    requires k <= |s|
    ensures
      var i := IndexFrom(s, c, k);
      forall j | k <= j < (if i < 0 then |s| else i) :: s[j] != c
    decreases |s| - k
  {
    if k < |s| && s[k] != c {
      IndexFromFirst(s, c, k + 1);
    }
  }

  lemma IndexOfFirst(s: string, c: char)
    ensures var i := IndexOf(s, c); if i < 0 then c !in s else c !in s[..i]
  {
    IndexFromFirst(s, c, 0);
  }

  /** How many bytes precede the first white space of s. */
  function TokenLength(s: string): (n: nat)
    ensures n <= |s|
    ensures s != [] && SpaceWidth(s) == 0 ==> n > 0
  {
    if s == [] || SpaceWidth(s) > 0 then 0 else 1 + TokenLength(s[1..])
  }

  /** The white-space separated tokens of s, as strings.Fields splits them. */
  function Fields(s: string): seq<string>
    decreases |s|
  {
    if s == [] then []
    else if SpaceWidth(s) > 0 then Fields(s[SpaceWidth(s)..])
    else [s[..TokenLength(s)]] + Fields(s[TokenLength(s)..])
  }

  /** The lines of a text, split at every newline. */
  function SplitLines(s: string): seq<string>
    decreases |s|
  {
    var i := IndexOf(s, '\n');
    if i < 0 then [s] else [s[..i]] + SplitLines(s[i + 1..])
  }

  // ----- numbers

  /** The value of a digit in bases up to 16. */
  function DigitValue(c: char): (d: nat) {
    if '0' <= c <= '9' then c as int - '0' as int
    else if 'a' <= c <= 'f' then c as int - 'a' as int + 10
    else if 'A' <= c <= 'F' then c as int - 'A' as int + 10
    else 16
  }

  predicate AllDigits(s: string, base: nat) {
    s != [] && forall i | 0 <= i < |s| :: DigitValue(s[i]) < base
  }

  /** The number a digit string denotes, most significant digit first. */
  function DigitsValue(s: string, base: nat): nat {
    if s == [] then 0 else DigitsValue(s[..|s| - 1], base) * base + DigitValue(s[|s| - 1])
  }

  /** strconv.ParseUint with an explicit base and a largest value: digits only, no sign. */
  function ParseUintBase(s: string, base: nat, largest: nat): Option<nat> {
    if AllDigits(s, base) && DigitsValue(s, base) <= largest then Some(DigitsValue(s, base)) else None
  }

  function ParseUint(s: string): Option<nat> {
    ParseUintBase(s, 10, MAX_UINT64)
  }

  /** strconv.Atoi: an optional sign, then decimal digits within int64. */
  function Atoi(s: string): Option<int> {
    if s != [] && s[0] == '-' then
      var magnitude := ParseUintBase(s[1..], 10, MAX_INT64 + 1);
      if magnitude.Some? then Some(0 - magnitude.value as int) else None
    else
      ParseUintBase(if s != [] && s[0] == '+' then s[1..] else s, 10, MAX_INT64)
  }

  function DigitChar(d: nat): char
    requires d < 10
  {
    ('0' as int + d) as char
  }

  /** The decimal form of n, as the kernel and nvidia-smi print it. */
  function Decimal(n: nat): (s: string)
    ensures s != [] && forall i | 0 <= i < |s| :: '0' <= s[i] <= '9'
  {
    if n < 10 then [DigitChar(n)] else Decimal(n / 10) + [DigitChar(n % 10)]
  }

  lemma {:induction false} DecimalValue(n: nat)
    ensures AllDigits(Decimal(n), 10) && DigitsValue(Decimal(n), 10) == n
  {
    var s := Decimal(n);
    if n < 10 {
      assert s[..0] == [];
    } else {
      DecimalValue(n / 10);
      assert s[..|s| - 1] == Decimal(n / 10);
    }
  }

  /** Parsing undoes printing, for both number parsers. */
  lemma ParseDecimal(n: nat)
    ensures n <= MAX_UINT64 ==> ParseUint(Decimal(n)) == Some(n)
    ensures n <= MAX_INT64 ==> Atoi(Decimal(n)) == Some(n)
  {
    DecimalValue(n);
  }

  // ----- trimming

  /** Printable ASCII without the space. */
  predicate PlainChar(c: char) {
    '!' <= c <= '~'
  }

  /** Plain text. */
  predicate Plain(s: string) {
    forall i | 0 <= i < |s| :: PlainChar(s[i])
  }

  lemma DecimalPlain(n: nat)
    ensures Plain(Decimal(n))
  {}

  lemma TrimPlain(s: string)
    requires Plain(s)
    ensures TrimSpace(s) == s
  {}

  lemma {:induction false} TrimLeftShorter(s: string)
    ensures if SpaceWidth(s) == 0 then TrimLeft(s) == s else |TrimLeft(s)| < |s|
  {
    if SpaceWidth(s) > 0 {
      TrimLeftShorter(s[SpaceWidth(s)..]);
    }
  }

  lemma {:induction false} TrimRightShorter(s: string)
    ensures if SpaceWidthEnd(s) == 0 then TrimRight(s) == s else |TrimRight(s)| < |s|
  {
    if SpaceWidthEnd(s) > 0 {
      TrimRightShorter(s[..|s| - SpaceWidthEnd(s)]);
    }
  }

  /** Text is trimmed exactly when it neither starts nor ends with white space. */
  lemma TrimmedEnds(s: string)
    ensures TrimSpace(s) == s <==> SpaceWidth(s) == 0 && SpaceWidthEnd(s) == 0
  {
    TrimLeftShorter(s);
    TrimRightShorter(TrimLeft(s));
  }

  /** A leading space disappears in front of trimmed text. */
  lemma TrimLeadingSpace(s: string)
    requires TrimSpace(s) == s
    ensures TrimSpace(" " + s) == s
  {
    TrimmedEnds(s);
    assert (" " + s)[1..] == s;
  }

  /** Text that starts plain keeps its end behind anything. */
  lemma EndOfParts(x: string, s: string)
    requires s != [] && PlainChar(s[0]) && SpaceWidthEnd(s) == 0
    ensures SpaceWidthEnd(x + s) == 0
  {
    var whole, n, m := x + s, |x + s|, |s|;
    assert whole[n - 1] == s[m - 1];
    assert m >= 2 ==> whole[n - 2] == s[m - 2];
    assert m >= 3 ==> whole[n - 3] == s[m - 3];
  }

  /** Trimmed text stays trimmed behind other text, a space in between, when that starts plain. */
  lemma TrimPrefixed(head: string, s: string)
    requires head != [] && PlainChar(head[0]) && TrimSpace(s) == s && s != []
    ensures TrimSpace(head + " " + s) == head + " " + s
  {
    TrimmedEnds(s);
    var whole := head + " " + s;
    assert whole[0] == head[0];
    assert SpaceWidth(whole) == 0;
    var n, m := |whole|, |s|;
    assert whole[n - 1] == s[m - 1];
    assert m >= 2 ==> whole[n - 2] == s[m - 2];
    assert m >= 3 ==> whole[n - 3] == s[m - 3];
    assert m == 1 ==> whole[n - 2] == ' ';
    assert m == 2 ==> whole[n - 3] == ' ';
    assert SpaceWidthEnd(whole) == 0;
    TrimmedEnds(whole);
  }

  /** Trimming takes nothing from trimmed text that starts plain, whatever precedes it. */
  lemma {:induction false} TrimKeepsEnd(x: string, s: string)
    requires s != [] && PlainChar(s[0]) && SpaceWidthEnd(s) == 0
    ensures |TrimSpace(x + s)| >= |s|
  {
    var whole := x + s;
    if SpaceWidth(whole) == 0 {
      EndOfParts(x, s);
    } else {
      assert whole[|x|] == s[0];
      var w := SpaceWidth(whole);
      assert whole[w..] == x[w..] + s;
      TrimKeepsEnd(x[w..], s);
    }
  }

  // ----- digits in a row

  /** More digits in front or behind never make a number smaller. */
  lemma {:induction false} DigitsOfParts(a: string, b: string)
    ensures DigitsValue(a + b, 10) >= DigitsValue(a, 10) + DigitsValue(b, 10)
  {
    if b == [] {
      assert a + b == a;
    } else {
      var whole := a + b;
      assert whole[..|whole| - 1] == a + b[..|b| - 1];
      DigitsOfParts(a, b[..|b| - 1]);
    }
  }

  lemma {:induction false} LeadingZeros(zeros: string, digits: string, base: nat)
    requires forall i | 0 <= i < |zeros| :: zeros[i] == '0'
    ensures DigitsValue(zeros + digits, base) == DigitsValue(digits, base)
    decreases |zeros| + |digits|
  {
    var s := zeros + digits;
    if digits != [] {
      assert s[..|s| - 1] == zeros + digits[..|digits| - 1];
      LeadingZeros(zeros, digits[..|digits| - 1], base);
    } else if zeros != [] {
      assert s[..|s| - 1] == zeros[..|zeros| - 1] + digits;
      LeadingZeros(zeros[..|zeros| - 1], digits, base);
    }
  }

  lemma {:induction false} DecimalStartsPositive(n: nat)
    requires n >= 1
    ensures '1' <= Decimal(n)[0]
  {
    if n >= 10 {
      DecimalStartsPositive(n / 10);
    }
  }

  /** The digits in front of a positive number are a positive number. */
  lemma DecimalPrefixPositive(n: nat, part: string)
    requires n >= 1 && part != [] && part <= Decimal(n)
    ensures DigitsValue(part, 10) >= 1
  {
    DecimalStartsPositive(n);
    assert part == part[..1] + part[1..];
    assert part[..1][..0] == [];
    assert DigitsValue(part[..1], 10) == DigitValue(part[0]);
    DigitsOfParts(part[..1], part[1..]);
  }

  // ----- joining and splitting

  /** Tokens printed with one space after each but the last. */
  function JoinTokens(tokens: seq<string>): string {
    if tokens == [] then ""
    else if |tokens| == 1 then tokens[0]
    else tokens[0] + " " + JoinTokens(tokens[1..])
  }

  lemma {:induction false} TokenLengthPlain(token: string, rest: string)
    requires Plain(token)
    requires rest == [] || AsciiSpace(rest[0])
    ensures TokenLength(token + rest) == |token|
  {
    var s := token + rest;
    if token == [] {
      assert s == rest;
    } else {
      assert s[0] == token[0];
      assert s[1..] == token[1..] + rest;
      TokenLengthPlain(token[1..], rest);
    }
  }

  /** Splitting undoes joining, for non-empty plain tokens. */
  lemma {:induction false} FieldsOfJoin(tokens: seq<string>)
    requires forall i | 0 <= i < |tokens| :: tokens[i] != [] && Plain(tokens[i])
    ensures Fields(JoinTokens(tokens)) == tokens
  {
    if tokens != [] {
      var s := JoinTokens(tokens);
      var rest := if |tokens| == 1 then [] else " " + JoinTokens(tokens[1..]);
      assert s == tokens[0] + rest;
      TokenLengthPlain(tokens[0], rest);
      assert s[0] == tokens[0][0];
      assert s[..|tokens[0]|] == tokens[0] && s[|tokens[0]|..] == rest;
      if |tokens| > 1 {
        assert rest[1..] == JoinTokens(tokens[1..]);
        assert Fields(rest) == Fields(JoinTokens(tokens[1..]));
        FieldsOfJoin(tokens[1..]);
      } else {
        assert Fields(rest) == [];
      }
      assert tokens == [tokens[0]] + tokens[1..];
    }
  }

  // ----- lines

  lemma TrimNewline(s: string)
    requires s != [] && PlainChar(s[0]) && PlainChar(s[|s| - 1])
    ensures TrimSpace(s + "\n") == s
  {
    var t := s + "\n";
    assert t[0] == s[0] && SpaceWidth(t) == 0;
    assert t[..|t| - 1] == s;
    assert SpaceWidthEnd(t) == 1 && SpaceWidthEnd(s) == 0;
    assert TrimRight(t) == TrimRight(s) == s;
  }

  lemma {:induction false} SplitAtEnd(body: string, line: string)
    requires '\n' !in line
    ensures SplitLines(body + "\n" + line) == SplitLines(body) + [line]
    decreases |body|
  {
    var s := body + "\n" + line;
    var i := IndexOf(body, '\n');
    IndexOfFirst(body, '\n');
    if i < 0 {
      IndexOfFirst(line, '\n');
      assert s[..|body|] == body && s[|body| + 1..] == line;
      IndexOfIs(s, '\n', |body|);
      NoSplit(line);
      NoSplit(body);
    } else {
      assert s[..i] == body[..i] && s[i + 1..] == body[i + 1..] + "\n" + line;
      IndexOfIs(s, '\n', i);
      SplitAtEnd(body[i + 1..], line);
      SplitsAt(s, i);
      SplitsAt(body, i);
      hide SplitLines, IndexOf;
      assert [body[..i]] + (SplitLines(body[i + 1..]) + [line]) == [body[..i]] + SplitLines(body[i + 1..]) + [line];
    }
  }

  lemma NoSplit(s: string)
    requires '\n' !in s
    ensures SplitLines(s) == [s]
  {
    IndexOfFirst(s, '\n');
  }

  lemma SplitsAt(s: string, i: nat)
    requires i < |s| && IndexOf(s, '\n') == i
    ensures SplitLines(s) == [s[..i]] + SplitLines(s[i + 1..])
  {}

  /** ASCII lower case. */
  function LowerChar(c: char): char {
    if 'A' <= c <= 'Z' then (c as int + 32) as char else c
  }

  function ToLower(s: string): (r: string)
    ensures |r| == |s|
  {
    seq(|s|, i requires 0 <= i < |s| => LowerChar(s[i]))
  }

  /** The same letter in either case, or the same character. */
  predicate SameLetter(c: char, d: char) {
    || c == d
    || ('A' <= c <= 'Z' && d as int == c as int + 32)
    || ('A' <= d <= 'Z' && c as int == d as int + 32)
  }

  predicate SameButCase(a: string, b: string) {
    |a| == |b| && forall i | 0 <= i < |a| :: SameLetter(a[i], b[i])
  }

  /** Lower case is the same for exactly the texts that differ in case only, and has no capital. */
  lemma LowerIgnoresCase(a: string, b: string)
    ensures ToLower(a) == ToLower(b) <==> SameButCase(a, b)
    ensures SameButCase(a, ToLower(a)) && forall i | 0 <= i < |a| :: !('A' <= ToLower(a)[i] <= 'Z')
  {
    var x, y := ToLower(a), ToLower(b);
    if x == y {
      forall i | 0 <= i < |a| ensures SameLetter(a[i], b[i]) {
        assert x[i] == y[i];
      }
    }
  }

  lemma SpaceHasNoCase(a: string, b: string)
    requires SameButCase(a, b)
    ensures SpaceWidth(a) == SpaceWidth(b) && SpaceWidthEnd(a) == SpaceWidthEnd(b)
  {}

  lemma {:induction false} TrimLeftIgnoresCase(a: string, b: string)
    requires SameButCase(a, b)
    ensures SameButCase(TrimLeft(a), TrimLeft(b))
    decreases |a|
  {
    SpaceHasNoCase(a, b);
    var w := SpaceWidth(a);
    if w > 0 {
      hide SameLetter, SpaceWidth;
      TrimLeftIgnoresCase(a[w..], b[w..]);
    }
  }

  lemma {:induction false} TrimRightIgnoresCase(a: string, b: string)
    requires SameButCase(a, b)
    ensures SameButCase(TrimRight(a), TrimRight(b))
    decreases |a|
  {
    SpaceHasNoCase(a, b);
    var w := SpaceWidthEnd(a);
    if w > 0 {
      hide SameLetter, SpaceWidthEnd;
      TrimRightIgnoresCase(a[..|a| - w], b[..|b| - w]);
    }
  }

  // ----- hexadecimal

  function HexChar(d: nat): char
    requires d < 16
  {
    if d < 10 then ('0' as int + d) as char else ('a' as int + d - 10) as char
  }

  /** n in lower-case hexadecimal, as the kernel prints it. */
  function Hex(n: nat): (s: string)
    ensures s != []
  {
    if n < 16 then [HexChar(n)] else Hex(n / 16) + [HexChar(n % 16)]
  }

  lemma {:induction false} HexValue(n: nat)
    ensures AllDigits(Hex(n), 16) && DigitsValue(Hex(n), 16) == n
    ensures Plain(Hex(n)) && forall i | 0 <= i < |Hex(n)| :: !('A' <= Hex(n)[i] <= 'Z') && Hex(n)[i] != ':'
  {
    var s := Hex(n);
    if n < 16 {
      assert s[..0] == [];
    } else {
      HexValue(n / 16);
      assert s[..|s| - 1] == Hex(n / 16);
    }
  }
}
