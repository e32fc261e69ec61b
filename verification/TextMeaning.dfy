/**
 What the text helpers mean: white space is Unicode's, in UTF-8, and a text is a number exactly when it is that
 number's digits.
 */
module TextMeaning {
  import opened Wrappers
  import opened Text

  // ----- white space

  /** The code points that unicode.IsSpace lists. */
  predicate IsSpacePoint(cp: nat) {
    || 0x09 <= cp <= 0x0D || cp == 0x20 || cp == 0x85 || cp == 0xA0 || cp == 0x1680
    || 0x2000 <= cp <= 0x200A || cp == 0x2028 || cp == 0x2029 || cp == 0x202F || cp == 0x205F || cp == 0x3000
  }

  function Byte(b: nat): char
    requires b < 256
  {
    b as char
  }

  /** A code point of up to 16 bits in UTF-8. */
  function Utf8(cp: nat): (s: string)
    requires cp < 0x1_0000
    ensures s != []
  {
    if cp < 0x80 then [Byte(cp)]
    else if cp < 0x800 then [Byte(0xC0 + cp / 64), Byte(0x80 + cp % 64)]
    else [Byte(0xE0 + cp / 4096), Byte(0x80 + cp / 64 % 64), Byte(0x80 + cp % 64)]
  }

  lemma BytesOfPoint(cp: nat)
    requires cp < 0x1_0000
    ensures cp < 0x80 ==> (AsciiSpace(Byte(cp)) <==> IsSpacePoint(cp))
    ensures 0x80 <= cp < 0x800 ==> (Space2(Utf8(cp)[0], Utf8(cp)[1]) <==> IsSpacePoint(cp))
    ensures 0x800 <= cp ==> (Space3(Utf8(cp)[0], Utf8(cp)[1], Utf8(cp)[2]) <==> IsSpacePoint(cp))
  {}

  /** Text starts with white space exactly when its first code point is white space, and then by its width. */
  lemma StartsWithSpace(cp: nat, rest: string)
    requires cp < 0x1_0000
    ensures SpaceWidth(Utf8(cp) + rest) == if IsSpacePoint(cp) then |Utf8(cp)| else 0
  {
    var s := Utf8(cp) + rest;
    BytesOfPoint(cp);
    assert forall i | 0 <= i < |Utf8(cp)| :: s[i] == Utf8(cp)[i];
    hide Space2, Space3;
    if cp >= 0x80 {
      LeadByte(cp, s);
    }
  }

  lemma LeadByte(cp: nat, s: string)
    requires 0x80 <= cp < 0x1_0000 && |s| >= |Utf8(cp)| && s[0] == Utf8(cp)[0]
    ensures !AsciiSpace(s[0])
    ensures cp < 0x800 ==> |s| < 3 || !Space3(s[0], s[1], s[2])
    ensures cp >= 0x800 ==> !Space2(s[0], s[1])
  {}

  /** And ends with white space exactly when its last code point is white space. */
  lemma EndsWithSpace(before: string, cp: nat)
    requires cp < 0x1_0000
    ensures SpaceWidthEnd(before + Utf8(cp)) == if IsSpacePoint(cp) then |Utf8(cp)| else 0
  {
    var s, w := before + Utf8(cp), |Utf8(cp)|;
    BytesOfPoint(cp);
    forall i | 0 <= i < w
      ensures s[|s| - w + i] == Utf8(cp)[i]
    {}
    LastByte(cp, s);
    hide Space2, Space3, AsciiSpace, IsSpacePoint, Utf8;
    var n := |s|;
    assert s[n - w + (w - 1)] == Utf8(cp)[w - 1];
    if w >= 2 {
      assert s[n - w + (w - 2)] == Utf8(cp)[w - 2];
    }
    if w == 3 {
      assert s[n - w] == Utf8(cp)[0];
    }
    WidthOfPoint(cp);
  }

  lemma WidthOfPoint(cp: nat)
    requires cp < 0x1_0000
    ensures |Utf8(cp)| == if cp < 0x80 then 1 else if cp < 0x800 then 2 else 3
    ensures cp < 0x80 ==> Utf8(cp)[0] == Byte(cp)
  {}

  lemma LastByte(cp: nat, s: string)
    requires cp < 0x1_0000 && |s| >= |Utf8(cp)|
    requires forall i | 0 <= i < |Utf8(cp)| :: s[|s| - |Utf8(cp)| + i] == Utf8(cp)[i]
    ensures cp >= 0x80 ==> !AsciiSpace(s[|s| - 1])
    ensures cp < 0x80 ==> |s| < 2 || !Space2(s[|s| - 2], s[|s| - 1])
    ensures cp < 0x800 ==> |s| < 3 || !Space3(s[|s| - 3], s[|s| - 2], s[|s| - 1])
    ensures cp >= 0x800 ==> !Space2(s[|s| - 2], s[|s| - 1])
  {
    var u := Utf8(cp);
    var w, n := |u|, |s|;
    assert s[n - w + (w - 1)] == u[w - 1];
    if w >= 2 {
      assert s[n - w + (w - 2)] == u[w - 2];
    }
  }

  function Spaces(points: seq<nat>): string
    requires forall i | 0 <= i < |points| :: points[i] < 0x1_0000
  {
    if points == [] then [] else Utf8(points[0]) + Spaces(points[1..])
  }

  ghost predicate AllSpace(points: seq<nat>) {
    forall i | 0 <= i < |points| :: points[i] < 0x1_0000 && IsSpacePoint(points[i])
  }

  lemma {:induction false} TrimsLeft(points: seq<nat>, s: string)
    requires AllSpace(points)
    ensures TrimLeft(Spaces(points) + s) == TrimLeft(s)
  {
    if points == [] {
      assert Spaces(points) + s == s;
    } else {
      hide Utf8, SpaceWidth, IsSpacePoint;
      var head, tail := Utf8(points[0]), Spaces(points[1..]) + s;
      assert Spaces(points) + s == head + tail;
      StartsWithSpace(points[0], tail);
      assert (head + tail)[|head|..] == tail;
      TrimsLeft(points[1..], s);
    }
  }

  lemma {:induction false} SpacesOfParts(a: seq<nat>, b: seq<nat>)
    requires forall i | 0 <= i < |a + b| :: (a + b)[i] < 0x1_0000
    requires forall i | 0 <= i < |a| :: a[i] < 0x1_0000
    requires forall i | 0 <= i < |b| :: b[i] < 0x1_0000
    ensures Spaces(a + b) == Spaces(a) + Spaces(b)
    decreases a
  {
    hide Utf8;
    if a == [] {
      assert a + b == b;
    } else {
      assert (a + b)[1..] == a[1..] + b;
      SpacesOfParts(a[1..], b);
      assert Utf8(a[0]) + (Spaces(a[1..]) + Spaces(b)) == Utf8(a[0]) + Spaces(a[1..]) + Spaces(b);
    }
  }

  lemma SpacesOfOne(cp: nat)
    requires cp < 0x1_0000
    ensures Spaces([cp]) == Utf8(cp)
  {
    hide Utf8;
    assert [cp][1..] == [];
    assert Utf8(cp) + [] == Utf8(cp);
  }

  lemma {:induction false} TrimsRight(s: string, points: seq<nat>)
    requires AllSpace(points)
    ensures TrimRight(s + Spaces(points)) == TrimRight(s)
  {
    if points == [] {
      assert s + Spaces(points) == s;
    } else {
      hide Utf8, SpaceWidthEnd, IsSpacePoint;
      var n := |points| - 1;
      var front, last := s + Spaces(points[..n]), Utf8(points[n]);
      assert points == points[..n] + [points[n]];
      SpacesOfParts(points[..n], [points[n]]);
      SpacesOfOne(points[n]);
      assert s + (Spaces(points[..n]) + last) == front + last;
      EndsWithSpace(front, points[n]);
      assert (front + last)[..|front|] == front;
      TrimsRight(s, points[..n]);
    }
  }

  /** White space of any kind around trimmed text is trimmed off, and nothing else. */
  lemma TrimsAllSpace(before: seq<nat>, s: string, after: seq<nat>)
    requires AllSpace(before) && AllSpace(after)
    requires s != [] && SpaceWidth(s + Spaces(after)) == 0 && SpaceWidthEnd(s) == 0
    ensures TrimSpace(Spaces(before) + s + Spaces(after)) == s
  {
    hide Spaces, SpaceWidth, SpaceWidthEnd, IsSpacePoint;
    assert Spaces(before) + s + Spaces(after) == Spaces(before) + (s + Spaces(after));
    TrimsLeft(before, s + Spaces(after));
    TrimsRight(s, after);
  }

  // ----- numbers

  predicate AllZeros(s: string) {
    forall i | 0 <= i < |s| :: s[i] == '0'
  }

  /** A text of decimal digits is zeros in front of its number's digits. */
  lemma {:induction false} DigitsAreDecimal(s: string) returns (zeros: string)
    requires s != [] && forall i | 0 <= i < |s| :: '0' <= s[i] <= '9'
    ensures AllZeros(zeros) && s == zeros + Decimal(DigitsValue(s, 10))
  {
    var n := |s| - 1;
    assert s == s[..n] + [s[n]];
    if n == 0 {
      zeros := [];
      assert s[..0] == [];
      DecimalNext(0, s[n]);
    } else {
      zeros := DigitsAreDecimal(s[..n]);
      var v := DigitsValue(s[..n], 10);
      DecimalNext(v, s[n]);
      hide Decimal;
      assert DigitsValue(s, 10) == v * 10 + DigitValue(s[n]);
      hide DigitsValue, DigitValue;
      if v == 0 {
        assert Decimal(0) == ['0'] by {
          DecimalZero();
        }
        zeros := zeros + ['0'];
      }
    }
  }

  lemma DecimalZero()
    ensures Decimal(0) == ['0']
  {}

  /** One more digit behind a number. */
  lemma DecimalNext(v: nat, c: char)
    requires '0' <= c <= '9'
    ensures Decimal(v * 10 + DigitValue(c)) == if v == 0 then [c] else Decimal(v) + [c]
  {
    var d := DigitValue(c);
    assert (v * 10 + d) / 10 == v && (v * 10 + d) % 10 == d && DigitChar(d) == c;
  }

  /** The text is n in decimal digits, zeros in front allowed. */
  ghost predicate IsNumber(s: string, n: nat) {
    exists zeros :: AllZeros(zeros) && s == zeros + Decimal(n)
  }

  lemma DigitsBehindZeros(zeros: string, digits: string)
    requires AllZeros(zeros) && AllDigits(digits, 10)
    ensures AllDigits(zeros + digits, 10)
  {
    var s := zeros + digits;
    forall i | 0 <= i < |s| ensures DigitValue(s[i]) < 10 {
      if i >= |zeros| {
        assert s[i] == digits[i - |zeros|];
      }
    }
  }

  lemma NumberHasValue(s: string, n: nat)
    requires IsNumber(s, n)
    ensures AllDigits(s, 10) && DigitsValue(s, 10) == n
  {
    hide Decimal, DigitsValue, AllDigits;
    var zeros :| AllZeros(zeros) && s == zeros + Decimal(n);
    LeadingZeros(zeros, Decimal(n), 10);
    DecimalValue(n);
    DigitsBehindZeros(zeros, Decimal(n));
  }

  lemma DigitsAreNumber(s: string)
    requires AllDigits(s, 10)
    ensures IsNumber(s, DigitsValue(s, 10))
  {
    var zeros := DigitsAreDecimal(s);
  }

  /** A text parses as an unsigned number exactly when it is that number's digits and the number fits 64 bits. */
  lemma ParsesExactlyNumbers(s: string, n: nat)
    ensures ParseUint(s) == Some(n) <==> IsNumber(s, n) && n <= 0xFFFF_FFFF_FFFF_FFFF
  {
    if IsNumber(s, n) {
      NumberHasValue(s, n);
    }
    if ParseUint(s) == Some(n) {
      DigitsAreNumber(s);
    }
  }

  /** A sign in front makes it signed; the range is that of 64 bits in two's complement. */
  lemma ParsesSignedNumbers(s: string, n: nat)
    requires IsNumber(s, n)
    ensures Atoi(s) == Atoi("+" + s) == if n <= 0x7FFF_FFFF_FFFF_FFFF then Some(n) else None
    ensures Atoi("-" + s) == if n <= 0x8000_0000_0000_0000 then Some(0 - n as int) else None
  {
    NumberHasValue(s, n);
    assert ("-" + s)[1..] == s && ("+" + s)[1..] == s;
  }

  /** A hexadecimal digit stands for its place in either row. */
  lemma HexDigits(d: nat)
    requires d < 16
    ensures DigitValue("0123456789abcdef"[d]) == d && DigitValue("0123456789ABCDEF"[d]) == d
  {
    var low, high := "0123456789abcdef", "0123456789ABCDEF";
    assert forall i: nat | i < 10 :: low[i] as int == '0' as int + i && high[i] == low[i];
    assert forall i: nat | 10 <= i < 16 ::
        low[i] as int == 'a' as int + i - 10 && high[i] as int == 'A' as int + i - 10;
  }

  /** And no other character is one. */
  lemma OtherCharacters(c: char)
    requires !('0' <= c <= '9' || 'a' <= c <= 'f' || 'A' <= c <= 'F')
    ensures DigitValue(c) >= 16
  {}
}
