/** Octal escapes in /proc/self/mountinfo fields (decodeMountField in filesystem_linux.go). */
module MountField {
  import opened Wrappers
  import opened Text

  /** Every character stands for a byte. */
  predicate IsBytes(s: string) {
    forall i | 0 <= i < |s| :: s[i] as int < 256
  }

  /** The byte that three octal digits denote, if it is one. */
  function OctalByte(digits: string): (r: Option<nat>)
    ensures r.Some? ==> r.value <= 255
  {
    ParseUintBase(digits, 8, 255)
  }

  /** The decoded field, or Err for an escape that is cut short or not a byte in octal. */
  function Decoded(value: string): Result<string> {
    if value == [] then Ok([])
    else if value[0] != '\\' then Prepend(value[0], Decoded(value[1..]))
    else if |value| < 4 then Err
    else
      var b := OctalByte(value[1..4]);
      if b.None? then Err else Prepend(b.value as char, Decoded(value[4..]))
  }

  function Prepend(c: char, r: Result<string>): Result<string> {
    if r.Ok? then Ok([c] + r.value) else Err
  }

  method DecodeMountField(value: string) returns (r: Result<string>)
    ensures r == Decoded(value)
  {
    hide OctalByte;
    var decoded: string := [];
    var i := 0;
    BehindEnds([], Decoded(value));
    assert value[0..] == value;
    while i < |value|
      invariant 0 <= i <= |value|
      invariant Decoded(value) == Behind(decoded, Decoded(value[i..]))
    {
      ghost var rest := value[i..];
      assert rest[1..] == value[i + 1..];
      if value[i] != '\\' {
        BehindNext(decoded, value[i], Decoded(rest[1..]));
        decoded := decoded + [value[i]];
      } else {
        if i + 3 >= |value| {
          return Err;
        }
        assert rest[1..4] == value[i + 1..i + 4] && rest[4..] == value[i + 4..];
        var character := OctalByte(value[i + 1..i + 4]);
        if character.None? {
          return Err;
        }
        BehindNext(decoded, character.value as char, Decoded(rest[4..]));
        decoded := decoded + [character.value as char];
        i := i + 3;
      }
      i := i + 1;
    }
    BehindEnds(decoded, Ok([]));
    assert value[i..] == [];
    return Ok(decoded);
  }

  /** A decoded start in front of a decoded rest. */
  function Behind(start: string, r: Result<string>): Result<string> {
    if r.Ok? then Ok(start + r.value) else Err
  }

  lemma BehindNext(start: string, c: char, r: Result<string>)
    ensures Behind(start, Prepend(c, r)) == Behind(start + [c], r)
  {
    if r.Ok? {
      assert start + ([c] + r.value) == start + [c] + r.value;
    }
  }

  lemma BehindEnds(start: string, r: Result<string>)
    ensures Behind([], r) == r && Behind(start, Ok([])) == Ok(start)
  {
    assert start + [] == start;
    if r.Ok? {
      assert [] + r.value == r.value;
    }
  }

  // ----- the kernel's side

  function OctalChar(d: nat): char
    requires d < 8
  {
    ('0' as int + d) as char
  }

  /** A byte as backslash and three octal digits. */
  function Escape(b: nat): string
    requires b < 256
  {
    ['\\', OctalChar(b / 64), OctalChar(b / 8 % 8), OctalChar(b % 8)]
  }

  /** A field with the characters of an escape set written in octal. */
  function Mangled(s: string, escaped: set<char>): string
    requires IsBytes(s)
  {
    if s == [] then []
    else (if s[0] in escaped then Escape(s[0] as int) else [s[0]]) + Mangled(s[1..], escaped)
  }

  lemma EscapeValue(b: nat)
    requires b < 256
    ensures OctalByte(Escape(b)[1..4]) == Some(b)
  {
    var a, c, d := b / 64, b / 8 % 8, b % 8;
    var s := Escape(b)[1..4];
    assert s == [OctalChar(a), OctalChar(c), OctalChar(d)];
    assert s[..2][..1] == [OctalChar(a)] && s[..2][..1][..0] == [];
    assert DigitsValue(s[..2][..1], 8) == a;
    assert DigitsValue(s[..2], 8) == a * 8 + c;
    assert DigitsValue(s, 8) == (a * 8 + c) * 8 + d == b;
  }

  /** Decoding undoes escaping, for every field and every escape set that contains the backslash. */
  lemma {:induction false} DecodeUndoesMangle(s: string, escaped: set<char>)
    requires IsBytes(s) && '\\' in escaped
    ensures Decoded(Mangled(s, escaped)) == Ok(s)
  {
    if s != [] {
      hide OctalByte, Escape;
      DecodeUndoesMangle(s[1..], escaped);
      var rest := Mangled(s[1..], escaped);
      assert s == [s[0]] + s[1..];
      if s[0] in escaped {
        EscapeValue(s[0] as int);
        EscapeShape(s[0] as int);
        var e := Escape(s[0] as int);
        assert (e + rest)[1..4] == e[1..4] && (e + rest)[4..] == rest;
      } else {
        assert ([s[0]] + rest)[1..] == rest;
      }
    }
  }

  lemma EscapeShape(b: nat)
    requires b < 256
    ensures |Escape(b)| == 4 && Escape(b)[0] == '\\'
  {}

  // ----- which fields are accepted

  predicate OctalDigit(c: char) {
    '0' <= c <= '7'
  }

  /** The three characters after a backslash are octal digits of a byte. */
  predicate GoodEscape(value: string, i: nat) {
    && i + 3 < |value|
    && '0' <= value[i + 1] <= '3' && OctalDigit(value[i + 2]) && OctalDigit(value[i + 3])
  }

  function Backslashes(value: string): nat {
    if value == [] then 0 else (if value[0] == '\\' then 1 else 0) + Backslashes(value[1..])
  }

  lemma OctalByteIsGood(value: string)
    requires |value| >= 4
    ensures OctalByte(value[1..4]).Some? <==> GoodEscape(value, 0)
  {
    var s := value[1..4];
    assert s[0] == value[1] && s[1] == value[2] && s[2] == value[3];
    assert s[..2][..1] == [s[0]] && s[..2][..1][..0] == [];
    assert DigitsValue(s[..2][..1], 8) == DigitValue(s[0]);
    assert DigitsValue(s[..2], 8) == DigitValue(s[0]) * 8 + DigitValue(s[1]);
    assert DigitsValue(s, 8) == (DigitValue(s[0]) * 8 + DigitValue(s[1])) * 8 + DigitValue(s[2]);
  }

  /**
   A field is accepted exactly when every backslash in it starts the octal form of a byte, and an
   accepted field shrinks by three bytes per backslash.
   */
  lemma {:induction false} AcceptedExactly(value: string)
    ensures Decoded(value).Ok? <==> forall i | 0 <= i < |value| && value[i] == '\\' :: GoodEscape(value, i)
    ensures Decoded(value).Ok? ==> |value| == |Decoded(value).value| + 3 * Backslashes(value)
  {
    hide OctalByte;
    if value == [] {
    } else if value[0] != '\\' {
      AcceptedExactly(value[1..]);
      GoodFrom(value, 1);
    } else if |value| >= 4 {
      OctalByteIsGood(value);
      if GoodEscape(value, 0) {
        AcceptedExactly(value[4..]);
        GoodFrom(value, 4);
        assert value[1..][1..][1..][1..] == value[4..];
        assert Backslashes(value) == 1 + Backslashes(value[1..]);
        assert Backslashes(value[1..]) == Backslashes(value[1..][1..])
            == Backslashes(value[1..][1..][1..]) == Backslashes(value[4..]);
      }
    } else {
      assert !GoodEscape(value, 0);
    }
  }

  /** Dropping a start without backslashes after its first character keeps the verdict on the rest. */
  lemma GoodFrom(value: string, n: nat)
    requires n <= |value| && forall i | 0 < i < n :: value[i] != '\\'
    ensures (forall i | n <= i < |value| && value[i] == '\\' :: GoodEscape(value, i))
            <==> forall i | 0 <= i < |value[n..]| && value[n..][i] == '\\' :: GoodEscape(value[n..], i)
  {
    var rest := value[n..];
    assert forall i | 0 <= i < |rest| :: rest[i] == value[n + i] && (GoodEscape(rest, i) <==> GoodEscape(value, n + i));
    assert forall i | n <= i < |value| ::
      value[i] == rest[i - n] && (GoodEscape(rest, i - n) <==> GoodEscape(value, i));
  }
}
