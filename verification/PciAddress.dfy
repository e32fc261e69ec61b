/** PCI addresses (gpu_linux.go, gpu_pmu_linux.go): sysfs, nvidia-smi and PMU names write them differently. */
module PciAddress {
  import opened Wrappers
  import opened Text

  const MAX_UINT32: nat := 0xFFFF_FFFF

  function Count(s: string, c: char): nat {
    if s == [] then 0 else (if s[0] == c then 1 else 0) + Count(s[1..], c)
  }

  /** The domain and the rest of an address; an address with one colon is in domain zero. */
  function SplitBDF(address: string): Option<(nat, string)> {
    var s := ToLower(TrimSpace(address));
    var i := IndexOf(s, ':');
    if Count(s, ':') == 1 then Some((0, s))
    else if i < 0 then None
    else
      var domain := ParseUintBase(s[..i], 16, MAX_UINT32);
      if domain.None? then None else Some((domain.value, s[i + 1..]))
  }

  predicate MatchBDF(a: string, b: string) {
    SplitBDF(a).Some? && SplitBDF(b).Some? && SplitBDF(a) == SplitBDF(b)
  }

  function Replaced(s: string, from: char, to: char): (r: string)
    ensures |r| == |s|
  {
    seq(|s|, i requires 0 <= i < |s| => if s[i] == from then to else s[i])
  }

  /** The address in a per-device PMU name, in which every colon is written as an underscore. */
  function PmuNameBDF(name: string, driver: string): Option<string> {
    var prefix := driver + "_";
    if !(prefix <= name) || name == prefix then None
    else
      var bdf := ToLower(Replaced(name[|prefix|..], '_', ':'));
      if Count(bdf, ':') != 2 || '.' !in bdf || SplitBDF(bdf).None? then None else Some(bdf)
  }

  // ----- one device, many spellings

  /** Without capitals. */
  predicate LowerCase(s: string) {
    forall i | 0 <= i < |s| :: !('A' <= s[i] <= 'Z')
  }

  lemma {:induction false} CountOfParts(a: string, b: string, c: char)
    ensures Count(a + b, c) == Count(a, c) + Count(b, c)
  {
    if a == [] {
      assert a + b == b;
    } else {
      assert (a + b)[1..] == a[1..] + b;
      CountOfParts(a[1..], b, c);
    }
  }

  lemma {:induction false} CountAbsent(s: string, c: char)
    requires c !in s
    ensures Count(s, c) == 0
  {
    if s != [] {
      CountAbsent(s[1..], c);
    }
  }

  lemma FixedByTrimAndLower(s: string)
    requires Plain(s) && LowerCase(s)
    ensures ToLower(TrimSpace(s)) == s
  {
    TrimPlain(s);
    hide TrimSpace;
    assert ToLower(s) == s;
  }

  lemma FirstColon(head: string, rest: string)
    requires ':' !in head
    ensures IndexOf(head + ":" + rest, ':') == |head|
    ensures Count(head + ":" + rest, ':') == 1 + Count(rest, ':')
  {
    var s := head + ":" + rest;
    assert s[..|head|] == head;
    IndexOfIs(s, ':', |head|);
    CountOfParts(head + ":", rest, ':');
    CountOfParts(head, ":", ':');
    CountAbsent(head, ':');
  }

  /** A full address splits into the value of its domain and the rest. */
  lemma SplitFull(domain: string, rest: string)
    requires AllDigits(domain, 16) && DigitsValue(domain, 16) <= MAX_UINT32
    requires Plain(domain + rest) && LowerCase(domain + rest)
    requires Count(rest, ':') == 1
    ensures SplitBDF(domain + ":" + rest) == Some((DigitsValue(domain, 16), rest))
  {
    hide Count, IndexOf, TrimSpace, ToLower, DigitsValue;
    var s := domain + ":" + rest;
    assert forall i | 0 <= i < |s| :: s[i] == ':' || s[i] == (domain + rest)[if i < |domain| then i else i - 1];
    FixedByTrimAndLower(s);
    FirstColon(domain, rest);
    assert s[..|domain|] == domain && s[|domain| + 1..] == rest;
  }

  /** A domain as sysfs or nvidia-smi writes it: hexadecimal behind any number of zeros. */
  function Domain(n: nat, zeros: string): string {
    zeros + Hex(n)
  }

  lemma SplitDomain(n: nat, zeros: string, rest: string)
    requires n <= MAX_UINT32 && forall i | 0 <= i < |zeros| :: zeros[i] == '0'
    requires Plain(rest) && LowerCase(rest) && Count(rest, ':') == 1
    ensures SplitBDF(Domain(n, zeros) + ":" + rest) == Some((n, rest))
  {
    hide SplitBDF, Count;
    HexValue(n);
    LeadingZeros(zeros, Hex(n), 16);
    SplitFull(Domain(n, zeros), rest);
  }

  /**
   Two spellings match exactly when domain and slot are the same, whatever the widths of the domains; a bare
   bus:device.function stands for domain zero.
   */
  lemma MatchAcrossWidths(n1: nat, n2: nat, zeros1: string, zeros2: string, rest1: string, rest2: string)
    requires n1 <= MAX_UINT32 && forall i | 0 <= i < |zeros1| :: zeros1[i] == '0'
    requires n2 <= MAX_UINT32 && forall i | 0 <= i < |zeros2| :: zeros2[i] == '0'
    requires Plain(rest1) && LowerCase(rest1) && Count(rest1, ':') == 1
    requires Plain(rest2) && LowerCase(rest2) && Count(rest2, ':') == 1
    ensures MatchBDF(Domain(n1, zeros1) + ":" + rest1, Domain(n2, zeros2) + ":" + rest2)
            <==> n1 == n2 && rest1 == rest2
    ensures MatchBDF(Domain(n1, zeros1) + ":" + rest1, rest2) <==> n1 == 0 && rest1 == rest2
  {
    hide SplitBDF, Domain, Count;
    SplitDomain(n1, zeros1, rest1);
    SplitDomain(n2, zeros2, rest2);
    SplitBare(rest2);
  }

  /** Neither spelling's case matters. */
  lemma CaseDoesNotMatter(a: string, b: string, c: string)
    requires SameButCase(a, b)
    ensures MatchBDF(a, c) == MatchBDF(b, c) && MatchBDF(c, a) == MatchBDF(c, b)
    ensures MatchBDF(a, b) <==> SplitBDF(a).Some?
  {
    hide SameLetter, TrimLeft, TrimRight;
    TrimLeftIgnoresCase(a, b);
    TrimRightIgnoresCase(TrimLeft(a), TrimLeft(b));
    hide SameButCase, ToLower;
    LowerIgnoresCase(TrimSpace(a), TrimSpace(b));
  }

  lemma SplitBare(rest: string)
    requires Plain(rest) && LowerCase(rest) && Count(rest, ':') == 1
    ensures SplitBDF(rest) == Some((0, rest))
  {
    hide TrimSpace;
    TrimPlain(rest);
    assert ToLower(rest) == rest;
  }

  /** A name that is not the driver's, or whose rest has no function or not two colons, gives no address. */
  lemma OnlyAddressesAreNames(name: string, driver: string)
    requires PmuNameBDF(name, driver).Some?
    ensures driver + "_" <= name && '.' in name
    ensures Count(ToLower(Replaced(name[|driver| + 1..], '_', ':')), ':') == 2
    ensures SplitBDF(PmuNameBDF(name, driver).value).Some?
  {
    hide Count, SplitBDF;
    var suffix := name[|driver + "_"|..];
    var bdf := ToLower(Replaced(suffix, '_', ':'));
    var i :| 0 <= i < |bdf| && bdf[i] == '.';
    assert suffix[i] == '.' && name[|driver| + 1 + i] == '.';
  }

  /** Recovering the address undoes naming the PMU after it. */
  lemma NameBDFRoundTrip(driver: string, bdf: string)
    requires Plain(bdf) && LowerCase(bdf) && '_' !in bdf
    requires Count(bdf, ':') == 2 && '.' in bdf && SplitBDF(bdf).Some?
    ensures PmuNameBDF(driver + "_" + Replaced(bdf, ':', '_'), driver) == Some(bdf)
  {
    var prefix := driver + "_";
    var suffix := Replaced(bdf, ':', '_');
    assert (prefix + suffix)[|prefix|..] == suffix;
    assert Replaced(suffix, '_', ':') == bdf;
    assert ToLower(bdf) == bdf;
  }
}
