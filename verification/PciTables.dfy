/** What the names in a pci.ids table mean: a printed table, looked up as sysfs writes the ids. */
module PciTables {
  import opened Wrappers
  import opened Text
  import opened PciNames

  /** A line of pci.ids. */
  datatype Entry =
    | VendorLine(id: string, name: string)
    | DeviceLine(id: string, name: string)
    | Subsystem(text: string)
    | Comment(text: string)
    | Blank

  predicate HexId(id: string) {
    id != "" && forall i | 0 <= i < |id| :: '0' <= id[i] <= '9' || 'a' <= id[i] <= 'f' || 'A' <= id[i] <= 'F'
  }

  predicate OneLine(s: string) {
    '\n' !in s
  }

  predicate IsEntry(e: Entry) {
    match e
    case VendorLine(id, name) => HexId(id) && OneLine(name) && name != "" && TrimSpace(name) == name
    case DeviceLine(id, name) => HexId(id) && OneLine(name) && name != "" && TrimSpace(name) == name
    case Subsystem(text) => OneLine(text)
    case Comment(text) => OneLine(text)
    case Blank => true
  }

  function PrintEntry(e: Entry): string {
    match e
    case VendorLine(id, name) => id + "  " + name
    case DeviceLine(id, name) => "\t" + (id + "  " + name)
    case Subsystem(text) => "\t\t" + text
    case Comment(text) => "#" + text
    case Blank => ""
  }

  function PrintTable(entries: seq<Entry>): string {
    if entries == [] then "" else PrintEntry(entries[0]) + "\n" + PrintTable(entries[1..])
  }

  function PrintLines(entries: seq<Entry>): seq<string> {
    seq(|entries|, i requires 0 <= i < |entries| => PrintEntry(entries[i]))
  }

  /** Entry i names the device: its id is the device's, and the nearest vendor above it has the vendor's id. */
  ghost predicate NamesDevice(entries: seq<Entry>, i: int, vendor: string, device: string) {
    && 0 <= i < |entries| && entries[i].DeviceLine? && SameButCase(entries[i].id, device)
    && exists j :: IsVendorAbove(entries, j, i) && SameButCase(entries[j].id, vendor)
  }

  ghost predicate IsVendorAbove(entries: seq<Entry>, j: int, i: int) {
    0 <= j < i <= |entries| && entries[j].VendorLine? && forall k | j < k < i :: !entries[k].VendorLine?
  }

  ghost predicate NamesFirst(entries: seq<Entry>, i: int, vendor: string, device: string) {
    NamesDevice(entries, i, vendor, device) && forall k | k < i :: !NamesDevice(entries, k, vendor, device)
  }

  // ----- printed lines, read back

  lemma {:induction false} SplitPrinted(entries: seq<Entry>)
    requires forall i | 0 <= i < |entries| :: IsEntry(entries[i])
    ensures SplitLines(PrintTable(entries)) == PrintLines(entries) + [""]
  {
    hide PrintEntry, PrintLines, IsEntry;
    if entries == [] {
      LinesStart(entries);
    } else {
      SplitPrinted(entries[1..]);
      LinesStart(entries);
      EntryIsOneLine(entries[0]);
      SplitFirst(PrintEntry(entries[0]), PrintTable(entries[1..]));
      assert PrintEntry(entries[0]) + "\n" + PrintTable(entries[1..]) == PrintTable(entries);
      assert [PrintEntry(entries[0])] + (PrintLines(entries[1..]) + [""]) == PrintLines(entries) + [""];
    }
  }

  lemma SplitFirst(line: string, rest: string)
    requires '\n' !in line
    ensures SplitLines(line + "\n" + rest) == [line] + SplitLines(rest)
  {
    var s := line + "\n" + rest;
    assert s[..|line|] == line && s[|line| + 1..] == rest;
    IndexOfIs(s, '\n', |line|);
    hide IndexOf;
  }

  lemma LinesStart(entries: seq<Entry>)
    ensures PrintLines(entries) == if entries == [] then [] else [PrintEntry(entries[0])] + PrintLines(entries[1..])
  {
    hide PrintEntry;
  }

  lemma EntryIsOneLine(e: Entry)
    requires IsEntry(e)
    ensures '\n' !in PrintEntry(e)
  {
    hide TrimSpace;
  }

  lemma IdIsPlain(id: string)
    requires HexId(id)
    ensures Plain(id) && ':' !in id && ' ' !in id && id[0] != '#' && id[0] != '\t'
  {}

  /** The named part of a line: it is not blank, its first word is the id, and what follows is the name. */
  lemma NamedText(id: string, name: string)
    requires HexId(id) && name != "" && TrimSpace(name) == name
    ensures
      var s := id + "  " + name;
      && TrimSpace(s) == s && SpaceWidthEnd(s) == 0 && IndexOf(s, ' ') == |id| && s[..|id|] == id
      && TrimSpace(s[|id| + 1..]) == name && Fields(s) != [] && Fields(s)[0] == id
  {
    hide TrimSpace;
    var s := id + "  " + name;
    IdIsPlain(id);
    assert s == (id + " ") + " " + name;
    TrimPrefixed(id + " ", name);
    TrimmedEnds(s);
    assert s[..|id|] == id;
    IndexOfIs(s, ' ', |id|);
    assert s[|id| + 1..] == " " + name;
    TrimLeadingSpace(name);
    TokenLengthPlain(id, "  " + name);
    assert s == id + ("  " + name);
    assert SpaceWidth(s) == 0;
  }

  lemma DeviceIsClassified(id: string, name: string)
    requires IsEntry(DeviceLine(id, name))
    ensures Classify(PrintEntry(DeviceLine(id, name))) == Device(ToLower(id), name)
  {
    hide TrimSpace, ToLower, IndexOf, Fields;
    var text := id + "  " + name;
    var line := "\t" + text;
    NamedText(id, name);
    IdIsPlain(id);
    TrimKeepsEnd("\t", text);
    assert line[1..] == text && line[1] == id[0] && line[0] == '\t';
    assert "\t" <= line && !("#" <= line) && !("\t\t" <= line);
  }

  lemma VendorIsClassified(id: string, name: string)
    requires IsEntry(VendorLine(id, name))
    ensures Classify(PrintEntry(VendorLine(id, name))) == Vendor(ToLower(id))
  {
    hide TrimSpace, ToLower, IndexOf, Fields;
    NamedText(id, name);
    IdIsPlain(id);
    var line := id + "  " + name;
    assert line[0] == id[0];
  }

  lemma EntryIsClassified(e: Entry)
    requires IsEntry(e)
    ensures Classify(PrintEntry(e)) ==
            match e
            case VendorLine(id, _) => Vendor(ToLower(id))
            case DeviceLine(id, name) => Device(ToLower(id), name)
            case _ => Ignored
  {
    match e
    case VendorLine(id, name) =>
      VendorIsClassified(id, name);
    case DeviceLine(id, name) =>
      DeviceIsClassified(id, name);
    case Subsystem(text) =>
      hide TrimSpace, IndexOf, Fields;
    case Comment(text) =>
      hide TrimSpace, IndexOf, Fields;
    case Blank =>
  }

  // ----- the vendor a device stands under

  lemma {:induction false} VendorIsAbove(entries: seq<Entry>, lines: seq<string>, n: nat)
    requires n <= |entries| <= |lines| && forall i | 0 <= i < |entries| :: IsEntry(entries[i])
    requires forall i | 0 <= i < |entries| :: lines[i] == PrintEntry(entries[i])
    ensures
      if VendorAt(lines, n) == "" then forall i | 0 <= i < n :: !entries[i].VendorLine?
      else exists j :: IsVendorAbove(entries, j, n) && VendorAt(lines, n) == ToLower(entries[j].id)
  {
    hide Classify, PrintEntry, ToLower;
    if n > 0 {
      VendorIsAbove(entries, lines, n - 1);
      EntryIsClassified(entries[n - 1]);
      if entries[n - 1].VendorLine? {
        assert IsVendorAbove(entries, n - 1, n);
        assert ToLower(entries[n - 1].id) != "" by {
          assert |ToLower(entries[n - 1].id)| == |entries[n - 1].id|;
        }
      } else if VendorAt(lines, n - 1) != "" {
        var j :| IsVendorAbove(entries, j, n - 1) && VendorAt(lines, n - 1) == ToLower(entries[j].id);
        assert IsVendorAbove(entries, j, n);
      }
    }
  }

  lemma OneVendorAbove(entries: seq<Entry>, j: int, k: int, i: int)
    requires IsVendorAbove(entries, j, i) && IsVendorAbove(entries, k, i)
    ensures j == k
  {}

  lemma KeysDiffer(v: string, d: string, w: string, e: string)
    requires ':' !in v && ':' !in w
    ensures v + ":" + d == w + ":" + e <==> v == w && d == e
  {
    var a, b := v + ":" + d, w + ":" + e;
    if a == b {
      assert a[..|v|] == v && b[..|w|] == w;
      IndexOfIs(a, ':', |v|);
      IndexOfIs(b, ':', |w|);
      assert a[|v| + 1..] == d && b[|w| + 1..] == e;
    }
  }

  lemma LowerHasNoColon(id: string)
    requires HexId(id)
    ensures ':' !in ToLower(id)
  {}

  /** A line of the table names the key of a device exactly when its entry names the device. */
  lemma NamesExactly(entries: seq<Entry>, lines: seq<string>, i: nat, vendor: string, device: string)
    requires i < |entries| <= |lines| && forall k | 0 <= k < |entries| :: IsEntry(entries[k])
    requires forall k | 0 <= k < |entries| :: lines[k] == PrintEntry(entries[k])
    requires HexId(vendor) && HexId(device)
    ensures Names(lines, i, ToLower(vendor) + ":" + ToLower(device)) <==> NamesDevice(entries, i, vendor, device)
    ensures NamesDevice(entries, i, vendor, device) ==>
              && entries[i].DeviceLine? && EntryAt(lines, i).Some?
              && EntryAt(lines, i).value.1 == entries[i].name
  {
    hide Classify, PrintEntry, ToLower, SameLetter, SameButCase, HexId, VendorAt;
    EntryIsClassified(entries[i]);
    VendorIsAbove(entries, lines, i);
    if entries[i].DeviceLine? && VendorAt(lines, i) != "" {
      var j :| IsVendorAbove(entries, j, i) && VendorAt(lines, i) == ToLower(entries[j].id);
      forall k | IsVendorAbove(entries, k, i) ensures k == j {
        OneVendorAbove(entries, j, k, i);
      }
      LowerHasNoColon(entries[j].id);
      LowerHasNoColon(vendor);
      KeysDiffer(ToLower(entries[j].id), ToLower(entries[i].id), ToLower(vendor), ToLower(device));
      LowerIgnoresCase(entries[j].id, vendor);
      LowerIgnoresCase(entries[i].id, device);
    }
  }

  /** The key of a device, with the ids as sysfs prints them or bare. */
  lemma KeyOfIds(vendor: string, device: string)
    requires HexId(vendor) && HexId(device)
    ensures FormatPCIID("0x" + vendor, "0x" + device) == ToLower(vendor) + ":" + ToLower(device)
    ensures FormatPCIID(vendor, device) == ToLower(vendor) + ":" + ToLower(device)
  {
    hide ToLower;
    assert ("0x" + vendor)[2..] == vendor && ("0x" + device)[2..] == device;
    NotPrefixed(vendor);
    NotPrefixed(device);
  }

  lemma NotPrefixed(id: string)
    requires HexId(id)
    ensures !("0x" <= id)
  {
    if |id| >= 2 {
      assert id[1] != "0x"[1];
    }
  }

  /**
   Looking a device up in a printed table, its ids in any case and with or without 0x, finds the name on the first
   line that carries the device's id under the vendor's, and nothing when no line does.
   */
  lemma LookupInPrintedTable(entries: seq<Entry>, vendor: string, device: string)
    requires forall i | 0 <= i < |entries| :: IsEntry(entries[i])
    requires HexId(vendor) && HexId(device)
    ensures
      var r := ScanTable(PrintTable(entries), FormatPCIID("0x" + vendor, "0x" + device));
      && r == ScanTable(PrintTable(entries), FormatPCIID(vendor, device))
      && IsAnswer(entries, vendor, device, r)
  {
    hide *;
    var lines, key := PrintLines(entries) + [""], ToLower(vendor) + ":" + ToLower(device);
    SplitPrinted(entries);
    KeyOfIds(vendor, device);
    ScanIsOfLines(PrintTable(entries), lines, key);
    LinesPrinted(entries);
    ScanPrinted(entries, lines, vendor, device);
  }

  lemma LinesPrinted(entries: seq<Entry>)
    requires forall i | 0 <= i < |entries| :: IsEntry(entries[i])
    ensures Printed(entries, PrintLines(entries) + [""])
  {
    hide PrintEntry, IsEntry;
  }

  lemma ScanIsOfLines(body: string, lines: seq<string>, key: string)
    requires SplitLines(body) == lines
    ensures ScanTable(body, key) == ScanLines(lines, |lines|, key)
  {
    hide SplitLines, ScanLines;
  }

  /** The answer of a scan is the name of the first entry that names the device, or nothing. */
  ghost predicate IsAnswer(entries: seq<Entry>, vendor: string, device: string, r: Option<string>) {
    && (r.None? ==> forall i :: !NamesDevice(entries, i, vendor, device))
    && (r.Some? ==> exists i :: NamesFirst(entries, i, vendor, device) && entries[i].name == r.value)
  }

  ghost predicate Printed(entries: seq<Entry>, lines: seq<string>) {
    && (forall i | 0 <= i < |entries| :: IsEntry(entries[i]))
    && |lines| == |entries| + 1 && lines[|entries|] == ""
    && (forall i | 0 <= i < |entries| :: lines[i] == PrintEntry(entries[i]))
  }

  lemma ScanPrinted(entries: seq<Entry>, lines: seq<string>, vendor: string, device: string)
    requires Printed(entries, lines) && HexId(vendor) && HexId(device)
    ensures IsAnswer(entries, vendor, device, ScanLines(lines, |lines|, ToLower(vendor) + ":" + ToLower(device)))
  {
    var key := ToLower(vendor) + ":" + ToLower(device);
    var r := ScanLines(lines, |lines|, key);
    hide *;
    if r.Some? {
      var i :| 0 <= i < |lines| && EntryAt(lines, i) == Some((key, r.value))
               && forall k | 0 <= k < i :: !Names(lines, k, key);
      NamedByEntry(lines, i, key, r.value);
      ScanFound(entries, lines, vendor, device, i, r.value);
    } else {
      ScanMissed(entries, lines, vendor, device);
    }
  }

  lemma ScanFound(entries: seq<Entry>, lines: seq<string>, vendor: string, device: string, i: nat, name: string)
    requires Printed(entries, lines) && HexId(vendor) && HexId(device) && i < |lines|
    requires
      var key := ToLower(vendor) + ":" + ToLower(device);
      && Names(lines, i, key) && EntryAt(lines, i) == Some((key, name))
      && forall k | 0 <= k < i :: !Names(lines, k, key)
    ensures IsAnswer(entries, vendor, device, Some(name))
  {
    hide Names, EntryAt, HexId, IsEntry, PrintEntry, ToLower, NamesDevice;
    LastLineNamesNothing(lines, ToLower(vendor) + ":" + ToLower(device));
    NamesExactly(entries, lines, i, vendor, device);
    forall k | k < i ensures !NamesDevice(entries, k, vendor, device) {
      if k >= 0 {
        NamesExactly(entries, lines, k, vendor, device);
      } else {
        NothingElseNames(entries, k, vendor, device);
      }
    }
    IsFirst(entries, i, vendor, device);
  }

  lemma ScanMissed(entries: seq<Entry>, lines: seq<string>, vendor: string, device: string)
    requires Printed(entries, lines) && HexId(vendor) && HexId(device)
    requires
      var key := ToLower(vendor) + ":" + ToLower(device);
      forall k | 0 <= k < |lines| :: !Names(lines, k, key)
    ensures IsAnswer(entries, vendor, device, None)
  {
    hide Names, HexId, IsEntry, PrintEntry, ToLower, NamesDevice;
    forall k ensures !NamesDevice(entries, k, vendor, device) {
      if 0 <= k < |entries| {
        NamesExactly(entries, lines, k, vendor, device);
      } else {
        NothingElseNames(entries, k, vendor, device);
      }
    }
  }

  lemma IsFirst(entries: seq<Entry>, i: int, vendor: string, device: string)
    requires NamesDevice(entries, i, vendor, device) && forall k | k < i :: !NamesDevice(entries, k, vendor, device)
    ensures NamesFirst(entries, i, vendor, device)
  {
    hide NamesDevice;
  }

  lemma NamedByEntry(lines: seq<string>, i: nat, key: string, name: string)
    requires i < |lines| && EntryAt(lines, i) == Some((key, name))
    ensures Names(lines, i, key)
  {}

  lemma NothingElseNames(entries: seq<Entry>, k: int, vendor: string, device: string)
    requires k < 0 || k >= |entries|
    ensures !NamesDevice(entries, k, vendor, device)
  {}

  lemma LastLineNamesNothing(lines: seq<string>, key: string)
    requires lines != [] && lines[|lines| - 1] == ""
    ensures !Names(lines, |lines| - 1, key)
  {
    EntryIsClassified(Blank);
  }
}
