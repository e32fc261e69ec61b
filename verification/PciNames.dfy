/** Product names from pci.ids tables, and the cache in front of them (gpu_linux.go). */
module PciNames {
  import opened Wrappers
  import opened Text

  // ----- one table

  datatype Line = Ignored | Vendor(id: string) | Device(id: string, name: string)

  /** What one line is by itself: an unindented line names a vendor, a line behind one tab a device. */
  function Classify(line: string): Line {
    if "#" <= line || TrimSpace(line) == "" then Ignored
    else if !("\t" <= line) then
      var fields := Fields(line);
      Vendor(if fields == [] then "" else ToLower(fields[0]))
    else if "\t\t" <= line then Ignored
    else
      var i := IndexOf(line[1..], ' ');
      if i < 0 then Ignored else Device(ToLower(line[1..][..i]), TrimSpace(line[1..][i + 1..]))
  }

  /** The vendor whose devices line n would list: that of the last vendor line before it. */
  function VendorAt(lines: seq<string>, n: nat): string
    requires n <= |lines|
  {
    if n == 0 then ""
    else match Classify(lines[n - 1])
      case Vendor(id) => id
      case _ => VendorAt(lines, n - 1)
  }

  /** The device line n names, as key and product name. */
  function EntryAt(lines: seq<string>, n: nat): Option<(string, string)>
    requires n < |lines|
  {
    match Classify(lines[n])
    case Device(id, name) =>
      var vendor := VendorAt(lines, n);
      if vendor == "" then None else Some((vendor + ":" + id, name))
    case _ => None
  }

  predicate Names(lines: seq<string>, n: nat, key: string)
    requires n < |lines|
  {
    var e := EntryAt(lines, n);
    e.Some? && e.value.0 == key
  }

  /** Scans the first n lines for a key: the name on the first line that names it. */
  function ScanLines(lines: seq<string>, n: nat, key: string): (r: Option<string>)
    requires n <= |lines|
    ensures r.None? ==> forall i | 0 <= i < n :: !Names(lines, i, key)
    ensures r.Some? ==> exists i | 0 <= i < n ::
      EntryAt(lines, i) == Some((key, r.value)) && forall k | 0 <= k < i :: !Names(lines, k, key)
  {
    if n == 0 then None
    else
      var before := ScanLines(lines, n - 1, key);
      if before.Some? then before
      else if Names(lines, n - 1, key) then Some(EntryAt(lines, n - 1).value.1) else None
  }

  function Find(names: map<string, string>, key: string): Option<string> {
    if key in names then Some(names[key]) else None
  }

  function ScanTable(body: string, key: string): Option<string> {
    ScanLines(SplitLines(body), |SplitLines(body)|, key)
  }

  /** Builds the index of one table: for every key, what a scan of the table finds. */
  method ParsePCINames(ids: string) returns (names: map<string, string>)
    ensures forall key :: Find(names, key) == ScanTable(ids, key)
  {
    hide Classify;
    names := map[];
    var vendor := "";
    var lines := SplitLines(ids);
    for i := 0 to |lines|
      invariant vendor == VendorAt(lines, i)
      invariant forall key :: Find(names, key) == ScanLines(lines, i, key)
    {
      var line := Classify(lines[i]);
      ghost var before := names;
      match line
      case Ignored =>
      case Vendor(id) =>
        vendor := id;
      case Device(id, name) =>
        if vendor != "" {
          var key := vendor + ":" + id;
          if key !in names {
            names := names[key := name];
          }
        }
      forall key ensures Find(names, key) == ScanLines(lines, i + 1, key) {
        assert Find(before, key) == ScanLines(lines, i, key);
      }
    }
  }

  // ----- several tables

  type Path = string

  /** Scans the first n tables that exist, in path order: the first that names the key decides. */
  function ScanTables(paths: seq<Path>, n: nat, bodies: map<Path, string>, key: string): Option<string>
    requires n <= |paths|
  {
    if n == 0 then None
    else
      var before := ScanTables(paths, n - 1, bodies, key);
      if before.Some? then before
      else if paths[n - 1] in bodies then ScanTable(bodies[paths[n - 1]], key) else None
  }

  /** The first table in path order that names the key decides. */
  lemma {:induction false} FirstTableDecides(paths: seq<Path>, n: nat, bodies: map<Path, string>, key: string)
    requires n <= |paths|
    ensures
      match ScanTables(paths, n, bodies, key)
      case None => forall i | 0 <= i < n && paths[i] in bodies :: ScanTable(bodies[paths[i]], key) == None
      case Some(name) =>
        exists i | 0 <= i < n ::
          && paths[i] in bodies && ScanTable(bodies[paths[i]], key) == Some(name)
          && forall k | 0 <= k < i && paths[k] in bodies :: ScanTable(bodies[paths[k]], key) == None
  {
    hide ScanTable;
    if n > 0 {
      FirstTableDecides(paths, n - 1, bodies, key);
    }
  }

  /** Adds what a later table names and no earlier one did, key by key in any order. */
  method Merge(names: map<string, string>, later: map<string, string>) returns (merged: map<string, string>)
    ensures forall key :: Find(merged, key) == (if key in names then Some(names[key]) else Find(later, key))
  {
    merged := names;
    var todo := later.Keys;
    while todo != {}
      invariant todo <= later.Keys
      invariant forall key ::
        Find(merged, key) == if key in names then Some(names[key]) else if key in todo then None else Find(later, key)
      decreases todo
    {
      var key :| key in todo;
      todo := todo - {key};
      if key !in merged {
        merged := merged[key := later[key]];
      }
    }
  }

  // ----- the cache

  /** fileStamp: a length and a modification time. Only the zero value, which stands for no file, has no time. */
  datatype Stamp = Stamp(size: nat, mod: Option<int>)

  const ZERO_STAMP := Stamp(0, None)

  datatype File = File(size: nat, modified: int, body: string)

  /** Stat of a file that exists: its time is a real instant, so the stamp is never the zero value. */
  function Stat(file: File): (stamp: Stamp)
    ensures stamp != ZERO_STAMP
  {
    Stamp(file.size, Some(file.modified))
  }

  /** Reading a map entry in Go: the zero value when there is none. */
  function StampOf(stamps: map<Path, Stamp>, path: Path): Stamp {
    if path in stamps then stamps[path] else ZERO_STAMP
  }

  predicate SameFileStamps(a: map<Path, Stamp>, b: map<Path, Stamp>) {
    |a| == |b| && forall path | path in a :: StampOf(b, path) == a[path]
  }

  ghost predicate NoZeroStamp(a: map<Path, Stamp>) {
    forall path | path in a :: a[path] != ZERO_STAMP
  }

  lemma SameKeys(a: map<Path, Stamp>, b: map<Path, Stamp>)
    requires NoZeroStamp(a) && SameFileStamps(a, b)
    ensures a == b
  {
    assert forall path | path in a.Keys :: path in b.Keys;
    assert |a.Keys| == |b.Keys| && a.Keys <= b.Keys;
    assert |b.Keys - a.Keys| == 0;
    assert forall path | path in b.Keys && path !in a.Keys :: path in b.Keys - a.Keys;
    assert a.Keys == b.Keys;
  }

  /** Some path is longer than all of these. */
  lemma {:induction false} LongerPath(paths: set<Path>) returns (q: Path)
    ensures forall p | p in paths :: |p| < |q|
    decreases paths
  {
    q := "/";
    if paths != {} {
      var p :| p in paths;
      var r := LongerPath(paths - {p});
      q := if |p| < |r| then r else p + "/";
      assert forall x | x in paths :: x == p || x in paths - {p};
    }
  }

  /** A file with the zero stamp can be replaced by any other file unnoticed. */
  lemma ZeroStampHidesChange(a: map<Path, Stamp>, p: Path, q: Path, s: Stamp)
    requires p in a && a[p] == ZERO_STAMP && q !in a
    ensures var b := (a - {p})[q := s]; SameFileStamps(a, b) && a != b
  {
    var b := (a - {p})[q := s];
    assert q in b;
    assert b.Keys == a.Keys - {p} + {q};
    assert |b| == |b.Keys| && |a| == |a.Keys|;
  }

  /** The comparison is map equality, whatever a is compared with, exactly when no stamp in a is zero. */
  lemma SameStampsIsEquality(a: map<Path, Stamp>)
    ensures NoZeroStamp(a) <==> forall b :: SameFileStamps(a, b) <==> a == b
  {
    if NoZeroStamp(a) {
      forall b ensures SameFileStamps(a, b) <==> a == b {
        if SameFileStamps(a, b) {
          SameKeys(a, b);
        }
      }
    } else {
      var p :| p in a && a[p] == ZERO_STAMP;
      var q := LongerPath(a.Keys);
      assert q !in a.Keys;
      ZeroStampHidesChange(a, p, q, ZERO_STAMP);
    }
  }

  function Bodies(files: map<Path, File>): map<Path, string> {
    map p | p in files :: files[p].body
  }

  /** What the files named by stamps hold, when a stamp tells the content. */
  function Told(stamps: map<Path, Stamp>, content: (Path, Stamp) -> string): map<Path, string> {
    map p | p in stamps :: content(p, stamps[p])
  }

  /** A stamp tells the content of a path, now and whenever it occurs. */
  ghost predicate StampsTell(files: map<Path, File>, content: (Path, Stamp) -> string) {
    forall p | p in files :: files[p].body == content(p, Stat(files[p]))
  }

  function FormatPCIID(vendor: string, device: string): string {
    ToLower(WithoutPrefix(vendor)) + ":" + ToLower(WithoutPrefix(device))
  }

  function WithoutPrefix(s: string): string {
    if "0x" <= s then s[2..] else s
  }

  class PciNameCache {
    const paths: seq<Path>
    var names: map<string, string>
    var stamps: map<Path, Stamp>
    /** What each stamp of each path stands for, over the whole life of the cache. */
    ghost const content: (Path, Stamp) -> string

    /** The index is what a scan of the stamped tables finds. */
    ghost predicate Valid()
      reads this
    {
      forall key :: Find(names, key) == ScanTables(paths, |paths|, Told(stamps, content), key)
    }

    constructor (paths: seq<Path>, ghost content: (Path, Stamp) -> string)
      ensures Valid() && this.paths == paths && this.content == content
    {
      this.paths := paths;
      this.content := content;
      names, stamps := map[], map[];
      new;
      forall key ensures Find(names, key) == ScanTables(paths, |paths|, Told(stamps, content), key) {
        NoTables(paths, |paths|, Told(stamps, content), key);
      }
    }

    /** The stamps of the tables that exist. */
    method StatTables(files: map<Path, File>) returns (now: map<Path, Stamp>)
      ensures forall p :: p in now <==> p in paths && p in files
      ensures forall p | p in now :: now[p] == Stat(files[p])
    {
      now := map[];
      for i := 0 to |paths|
        invariant forall p :: p in now <==> p in paths[..i] && p in files
        invariant forall p | p in now :: now[p] == Stat(files[p])
      {
        if paths[i] in files {
          now := now[paths[i] := Stat(files[paths[i]])];
        }
      }
      assert paths[..|paths|] == paths;
    }

    /** Reads and indexes every table, in path order. */
    method ReadTables(files: map<Path, File>) returns (index: map<string, string>)
      ensures forall key :: Find(index, key) == ScanTables(paths, |paths|, Bodies(files), key)
    {
      hide ScanTable;
      index := map[];
      for i := 0 to |paths|
        invariant forall key :: Find(index, key) == ScanTables(paths, i, Bodies(files), key)
      {
        ghost var before := index;
        if paths[i] in files {
          var table := ParsePCINames(files[paths[i]].body);
          index := Merge(index, table);
          forall key ensures Find(index, key) == ScanTables(paths, i + 1, Bodies(files), key) {
            assert Find(before, key) == ScanTables(paths, i, Bodies(files), key);
            assert Find(table, key) == ScanTable(files[paths[i]].body, key);
          }
        }
      }
    }

    /** Re-reads the tables when one of them changed, appeared or vanished. */
    method Refresh(files: map<Path, File>)
      requires Valid() && StampsTell(files, content)
      modifies this
      ensures Valid()
      ensures forall key :: Find(names, key) == ScanTables(paths, |paths|, Bodies(files), key)
    {
      hide ScanTables, Find;
      var now := StatTables(files);
      forall key
        ensures ScanTables(paths, |paths|, Told(now, content), key) == ScanTables(paths, |paths|, Bodies(files), key)
      {
        SameTables(paths, |paths|, Told(now, content), Bodies(files), key);
      }
      if SameFileStamps(now, stamps) {
        SameStampsIsEquality(now);
        return;
      }
      var index := ReadTables(files);
      names, stamps := index, now;
    }

    /**
     The name of a device: through the cache, exactly what reading all tables afresh would find, or ""
     when none names it.
     */
    method Lookup(vendor: string, device: string, files: map<Path, File>) returns (name: string)
      requires Valid() && StampsTell(files, content)
      modifies this
      ensures Valid()
      ensures
        var found := ScanTables(paths, |paths|, Bodies(files), FormatPCIID(vendor, device));
        name == if found.Some? then found.value else ""
    {
      Refresh(files);
      var key := FormatPCIID(vendor, device);
      ghost var found := Find(names, key);
      return if key in names then names[key] else "";
    }
  }

  lemma {:induction false} NoTables(paths: seq<Path>, n: nat, bodies: map<Path, string>, key: string)
    requires n <= |paths| && bodies == map[]
    ensures ScanTables(paths, n, bodies, key) == None
  {
    if n > 0 {
      NoTables(paths, n - 1, bodies, key);
    }
  }

  /** Scans agree when the tables at the scanned paths do. */
  lemma {:induction false} SameTables(paths: seq<Path>, n: nat, a: map<Path, string>, b: map<Path, string>, key: string)
    requires n <= |paths|
    requires forall i | 0 <= i < n ::
        (paths[i] in a <==> paths[i] in b) && (paths[i] in a ==> a[paths[i]] == b[paths[i]])
    ensures ScanTables(paths, n, a, key) == ScanTables(paths, n, b, key)
  {
    if n > 0 {
      SameTables(paths, n - 1, a, b, key);
    }
  }
}
