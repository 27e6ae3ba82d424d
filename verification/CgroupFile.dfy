/** /proc/PID/cgroup as the kernel prints it, read by ProcessCgroupPaths. */
module CgroupFile {
  import opened CgroupPaths
  import opened Decimal
  import opened Strings
  import opened Wrappers

  /** A line of section "/proc/pid/cgroup" of cgroups(7): a V1 hierarchy with the subsystems mounted
      on it together, or the unified hierarchy. */
  datatype Entry =
    | Hierarchy(id: nat, subsystems: seq<string>, path: string)
    | Unified(path: string)

  function PrintEntry(e: Entry): string {
    match e
    case Hierarchy(id, subsystems, path) => PrintNat(id) + ":" + Join(subsystems, ",") + ":" + path
    case Unified(path) => "0::" + path
  }

  predicate IsName(s: string) {
    s != "" && ':' !in s && ',' !in s && '\n' !in s && '\r' !in s
  }

  /** The path holds no colon; ColonPathFeedsNothing says what happens to those that do. */
  predicate WellFormed(e: Entry) {
    && e.path != "" && e.path[0] == '/' && ':' !in e.path && '\n' !in e.path && '\r' !in e.path
    && (e.Hierarchy? ==> e.subsystems != [] && forall k :: k in e.subsystems ==> IsName(k))
  }

  // ---------- one line ----------

  lemma {:induction false} JoinedAvoids(names: seq<string>, c: char)
    requires c != ',' && forall k :: k in names ==> c !in k
    ensures c !in Join(names, ",")
  {
    if names != [] {
      assert names[0] in names;
      JoinedAvoids(names[1..], c);
    }
  }

  lemma JoinedNotEmpty(names: seq<string>)
    requires names != [] && names[0] != ""
    ensures Join(names, ",") != ""
  {
  }

  lemma OnlyTwoColons(a: string, b: string, c: string, i: nat)
    requires ':' !in a && ':' !in b && ':' !in c && i < |a + ":" + b + ":" + c|
    requires i != |a| && i != |a| + 1 + |b|
    ensures (a + ":" + b + ":" + c)[i] != ':'
  {
    var line := a + ":" + b + ":" + c;
    if i < |a| {
      assert line[i] == a[i] && a[i] in a;
    } else if i < |a| + 1 + |b| {
      assert line[i] == b[i - |a| - 1] && b[i - |a| - 1] in b;
    } else {
      assert line[i] == c[i - |a| - |b| - 2] && c[i - |a| - |b| - 2] in c;
    }
  }

  lemma MarkAt(line: string) returns (i: nat)
    requires Contains(line, V2_MARK)
    ensures i + 1 < |line| && line[i] == line[i + 1] == ':'
  {
    var j := ContainsAt(line, V2_MARK);
    i := j + 1;
    assert line[j..j + 4][1] == V2_MARK[1] && line[j..j + 4][2] == V2_MARK[2];
  }

  /** Two colons with something between them are no mark. */
  lemma NoMark(a: string, b: string, c: string)
    requires ':' !in a && ':' !in b && ':' !in c && b != ""
    ensures !Contains(a + ":" + b + ":" + c, V2_MARK)
  {
    hide Contains;
    var line := a + ":" + b + ":" + c;
    if Contains(line, V2_MARK) {
      var i := MarkAt(line);
      var j := if i == |a| || i == |a| + 1 + |b| then i + 1 else i;
      OnlyTwoColons(a, b, c, j);
    }
  }

  /** A V1 line feeds each subsystem mounted on its hierarchy, with its path. */
  lemma HierarchyReads(e: Entry)
    requires WellFormed(e) && e.Hierarchy?
    ensures var line := PrintEntry(e);
      IsV1Line(line) && IsLine(line) && Subsystems(line) == e.subsystems && Split(line, ':')[2] == e.path
  {
    hide Split;
    hide Contains;
    hide Join;
    hide PrintNat;
    var id, names := PrintNat(e.id), Join(e.subsystems, ",");
    JoinedAvoids(e.subsystems, ':');
    JoinedAvoids(e.subsystems, '\n');
    JoinedAvoids(e.subsystems, '\r');
    assert e.subsystems[0] in e.subsystems;
    JoinedNotEmpty(e.subsystems);
    SplitThree(id, names, e.path, ':');
    SplitJoin(e.subsystems, ',');
    NoMark(id, names, e.path);
    NoLineEnds(id, names, e.path);
  }

  lemma NoLineEnds(a: string, b: string, c: string)
    requires AllDigits(a) && '\n' !in b && '\n' !in c && '\r' !in b && '\r' !in c
    ensures IsLine(a + ":" + b + ":" + c)
  {
    var line := a + ":" + b + ":" + c;
    assert '\n' !in a && '\r' !in a;
    assert '\r' !in line && line[|line| - 1] in line;
  }

  /** The line of the unified hierarchy carries the mark and the path. */
  lemma UnifiedReads(e: Entry)
    requires WellFormed(e) && e.Unified?
    ensures var line := PrintEntry(e);
      IsV2Line(line) && IsLine(line) && Split(line, ':')[2] == e.path
  {
    hide Split;
    var line := PrintEntry(e);
    SplitThree("0", "", e.path, ':');
    assert line == "0" + ":" + "" + ":" + e.path;
    assert V2_MARK <= line;
    assert Contains(line, V2_MARK);
    hide Contains;
    NoLineEnds("0", "", e.path);
  }

  /** A path with a colon splits into too many fields: the line is passed over. */
  lemma ColonPathFeedsNothing(e: Entry)
    requires e.Hierarchy? ==> e.subsystems != [] && forall k :: k in e.subsystems ==> IsName(k)
    ensures HasThreeFields(PrintEntry(e)) <==> ':' !in e.path
  {
    hide Split;
    hide Join;
    hide PrintNat;
    var id := if e.Hierarchy? then PrintNat(e.id) else "0";
    var names := if e.Hierarchy? then Join(e.subsystems, ",") else "";
    if e.Hierarchy? {
      JoinedAvoids(e.subsystems, ':');
    }
    assert PrintEntry(e) == id + [':'] + (names + [':'] + e.path);
    SplitConcat(id, ':', names + [':'] + e.path);
    SplitConcat(names, ':', e.path);
    SplitOneExactly(e.path, ':');
  }

  // ---------- the whole file ----------

  function PrintAll(entries: seq<Entry>): seq<string> {
    if entries == [] then [] else PrintAll(entries[..|entries| - 1]) + [PrintEntry(entries[|entries| - 1])]
  }

  /** The last entry with the subsystem. */
  function LastWith(entries: seq<Entry>, k: string): Option<Entry> {
    if entries == [] then None
    else
      var e := entries[|entries| - 1];
      if e.Hierarchy? && k in e.subsystems then Some(e) else LastWith(entries[..|entries| - 1], k)
  }

  lemma V1LineOfUnified(e: Entry)
    requires WellFormed(e)
    ensures IsV1Line(PrintEntry(e)) <==> e.Hierarchy?
    ensures IsV2Line(PrintEntry(e)) <==> e.Unified?
    ensures IsLine(PrintEntry(e)) && HasThreeFields(PrintEntry(e))
    ensures Split(PrintEntry(e), ':')[2] == e.path
    ensures e.Hierarchy? ==> Subsystems(PrintEntry(e)) == e.subsystems
  {
    if e.Hierarchy? {
      HierarchyReads(e);
    } else {
      UnifiedReads(e);
    }
  }

  lemma {:induction false} LastLineOf(entries: seq<Entry>, k: string)
    requires forall e :: e in entries ==> WellFormed(e)
    ensures var line, e := LastV1Line(PrintAll(entries), k), LastWith(entries, k);
      && line.Some? == e.Some?
      && (e.Some? ==> line.value == PrintEntry(e.value) && e.value in entries)
  {
    hide IsV1Line;
    hide Subsystems;
    hide PrintEntry;
    hide WellFormed;
    if entries != [] {
      var init, e := entries[..|entries| - 1], entries[|entries| - 1];
      LastLineOf(init, k);
      V1LineOfUnified(e);
      assert PrintAll(entries)[..|entries| - 1] == PrintAll(init) by {
        PrintedLength(init);
      }
      assert PrintAll(entries)[|PrintAll(entries)| - 1] == PrintEntry(e);
    }
  }

  lemma {:induction false} PrintedLength(entries: seq<Entry>)
    ensures |PrintAll(entries)| == |entries|
  {
    if entries != [] {
      PrintedLength(entries[..|entries| - 1]);
    }
  }

  lemma {:induction false} PrintedAreLines(entries: seq<Entry>)
    requires forall e :: e in entries ==> WellFormed(e)
    ensures forall l :: l in PrintAll(entries) ==> IsLine(l)
  {
    hide IsLine;
    hide PrintEntry;
    if entries != [] {
      PrintedAreLines(entries[..|entries| - 1]);
      V1LineOfUnified(entries[|entries| - 1]);
    }
  }

  /** The V1 map of a printed file holds exactly the subsystems of its hierarchies, each with the
      path of the last hierarchy it is mounted on, under the subsystem's mount. */
  lemma PrintedV1Paths(r: Reader, entries: seq<Entry>, v1: map<string, ControllerPath>)
    requires forall e :: e in entries ==> WellFormed(e)
    requires r.hierarchyOverride == "" && IsV1Map(r, ScanLines(FileOf(PrintAll(entries))), v1)
    ensures forall k :: k in v1 <==> exists e :: e in entries && e.Hierarchy? && k in e.subsystems
    ensures forall k :: k in v1 ==>
      var e := LastWith(entries, k);
      && e.Some?
      && v1[k].controllerPath == e.value.path && !v1[k].isV2
      && v1[k].fullPath == r.join(if k in r.v1Mounts then r.v1Mounts[k] else "", e.value.path)
  {
    hide ScanLines;
    hide Split;
    hide HasThreeFields;
    hide LastV1Line;
    hide WellFormed;
    hide PrintEntry;
    PrintedAreLines(entries);
    ScanFile(PrintAll(entries));
    forall k
      ensures k in v1 <==> exists e :: e in entries && e.Hierarchy? && k in e.subsystems
      ensures k in v1 ==> LastWith(entries, k).Some? && v1[k].controllerPath == LastWith(entries, k).value.path
    {
      LastLineOf(entries, k);
      LastWithExists(entries, k);
      if k in v1 {
        V1LineOfUnified(LastWith(entries, k).value);
      }
    }
  }

  lemma {:induction false} LastWithExists(entries: seq<Entry>, k: string)
    ensures LastWith(entries, k).Some? <==> exists e :: e in entries && e.Hierarchy? && k in e.subsystems
  {
    if entries != [] {
      var init, e := entries[..|entries| - 1], entries[|entries| - 1];
      LastWithExists(init, k);
      assert entries == init + [e];
      assert e in entries;
    }
  }

  // ---------- the unified hierarchy ----------

  predicate EndsInStat(name: string) {
    |name| >= 5 && name[|name| - 5..] == ".stat"
  }

  lemma {:induction false} StatContained(c: string)
    ensures Contains(c + ".stat", "stat")
  {
    if c == "" {
      assert (c + ".stat")[1..] == "stat";
    } else {
      assert (c + ".stat")[1..] == c[1..] + ".stat";
      StatContained(c[1..]);
    }
  }

  /** A controller is listed when there is a file of its own name ending in ".stat", or one that
      has "stat" elsewhere in its name. */
  lemma ListsExactly(names: seq<string>, c: string)
    ensures Lists(names, c) <==> c + ".stat" in names || (c in names && Contains(c, "stat") && !EndsInStat(c))
  {
    hide Contains;
    StatContained(c);
    assert EndsInStat(c + ".stat") && TrimStatSuffix(c + ".stat") == c;
    forall n | n in names && Contains(n, "stat") && TrimStatSuffix(n) == c
      ensures n == c + ".stat" || (n == c && !EndsInStat(c))
    {
      if EndsInStat(n) {
        assert n == n[..|n| - 5] + n[|n| - 5..];
      }
    }
  }

  /** The directory of a unified group: under the V2 mount, or where the host has it. */
  function GroupDirectory(r: Reader, path: string): string {
    if r.v2Loc != "" then r.join(r.v2Loc, path) else r.resolve(r.join("/sys/fs/cgroup/unified", path))
  }

  /** The entry is the unified hierarchy, and its group lists the controller. */
  predicate Provides(r: Reader, e: Entry, c: string) {
    e.Unified? && Lists(r.readDir(GroupDirectory(r, e.path)).GetOr([]), c)
  }

  /** The last entry that provides the controller. */
  function LastProviding(r: Reader, entries: seq<Entry>, c: string): Option<Entry> {
    if entries == [] then None
    else
      var e := entries[|entries| - 1];
      if Provides(r, e, c) then Some(e) else LastProviding(r, entries[..|entries| - 1], c)
  }

  lemma {:induction false} LastUnifiedLineOf(r: Reader, entries: seq<Entry>, c: string)
    requires forall e :: e in entries ==> WellFormed(e)
    requires r.hierarchyOverride == "" && (r.v2Loc != "" || r.rootSet)
    ensures var line, e := LastV2Line(r, PrintAll(entries), c), LastProviding(r, entries, c);
      && line.Some? == e.Some?
      && (e.Some? ==> line.value == PrintEntry(e.value) && e.value in entries && e.value.Unified?)
  {
    hide IsV2Line;
    hide HasThreeFields;
    hide Lists;
    hide PrintEntry;
    hide WellFormed;
    if entries != [] {
      var init, e := entries[..|entries| - 1], entries[|entries| - 1];
      LastUnifiedLineOf(r, init, c);
      V1LineOfUnified(e);
      PrintedLength(init);
      assert PrintAll(entries)[..|entries| - 1] == PrintAll(init);
      assert PrintAll(entries)[|PrintAll(entries)| - 1] == PrintEntry(e);
    }
  }

  lemma {:induction false} LastProvidingExists(r: Reader, entries: seq<Entry>, c: string)
    ensures LastProviding(r, entries, c).Some? <==> exists e :: e in entries && Provides(r, e, c)
  {
    hide Provides;
    if entries != [] {
      var init, e := entries[..|entries| - 1], entries[|entries| - 1];
      LastProvidingExists(r, init, c);
      assert entries == init + [e];
      assert e in entries;
    }
  }

  lemma {:induction false} NothingSeen(r: Reader, lines: seq<string>, v2: map<string, ControllerPath>)
    requires r.v2Loc == "" && !r.rootSet && IsV2Map(r, lines, v2)
    ensures v2 == map[]
  {
    forall c
      ensures c !in v2
    {
      NoLineSeen(r, lines, c);
    }
  }

  lemma {:induction false} NoLineSeen(r: Reader, lines: seq<string>, c: string)
    requires r.v2Loc == "" && !r.rootSet
    ensures LastV2Line(r, lines, c).None?
  {
    hide IsV2Line;
    if lines != [] {
      NoLineSeen(r, lines[..|lines| - 1], c);
    }
  }

  /** With a V2 mount or a host root, the V2 map of a printed file holds exactly the controllers its
      unified groups list, each with the path of the last such group; without, it holds none. */
  lemma PrintedV2Paths(r: Reader, entries: seq<Entry>, v2: map<string, ControllerPath>)
    requires forall e :: e in entries ==> WellFormed(e)
    requires r.hierarchyOverride == "" && IsV2Map(r, ScanLines(FileOf(PrintAll(entries))), v2)
    ensures r.v2Loc == "" && !r.rootSet ==> v2 == map[]
    ensures r.v2Loc != "" || r.rootSet ==> forall c :: c in v2 <==> exists e :: e in entries && Provides(r, e, c)
    ensures r.v2Loc != "" || r.rootSet ==> forall c :: c in v2 ==>
      var e := LastProviding(r, entries, c);
      e.Some? && v2[c] == ControllerPath(e.value.path, GroupDirectory(r, e.value.path), true)
  {
    hide ScanLines;
    hide Split;
    hide HasThreeFields;
    hide LastV2Line;
    hide WellFormed;
    hide PrintEntry;
    hide Provides;
    PrintedAreLines(entries);
    ScanFile(PrintAll(entries));
    if r.v2Loc == "" && !r.rootSet {
      NothingSeen(r, PrintAll(entries), v2);
      return;
    }
    forall c
      ensures c in v2 <==> exists e :: e in entries && Provides(r, e, c)
      ensures c in v2 ==>
        var e := LastProviding(r, entries, c);
        e.Some? && v2[c].controllerPath == e.value.path
    {
      LastUnifiedLineOf(r, entries, c);
      LastProvidingExists(r, entries, c);
      if c in v2 {
        V1LineOfUnified(LastProviding(r, entries, c).value);
      }
    }
  }

  // ---------- the mark ----------

  lemma {:induction false} MarkedEntries(entries: seq<Entry>)
    requires forall e :: e in entries ==> WellFormed(e)
    ensures (exists l :: l in PrintAll(entries) && Contains(l, "0::/")) <==> exists e :: e in entries && e.Unified?
  {
    hide Contains;
    hide WellFormed;
    hide PrintEntry;
    if entries != [] {
      var init, e := entries[..|entries| - 1], entries[|entries| - 1];
      MarkedEntries(init);
      V1LineOfUnified(e);
      assert entries == init + [e] && e in entries;
      assert PrintEntry(e) in PrintAll(entries);
    }
  }

  /** A printed file carries the mark exactly when it has a line of the unified hierarchy. */
  lemma PrintedMark(entries: seq<Entry>)
    requires forall e :: e in entries ==> WellFormed(e)
    ensures Contains(FileOf(PrintAll(entries)), "0::/") <==> exists e :: e in entries && e.Unified?
  {
    hide ScanLines;
    hide Contains;
    PrintedAreLines(entries);
    ScanFile(PrintAll(entries));
    ContainsWithinLines(FileOf(PrintAll(entries)), "0::/");
    AnyContainsExists(PrintAll(entries), "0::/");
    MarkedEntries(entries);
  }

  // ---------- the group the controller list is read under ----------

  function LastUnifiedPath(entries: seq<Entry>): string {
    if entries == [] then ""
    else
      var e := entries[|entries| - 1];
      if e.Unified? then e.path else LastUnifiedPath(entries[..|entries| - 1])
  }

  lemma {:induction false} LastMarkedLine(entries: seq<Entry>)
    requires forall e :: e in entries ==> WellFormed(e)
    ensures LastV2Path(PrintAll(entries)) == LastUnifiedPath(entries)
  {
    hide Contains;
    hide WellFormed;
    hide PrintEntry;
    hide Split;
    if entries != [] {
      var init, e := entries[..|entries| - 1], entries[|entries| - 1];
      LastMarkedLine(init);
      V1LineOfUnified(e);
      PrintedLength(init);
      assert PrintAll(entries)[..|entries| - 1] == PrintAll(init);
      assert PrintAll(entries)[|PrintAll(entries)| - 1] == PrintEntry(e);
    }
  }

  /** The controllers of a printed file are read under the path of its last unified line. */
  lemma PrintedGroupPath(entries: seq<Entry>)
    requires forall e :: e in entries ==> WellFormed(e)
    ensures LastV2Path(Split(FileOf(PrintAll(entries)), '\n')) == LastUnifiedPath(entries)
  {
    hide Split;
    PrintedAreLines(entries);
    SplitFile(PrintAll(entries));
    var lines := PrintAll(entries);
    assert (lines + [[]])[..|lines|] == lines;
    assert !Contains([], V2_MARK);
    LastMarkedLine(entries);
  }

  // ---------- the version ----------

  predicate EndsPlainly(e: Entry) {
    e.path != "" && !IsSpace(e.path[|e.path| - 1])
  }

  lemma PrintedEnds(e: Entry)
    requires WellFormed(e) && EndsPlainly(e)
    ensures var line := PrintEntry(e);
      line != "" && '\n' !in line && !IsSpace(line[0]) && !IsSpace(line[|line| - 1])
  {
    hide Join;
    hide IsSpace;
    V1LineOfUnified(e);
    var line := PrintEntry(e);
    assert line[|line| - 1] == e.path[|e.path| - 1];
    assert !IsSpace(line[0]) by {
      if e.Hierarchy? {
        assert line[0] == PrintNat(e.id)[0] && PrintNat(e.id)[0] in PrintNat(e.id);
        DigitIsNoSpace(line[0]);
      } else {
        DigitIsNoSpace('0');
      }
    }
  }

  lemma DigitIsNoSpace(c: char)
    requires IsDigit(c)
    ensures !IsSpace(c)
  {
  }

  lemma {:induction false} PrintedAllEnd(entries: seq<Entry>)
    requires forall e :: e in entries ==> WellFormed(e) && EndsPlainly(e)
    ensures forall l :: l in PrintAll(entries) ==>
      '\n' !in l && l != "" && !IsSpace(l[0]) && !IsSpace(l[|l| - 1])
  {
    hide IsSpace;
    hide PrintEntry;
    hide WellFormed;
    if entries != [] {
      PrintedAllEnd(entries[..|entries| - 1]);
      PrintedEnds(entries[|entries| - 1]);
    }
  }

  /** A printed file is V2 only when its one line is that of the unified hierarchy, hybrid when it
      has that line beside others, and otherwise neither. */
  lemma PrintedVersion(entries: seq<Entry>)
    requires entries != [] && forall e :: e in entries ==> WellFormed(e) && EndsPlainly(e)
    ensures var text := FileOf(PrintAll(entries));
      && (IsV2Only(text) <==> |entries| == 1 && entries[0].Unified?)
      && (IsHybrid(text) <==> |entries| > 1 && exists e :: e in entries && e.Unified?)
  {
    hide Contains;
    hide Split;
    hide TrimSpace;
    hide WellFormed;
    hide PrintEntry;
    PrintedMark(entries);
    PrintedAllEnd(entries);
    PrintedLength(entries);
    TrimmedFile(PrintAll(entries));
    if |entries| == 1 {
      assert entries[0] in entries;
    }
  }
}
