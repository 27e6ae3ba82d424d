/** metric/system/cgroup: which cgroups version a process uses, and the paths of its controllers. */
module CgroupPaths {
  import opened Strings
  import opened Wrappers

  datatype Version = CgroupsV1 | CgroupsV2

  datatype ControllerPath = ControllerPath(controllerPath: string, fullPath: string, isV2: bool)

  datatype PathList = PathList(v1: map<string, ControllerPath>, v2: map<string, ControllerPath>)

  /** The reader's settings, with the file system and path functions it calls. */
  datatype Reader = Reader(
    v1Mounts: map<string, string>, v2Loc: string, hierarchyOverride: string, rootSet: bool,
    resolve: string -> string, join: (string, string) -> string,
    readDir: string -> Result<seq<string>>, readFile: string -> Result<string>)

  const V2_MARK := "0::/"

  // ---------- version ----------

  /** The path on the last line that carries the V2 mark; empty without one. */
  function LastV2Path(lines: seq<string>): string {
    if lines == [] then ""
    else
      var line := lines[|lines| - 1];
      if Contains(line, V2_MARK) then (MarkedLineHasFields(line); Split(line, ':')[2])
      else LastV2Path(lines[..|lines| - 1])
  }

  lemma {:induction false} MarkedLineHasFields(line: string)
    requires Contains(line, V2_MARK)
    ensures |Split(line, ':')| >= 3
  {
    if V2_MARK <= line {
      assert line[0] == '0' && line[1] == ':' && line[2] == ':';
      assert line[1..][0] == ':' && line[1..][1..] == line[2..] && line[2..][0] == ':';
    } else {
      MarkedLineHasFields(line[1..]);
    }
  }

  method ReadControllerList(r: Reader, text: string) returns (controllers: Result<seq<string>>)
    ensures var path := LastV2Path(Split(text, '\n'));
      if r.v2Loc == "" || path == "" then controllers == Ok([])
      else
        var raw := r.readFile(r.join(r.join(r.v2Loc, path), "cgroup.controllers"));
        controllers == if raw.Err? then Err("error reading controllers")
                       else if raw.value == "" then Ok([]) else Ok(Split(raw.value, ' '))
  {
    if r.v2Loc == "" {
      return Ok([]);
    }
    var lines := Split(text, '\n');
    var cgpath := "";
    for i := 0 to |lines|
      invariant cgpath == LastV2Path(lines[..i])
    {
      assert lines[..i + 1][..i] == lines[..i];
      if Contains(lines[i], V2_MARK) {
        MarkedLineHasFields(lines[i]);
        cgpath := Split(lines[i], ':')[2];
      }
    }
    assert lines[..|lines|] == lines;
    if cgpath == "" {
      return Ok([]);
    }
    var raw := r.readFile(r.join(r.join(r.v2Loc, cgpath), "cgroup.controllers"));
    if raw.Err? {
      return Err("error reading controllers");
    }
    if raw.value == "" {
      return Ok([]);
    }
    controllers := Ok(Split(raw.value, ' '));
  }

  /** Only the V2 line, next to blank space. */
  predicate IsV2Only(text: string) {
    Contains(text, V2_MARK) && |Split(TrimSpace(text), '\n')| == 1
  }

  predicate IsHybrid(text: string) {
    Contains(text, V2_MARK) && |Split(TrimSpace(text), '\n')| != 1
  }

  /** In a hybrid hierarchy V2 is chosen exactly when the V2 group lists some controller. */
  method CgroupsVersion(r: Reader, file: Result<string>) returns (v: Result<Version>)
    ensures file.Err? ==> v.Err?
    ensures file.Ok? && !Contains(file.value, V2_MARK) ==> v == Ok(CgroupsV1)
    ensures file.Ok? && IsV2Only(file.value) ==> v == Ok(CgroupsV2)
    ensures file.Ok? && IsHybrid(file.value) ==>
      var path := LastV2Path(Split(file.value, '\n'));
      if r.v2Loc == "" || path == "" then v == Ok(CgroupsV1)
      else
        var raw := r.readFile(r.join(r.join(r.v2Loc, path), "cgroup.controllers"));
        if raw.Err? then v.Err? else v == Ok(if raw.value == "" then CgroupsV1 else CgroupsV2)
  {
    if file.Err? {
      return Err("error reading cgroup file");
    }
    if Contains(file.value, V2_MARK) {
      if |Split(TrimSpace(file.value), '\n')| == 1 {
        return Ok(CgroupsV2);
      }
      var controllers := ReadControllerList(r, file.value);
      if controllers.Err? {
        return Err("error fetching cgroup controller list");
      }
      if |controllers.value| > 0 {
        return Ok(CgroupsV2);
      }
      return Ok(CgroupsV1);
    }
    v := Ok(CgroupsV1);
  }

  // ---------- paths ----------

  predicate HasThreeFields(line: string) {
    |Split(line, ':')| == 3
  }

  predicate IsV1Line(line: string) {
    HasThreeFields(line) && !Contains(line, V2_MARK)
  }

  predicate IsV2Line(line: string) {
    HasThreeFields(line) && Contains(line, V2_MARK)
  }

  function PathOn(r: Reader, line: string): string
    requires HasThreeFields(line)
  {
    if r.hierarchyOverride != "" then r.hierarchyOverride else Split(line, ':')[2]
  }

  function Subsystems(line: string): seq<string>
    requires HasThreeFields(line)
  {
    Split(Split(line, ':')[1], ',')
  }

  function V1Entry(r: Reader, line: string, subsystem: string): ControllerPath
    requires HasThreeFields(line)
  {
    var mount := if subsystem in r.v1Mounts then r.v1Mounts[subsystem] else "";
    ControllerPath(PathOn(r, line), r.join(mount, PathOn(r, line)), false)
  }

  /** V2 lines are passed over when there is no V2 mount and no host root to find one under. */
  predicate SeesV2(r: Reader) {
    r.v2Loc != "" || r.rootSet
  }

  function V2Directory(r: Reader, line: string): string
    requires HasThreeFields(line)
  {
    if r.v2Loc == "" && r.rootSet then r.resolve(r.join("/sys/fs/cgroup/unified", PathOn(r, line)))
    else r.join(r.v2Loc, PathOn(r, line))
  }

  function V2Entry(r: Reader, line: string): ControllerPath
    requires HasThreeFields(line)
  {
    ControllerPath(PathOn(r, line), V2Directory(r, line), true)
  }

  function TrimStatSuffix(name: string): string {
    if |name| >= 5 && name[|name| - 5..] == ".stat" then name[..|name| - 5] else name
  }

  /** The controllers a directory listing shows: its names containing "stat". */
  predicate Lists(names: seq<string>, controller: string) {
    exists n :: n in names && Contains(n, "stat") && TrimStatSuffix(n) == controller
  }

  /** The last V1 line naming a subsystem. */
  function LastV1Line(lines: seq<string>, subsystem: string): Option<string> {
    if lines == [] then None
    else
      var line := lines[|lines| - 1];
      if IsV1Line(line) && subsystem in Subsystems(line) then Some(line)
      else LastV1Line(lines[..|lines| - 1], subsystem)
  }

  /** The last V2 line whose directory lists a controller. */
  function LastV2Line(r: Reader, lines: seq<string>, controller: string): Option<string> {
    if lines == [] then None
    else
      var line := lines[|lines| - 1];
      if IsV2Line(line) && SeesV2(r) && Lists(r.readDir(V2Directory(r, line)).GetOr([]), controller) then Some(line)
      else LastV2Line(r, lines[..|lines| - 1], controller)
  }

  predicate FailsOn(r: Reader, line: string) {
    IsV2Line(line) && SeesV2(r) && r.readDir(V2Directory(r, line)).Err?
  }

  ghost predicate IsV1Map(r: Reader, lines: seq<string>, v1: map<string, ControllerPath>) {
    && (forall k :: k in v1 <==> LastV1Line(lines, k).Some?)
    && (forall k :: k in v1 ==>
          var line := LastV1Line(lines, k).value; HasThreeFields(line) && v1[k] == V1Entry(r, line, k))
  }

  ghost predicate IsV2Map(r: Reader, lines: seq<string>, v2: map<string, ControllerPath>) {
    && (forall k :: k in v2 <==> LastV2Line(r, lines, k).Some?)
    && (forall k :: k in v2 ==>
          var line := LastV2Line(r, lines, k).value; HasThreeFields(line) && v2[k] == V2Entry(r, line))
  }

  method AddSubsystems(v1: map<string, ControllerPath>, r: Reader, line: string)
    returns (after: map<string, ControllerPath>)
    requires HasThreeFields(line)
    ensures forall k :: k in after <==> k in v1 || k in Subsystems(line)
    ensures forall k :: k in after ==> after[k] == if k in Subsystems(line) then V1Entry(r, line, k) else v1[k]
  {
    after := v1;
    var subsystems := Split(Split(line, ':')[1], ',');
    for i := 0 to |subsystems|
      invariant forall k :: k in after <==> k in v1 || k in subsystems[..i]
      invariant forall k :: k in after ==> after[k] == if k in subsystems[..i] then V1Entry(r, line, k) else v1[k]
    {
      after := after[subsystems[i] := V1Entry(r, line, subsystems[i])];
      assert subsystems[..i + 1] == subsystems[..i] + [subsystems[i]];
    }
    assert subsystems[..|subsystems|] == subsystems;
  }

  method AddControllers(v2: map<string, ControllerPath>, names: seq<string>, entry: ControllerPath)
    returns (after: map<string, ControllerPath>)
    ensures forall k :: k in after <==> k in v2 || Lists(names, k)
    ensures forall k :: k in after ==> after[k] == if Lists(names, k) then entry else v2[k]
  {
    after := v2;
    for i := 0 to |names|
      invariant forall k :: k in after <==> k in v2 || Lists(names[..i], k)
      invariant forall k :: k in after ==> after[k] == if Lists(names[..i], k) then entry else v2[k]
    {
      ghost var before := names[..i];
      forall k
        ensures Lists(before + [names[i]], k) <==>
          Lists(before, k) || (Contains(names[i], "stat") && TrimStatSuffix(names[i]) == k)
      {
      }
      assert names[..i + 1] == before + [names[i]];
      if Contains(names[i], "stat") {
        after := after[TrimStatSuffix(names[i]) := entry];
      }
    }
    assert names[..|names|] == names;
  }

  lemma OtherLineKeepsV1(r: Reader, line: string, lines: seq<string>, v1: map<string, ControllerPath>)
    requires IsV1Map(r, lines, v1) && !IsV1Line(line)
    ensures IsV1Map(r, lines + [line], v1)
  {
    hide Split;
    hide Contains;
    hide V1Entry;
    assert (lines + [line])[..|lines|] == lines;
    assert forall k :: LastV1Line(lines + [line], k) == LastV1Line(lines, k);
  }

  lemma OtherLineKeepsV2(r: Reader, line: string, lines: seq<string>, v2: map<string, ControllerPath>)
    requires IsV2Map(r, lines, v2) && (!IsV2Line(line) || !SeesV2(r))
    ensures IsV2Map(r, lines + [line], v2)
  {
    hide Split;
    hide Contains;
    hide V2Entry;
    assert (lines + [line])[..|lines|] == lines;
    assert forall k :: LastV2Line(r, lines + [line], k) == LastV2Line(r, lines, k);
  }

  lemma V1MapExtends(r: Reader, line: string, lines: seq<string>,
                     v1: map<string, ControllerPath>, after: map<string, ControllerPath>)
    requires IsV1Map(r, lines, v1) && IsV1Line(line)
    requires forall k :: k in after <==> k in v1 || k in Subsystems(line)
    requires forall k :: k in after ==> after[k] == if k in Subsystems(line) then V1Entry(r, line, k) else v1[k]
    ensures IsV1Map(r, lines + [line], after)
  {
    hide Split;
    hide Contains;
    hide Subsystems;
    hide V1Entry;
    assert (lines + [line])[..|lines|] == lines;
    forall k
      ensures LastV1Line(lines + [line], k) == if k in Subsystems(line) then Some(line) else LastV1Line(lines, k)
    {
    }
    hide LastV1Line;
  }

  lemma V2MapExtends(r: Reader, line: string, lines: seq<string>, names: seq<string>,
                     v2: map<string, ControllerPath>, after: map<string, ControllerPath>)
    requires IsV2Map(r, lines, v2) && IsV2Line(line) && SeesV2(r) && r.readDir(V2Directory(r, line)) == Ok(names)
    requires forall k :: k in after <==> k in v2 || Lists(names, k)
    requires forall k :: k in after ==> after[k] == if Lists(names, k) then V2Entry(r, line) else v2[k]
    ensures IsV2Map(r, lines + [line], after)
  {
    hide Split;
    hide Contains;
    hide Lists;
    hide V2Directory;
    hide V2Entry;
    assert (lines + [line])[..|lines|] == lines;
    forall k
      ensures LastV2Line(r, lines + [line], k) == if Lists(names, k) then Some(line) else LastV2Line(r, lines, k)
    {
    }
    hide LastV2Line;
  }

  /** One line of the file. */
  method AddLine(r: Reader, line: string, paths: PathList, ghost lines: seq<string>) returns (after: Result<PathList>)
    requires IsV1Map(r, lines, paths.v1) && IsV2Map(r, lines, paths.v2)
    ensures after.Err? <==> FailsOn(r, line)
    ensures after.Ok? ==> IsV1Map(r, lines + [line], after.value.v1) && IsV2Map(r, lines + [line], after.value.v2)
  {
    hide Split;
    hide Contains;
    hide Lists;
    hide IsV1Map;
    hide IsV2Map;
    var fields := Split(line, ':');
    if |fields| != 3 {
      OtherLineKeepsV1(r, line, lines, paths.v1);
      OtherLineKeepsV2(r, line, lines, paths.v2);
      return Ok(paths);
    }
    if Contains(line, V2_MARK) {
      OtherLineKeepsV1(r, line, lines, paths.v1);
      if r.v2Loc == "" && !r.rootSet {
        OtherLineKeepsV2(r, line, lines, paths.v2);
        return Ok(paths);
      }
      var names := r.readDir(V2Directory(r, line));
      if names.Err? {
        return Err("error fetching cgroupV2 controllers");
      }
      var v2 := AddControllers(paths.v2, names.value, V2Entry(r, line));
      V2MapExtends(r, line, lines, names.value, paths.v2, v2);
      after := Ok(paths.(v2 := v2));
    } else {
      OtherLineKeepsV2(r, line, lines, paths.v2);
      var v1 := AddSubsystems(paths.v1, r, line);
      V1MapExtends(r, line, lines, paths.v1, v1);
      after := Ok(paths.(v1 := v1));
    }
  }

  /** Each map holds, for each key, the entry of the last line feeding it; the only failure is
      a V2 directory that cannot be read. */
  method ProcessCgroupPaths(r: Reader, file: Result<string>) returns (result: Result<PathList>)
    ensures file.Err? ==> result.Err?
    ensures file.Ok? ==> (result.Ok? <==> forall l :: l in ScanLines(file.value) ==> !FailsOn(r, l))
    ensures file.Ok? && result.Ok? ==>
      IsV1Map(r, ScanLines(file.value), result.value.v1) && IsV2Map(r, ScanLines(file.value), result.value.v2)
  {
    hide ScanLines;
    hide IsV1Map;
    hide IsV2Map;
    hide FailsOn;
    if file.Err? {
      return Err("error opening cgroup file");
    }
    var lines := ScanLines(file.value);
    var paths := PathList(map[], map[]);
    NoLines(r);
    for i := 0 to |lines|
      invariant forall l :: l in lines[..i] ==> !FailsOn(r, l)
      invariant IsV1Map(r, lines[..i], paths.v1) && IsV2Map(r, lines[..i], paths.v2)
    {
      assert lines[..i + 1] == lines[..i] + [lines[i]];
      var after := AddLine(r, lines[i], paths, lines[..i]);
      if after.Err? {
        return Err(after.message);
      }
      paths := after.value;
    }
    assert lines[..|lines|] == lines;
    result := Ok(paths);
  }

  lemma NoLines(r: Reader)
    ensures IsV1Map(r, [], map[]) && IsV2Map(r, [], map[])
  {
  }

  // ---------- version and paths agree ----------

  lemma {:induction false} NoMarkedLines(r: Reader, lines: seq<string>, k: string)
    requires !AnyContains(lines, V2_MARK)
    ensures LastV2Line(r, lines, k).None?
  {
    AnyContainsExists(lines, V2_MARK);
    if lines != [] {
      var init := lines[..|lines| - 1];
      AnyContainsExists(init, V2_MARK);
      assert lines[|lines| - 1] in lines && forall l :: l in init ==> l in lines;
      NoMarkedLines(r, init, k);
    }
  }

  lemma {:induction false} OnlyMarkedLines(lines: seq<string>, k: string)
    requires forall l :: l in lines ==> AllSpace(l) || Contains(l, V2_MARK)
    ensures LastV1Line(lines, k).None?
  {
    if lines != [] {
      var init, line := lines[..|lines| - 1], lines[|lines| - 1];
      assert line in lines && forall l :: l in init ==> l in lines;
      if AllSpace(line) {
        SplitWithout(line, ':');
      }
      OnlyMarkedLines(init, k);
    }
  }

  /** Text without the mark: the version is V1 and there are no V2 paths. */
  lemma UnmarkedIsV1(r: Reader, text: string, paths: PathList)
    requires !Contains(text, V2_MARK)
    requires IsV2Map(r, ScanLines(text), paths.v2)
    ensures !IsV2Only(text) && !IsHybrid(text) && paths.v2 == map[]
  {
    ContainsWithinLines(text, V2_MARK);
    forall k
      ensures k !in paths.v2
    {
      NoMarkedLines(r, ScanLines(text), k);
    }
  }

  /** One non-blank line with the mark: the version is V2 and there are no V1 paths. */
  lemma SingleMarkedIsV2(r: Reader, text: string, paths: PathList)
    requires IsV2Only(text)
    requires IsV1Map(r, ScanLines(text), paths.v1)
    ensures paths.v1 == map[]
  {
    hide Split;
    hide ScanLines;
    hide TrimSpace;
    SingleLineHolds(text, V2_MARK);
    forall k
      ensures k !in paths.v1
    {
      OnlyMarkedLines(ScanLines(text), k);
    }
  }

  /** A line feeds at most one of the maps, and only lines of three fields feed either. */
  lemma LineFeedsOneMap(r: Reader, lines: seq<string>, line: string, k: string, c: string)
    ensures LastV1Line(lines + [line], k) == LastV1Line(lines, k)
         || LastV2Line(r, lines + [line], c) == LastV2Line(r, lines, c)
    ensures !HasThreeFields(line) ==>
      && LastV1Line(lines + [line], k) == LastV1Line(lines, k)
      && LastV2Line(r, lines + [line], c) == LastV2Line(r, lines, c)
  {
    assert (lines + [line])[..|lines|] == lines;
  }

  lemma {:induction false} LastLinesHaveFields(r: Reader, lines: seq<string>, k: string)
    ensures LastV1Line(lines, k).Some? ==> LastV1Line(lines, k).value in lines && IsV1Line(LastV1Line(lines, k).value)
    ensures LastV2Line(r, lines, k).Some? ==>
      LastV2Line(r, lines, k).value in lines && IsV2Line(LastV2Line(r, lines, k).value) && SeesV2(r)
  {
    if lines != [] {
      LastLinesHaveFields(r, lines[..|lines| - 1], k);
    }
  }

  /** A V1 entry carries the override if there is one, otherwise the third field of a V1 line of
      the file; its full path is that under the subsystem's mount. */
  lemma V1EntryPaths(r: Reader, text: string, v1: map<string, ControllerPath>, k: string)
    requires IsV1Map(r, ScanLines(text), v1) && k in v1
    ensures !v1[k].isV2
    ensures r.hierarchyOverride != "" ==> v1[k].controllerPath == r.hierarchyOverride
    ensures r.hierarchyOverride == "" ==>
      exists l :: l in ScanLines(text) && IsV1Line(l) && v1[k].controllerPath == Split(l, ':')[2]
    ensures v1[k].fullPath == r.join(if k in r.v1Mounts then r.v1Mounts[k] else "", v1[k].controllerPath)
  {
    hide ScanLines;
    LastLinesHaveFields(r, ScanLines(text), k);
  }

  /** The same for V2 entries, under the unified mount or the one below the host root. */
  lemma V2EntryPaths(r: Reader, text: string, v2: map<string, ControllerPath>, k: string)
    requires IsV2Map(r, ScanLines(text), v2) && k in v2
    ensures v2[k].isV2 && SeesV2(r)
    ensures r.hierarchyOverride != "" ==> v2[k].controllerPath == r.hierarchyOverride
    ensures r.hierarchyOverride == "" ==>
      exists l :: l in ScanLines(text) && IsV2Line(l) && v2[k].controllerPath == Split(l, ':')[2]
    ensures v2[k].fullPath == if r.v2Loc != "" then r.join(r.v2Loc, v2[k].controllerPath)
                              else r.resolve(r.join("/sys/fs/cgroup/unified", v2[k].controllerPath))
  {
    hide ScanLines;
    LastLinesHaveFields(r, ScanLines(text), k);
  }
}
