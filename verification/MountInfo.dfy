/** metric/system/cgroup/util.go: cgroup mountpoints from /proc/self/mountinfo. */
module MountInfo {
  import opened Strings
  import opened Wrappers

  datatype Mount = Mount(mountpoint: string, filesystemType: string, superOptions: seq<string>)

  datatype Mountpoints = Mountpoints(v1Mounts: map<string, string>, v2Loc: string)

  // ---------- one line ----------

  ghost predicate IsFirstDash(fields: seq<string>, i: nat) {
    i < |fields| && fields[i] == "-" && forall j :: 0 <= j < i ==> fields[j] != "-"
  }

  /** A line is readable when it has at least ten fields and three of them follow the first
      separator; the mount is then made of the fifth field and the fields after the separator. */
  ghost predicate Reads(line: string, m: Mount) {
    var fields := Fields(line);
    && |fields| >= 10
    && exists i: nat :: IsFirstDash(fields, i) && i + 3 < |fields|
         && m == Mount(fields[4], fields[i + 1], Split(fields[i + 3], ','))
  }

  method ParseMountinfoLine(line: string) returns (r: Result<Mount>)
    ensures r.Ok? ==> Reads(line, r.value)
    ensures r.Err? ==> forall m :: !Reads(line, m)
  {
    var fields := Fields(line);
    if |fields| < 10 {
      return Err("invalid mountinfo line, expected at least 10 fields");
    }
    var separatorIndex := 0;
    var i := 0;
    while i < |fields|
      invariant 0 <= i <= |fields|
      invariant separatorIndex == 0
      invariant forall j :: 0 <= j < i ==> fields[j] != "-"
    {
      if fields[i] == "-" {
        separatorIndex := i;
        break;
      }
      i := i + 1;
    }
    if fields[separatorIndex] != "-" {
      return Err("invalid mountinfo line, separator not found");
    }
    assert IsFirstDash(fields, separatorIndex);
    if |fields| - separatorIndex - 1 < 3 {
      return Err("invalid mountinfo line, expected at least 3 fields after separator");
    }
    var rest := fields[separatorIndex + 1..];
    r := Ok(Mount(fields[4], rest[0], Split(rest[2], ',')));
  }

  /** A line reads as at most one mount. */
  lemma ReadsOnce(line: string, m0: Mount, m1: Mount)
    requires Reads(line, m0) && Reads(line, m1)
    ensures m0 == m1
  {
  }

  /** A mountinfo entry as section 3.5 of the kernel's Documentation/filesystems/proc.txt lays
      it out: six fields, any number of optional ones, the separator, and three more. */
  datatype Entry = Entry(
    mountID: string, parentID: string, device: string, root: string, mountpoint: string, mountOptions: string,
    optional: seq<string>, filesystemType: string, source: string, superOptions: seq<string>)

  function EntryFields(e: Entry): seq<string> {
    [e.mountID, e.parentID, e.device, e.root, e.mountpoint, e.mountOptions]
    + e.optional + ["-", e.filesystemType, e.source, Join(e.superOptions, ",")]
  }

  function PrintEntry(e: Entry): string {
    Join(EntryFields(e), " ")
  }

  predicate WellFormed(e: Entry) {
    && (forall f :: f in EntryFields(e) ==> IsToken(f))
    && "-" !in [e.mountID, e.parentID, e.device, e.root, e.mountpoint, e.mountOptions] + e.optional
    && e.superOptions != []
    && (forall o :: o in e.superOptions ==> ',' !in o)
  }

  function MountOf(e: Entry): Mount {
    Mount(e.mountpoint, e.filesystemType, e.superOptions)
  }

  /** Every well-formed entry reads back as its own mountpoint, type and options. */
  lemma PrintedEntryReads(e: Entry)
    requires WellFormed(e)
    ensures Reads(PrintEntry(e), MountOf(e))
  {
    var fields := EntryFields(e);
    FieldsJoin(fields);
    SplitJoin(e.superOptions, ',');
    var head := [e.mountID, e.parentID, e.device, e.root, e.mountpoint, e.mountOptions] + e.optional;
    assert fields[..|head|] == head;
    forall j | 0 <= j < |head|
      ensures fields[j] != "-"
    {
      assert fields[j] == head[j] && head[j] in head;
    }
    assert IsFirstDash(fields, |head|);
  }

  /** A line of fewer than ten fields is refused. */
  lemma TooFewFields(fields: seq<string>, m: Mount)
    requires |fields| < 10 && forall f :: f in fields ==> IsToken(f)
    ensures !Reads(Join(fields, " "), m)
  {
    FieldsJoin(fields);
  }

  // ---------- the whole file ----------

  /** The subsystem an option names: what follows the first '=', or the option itself. */
  function OptionName(opt: string): string {
    var parts := Split(opt, '=');
    if |parts| > 1 then Join(parts[1..], "=") else opt
  }

  /** A named hierarchy, as in "name=systemd", names what follows the first sign; any other
      option names itself. */
  lemma OptionNames(key: string, value: string, plain: string)
    requires '=' !in key && '=' !in plain
    ensures OptionName(key + "=" + value) == value && OptionName(plain) == plain
  {
    SplitConcat(key, '=', value);
    JoinSplit(value, '=');
    SplitWithout(plain, '=');
  }

  /** An in-root cgroup V1 mount one of whose options names the subsystem. */
  ghost predicate Names(m: Mount, root: string, subsystem: string) {
    && root <= m.mountpoint && m.filesystemType == "cgroup"
    && exists opt :: opt in m.superOptions && OptionName(opt) == subsystem
  }

  predicate IsUnified(m: Mount, root: string) {
    root <= m.mountpoint && m.filesystemType == "cgroup2"
  }

  /** The first mount naming a subsystem. */
  ghost function FirstNaming(mounts: seq<Mount>, root: string, subsystem: string): Option<Mount> {
    if mounts == [] then None
    else
      var earlier := FirstNaming(mounts[..|mounts| - 1], root, subsystem);
      var m := mounts[|mounts| - 1];
      if earlier.Some? then earlier else if Names(m, root, subsystem) then Some(m) else None
  }

  /** The last unified mount. */
  function LastUnified(mounts: seq<Mount>, root: string): Option<Mount> {
    if mounts == [] then None
    else
      var m := mounts[|mounts| - 1];
      if IsUnified(m, root) then Some(m) else LastUnified(mounts[..|mounts| - 1], root)
  }

  ghost predicate IsV1Table(root: string, subsystems: set<string>, mounts: seq<Mount>, v1: map<string, string>) {
    && (forall k :: k in v1 <==> k in subsystems && FirstNaming(mounts, root, k).Some?)
    && (forall k :: k in v1 ==> v1[k] == FirstNaming(mounts, root, k).value.mountpoint)
  }

  /** Each supported subsystem is at the first in-root cgroup mount naming it, and nothing else
      is in the table; the unified hierarchy is at the last in-root cgroup2 mount. */
  ghost predicate IsTable(root: string, subsystems: set<string>, mounts: seq<Mount>, t: Mountpoints) {
    && IsV1Table(root, subsystems, mounts, t.v1Mounts)
    && t.v2Loc == if LastUnified(mounts, root).Some? then LastUnified(mounts, root).value.mountpoint else ""
  }

  lemma {:induction false} FirstNamingIsFirst(mounts: seq<Mount>, root: string, k: string)
    ensures FirstNaming(mounts, root, k).None? ==> forall m :: m in mounts ==> !Names(m, root, k)
    ensures FirstNaming(mounts, root, k).Some? ==>
      exists i :: 0 <= i < |mounts| && FirstNaming(mounts, root, k).value == mounts[i] && Names(mounts[i], root, k)
        && forall j :: 0 <= j < i ==> !Names(mounts[j], root, k)
  {
    if mounts != [] {
      var init, m := mounts[..|mounts| - 1], mounts[|mounts| - 1];
      FirstNamingIsFirst(init, root, k);
      assert mounts == init + [m];
      if FirstNaming(init, root, k).Some? {
        var i :| 0 <= i < |init| && FirstNaming(init, root, k).value == init[i] && Names(init[i], root, k)
          && forall j :: 0 <= j < i ==> !Names(init[j], root, k);
        assert mounts[i] == init[i];
      } else if Names(m, root, k) {
        assert mounts[|mounts| - 1] == m;
      }
    }
  }

  lemma {:induction false} LastUnifiedIsLast(mounts: seq<Mount>, root: string)
    ensures LastUnified(mounts, root).None? ==> forall m :: m in mounts ==> !IsUnified(m, root)
    ensures LastUnified(mounts, root).Some? ==>
      exists i :: 0 <= i < |mounts| && LastUnified(mounts, root).value == mounts[i] && IsUnified(mounts[i], root)
        && forall j :: i < j < |mounts| ==> !IsUnified(mounts[j], root)
  {
    if mounts != [] && !IsUnified(mounts[|mounts| - 1], root) {
      var init := mounts[..|mounts| - 1];
      LastUnifiedIsLast(init, root);
      assert mounts == init + [mounts[|mounts| - 1]];
    }
  }

  /** mounts are what the non-blank lines read as, in order. */
  ghost predicate ReadsAll(lines: seq<string>, mounts: seq<Mount>) {
    if lines == [] then mounts == []
    else
      var line := TrimSpace(lines[|lines| - 1]);
      if line == "" then ReadsAll(lines[..|lines| - 1], mounts)
      else
        && mounts != []
        && Reads(line, mounts[|mounts| - 1])
        && ReadsAll(lines[..|lines| - 1], mounts[..|mounts| - 1])
  }

  ghost predicate Unreadable(line: string) {
    TrimSpace(line) != "" && forall m :: !Reads(TrimSpace(line), m)
  }

  /** A text is answered by the table of the mounts its lines read as, or by an error when some
      line of it is unreadable. */
  ghost predicate Answers(root: string, subsystems: set<string>, text: string, r: Result<Mountpoints>) {
    match r
    case Ok(table) => exists mounts :: ReadsAll(ScanLines(text), mounts) && IsTable(root, subsystems, mounts, table)
    case Err(_) => exists line :: line in ScanLines(text) && Unreadable(line)
  }

  method AddSubsystems(table: map<string, string>, subsystems: set<string>, mount: Mount)
    returns (after: map<string, string>)
    ensures forall k :: k in after <==>
      k in table || (k in subsystems && exists opt :: opt in mount.superOptions && OptionName(opt) == k)
    ensures forall k :: k in after ==> after[k] == if k in table then table[k] else mount.mountpoint
  {
    after := table;
    for n := 0 to |mount.superOptions|
      invariant forall k :: k in after <==>
        k in table || (k in subsystems && exists i :: 0 <= i < n && OptionName(mount.superOptions[i]) == k)
      invariant forall k :: k in after ==> after[k] == if k in table then table[k] else mount.mountpoint
    {
      var opt := mount.superOptions[n];
      var fields := Split(opt, '=');
      if |fields| > 1 {
        opt := Join(fields[1..], "=");
      }
      if opt in subsystems && opt !in after {
        after := after[opt := mount.mountpoint];
      }
    }
    forall opt | opt in mount.superOptions
      ensures exists i :: 0 <= i < |mount.superOptions| && OptionName(mount.superOptions[i]) == OptionName(opt)
    {
      var i :| 0 <= i < |mount.superOptions| && mount.superOptions[i] == opt;
    }
  }

  method AddMount(root: string, subsystems: set<string>, mount: Mount, table: Mountpoints, ghost mounts: seq<Mount>)
    returns (after: Mountpoints)
    requires IsTable(root, subsystems, mounts, table)
    ensures IsTable(root, subsystems, mounts + [mount], after)
  {
    after := table;
    if root <= mount.mountpoint {
      if mount.filesystemType == "cgroup" {
        var v1 := AddSubsystems(table.v1Mounts, subsystems, mount);
        after := after.(v1Mounts := v1);
      }
      if mount.filesystemType == "cgroup2" {
        after := after.(v2Loc := mount.mountpoint);
      }
    }
    V1TableExtends(root, subsystems, mounts, mount, table.v1Mounts, after.v1Mounts);
    assert (mounts + [mount])[..|mounts|] == mounts;
  }

  method SubsystemMountpoints(root: string, subsystems: set<string>, text: string)
    returns (r: Result<Mountpoints>)
    ensures Answers(root, subsystems, text, r)
  {
    hide TrimSpace;
    hide ScanLines;
    hide Reads;
    hide IsTable;
    var lines := ScanLines(text);
    var table := Mountpoints(map[], "");
    ghost var mounts: seq<Mount> := [];
    assert IsTable(root, subsystems, [], table) by {
      EmptyTable(root, subsystems);
    }
    for n := 0 to |lines|
      invariant ReadsAll(lines[..n], mounts)
      invariant IsTable(root, subsystems, mounts, table)
    {
      assert lines[..n + 1][..n] == lines[..n];
      var line := TrimSpace(lines[n]);
      if line == "" {
        continue;
      }
      var parsed := ParseMountinfoLine(line);
      if parsed.Err? {
        assert Unreadable(lines[n]) && lines[n] in lines;
        return Err(parsed.message);
      }
      var mount := parsed.value;
      table := AddMount(root, subsystems, mount, table, mounts);
      assert (mounts + [mount])[..|mounts|] == mounts;
      mounts := mounts + [mount];
    }
    assert lines[..|lines|] == lines;
    r := Ok(table);
  }

  lemma EmptyTable(root: string, subsystems: set<string>)
    ensures IsTable(root, subsystems, [], Mountpoints(map[], ""))
  {
  }

  /** One more mount: a name is added only if it was absent. */
  lemma V1TableExtends(root: string, subsystems: set<string>, mounts: seq<Mount>, m: Mount,
                       v1: map<string, string>, after: map<string, string>)
    requires IsV1Table(root, subsystems, mounts, v1)
    requires forall k :: k in after <==> k in v1 || (k in subsystems && Names(m, root, k))
    requires forall k :: k in after ==> after[k] == if k in v1 then v1[k] else m.mountpoint
    ensures IsV1Table(root, subsystems, mounts + [m], after)
  {
    assert (mounts + [m])[..|mounts|] == mounts;
  }

  // ---------- a printed file ----------

  function PrintAll(entries: seq<Entry>): seq<string> {
    if entries == [] then [] else PrintAll(entries[..|entries| - 1]) + [PrintEntry(entries[|entries| - 1])]
  }

  function MountsOf(entries: seq<Entry>): seq<Mount> {
    if entries == [] then [] else MountsOf(entries[..|entries| - 1]) + [MountOf(entries[|entries| - 1])]
  }

  lemma PrintedEntryIsLine(e: Entry)
    requires WellFormed(e)
    ensures var line := PrintEntry(e);
      line != "" && TrimSpace(line) == line && IsLine(line) && !Unreadable(line)
      && forall m :: Reads(line, m) <==> m == MountOf(e)
  {
    hide TrimSpace;
    hide Fields;
    var line := PrintEntry(e);
    PrintedEntryReads(e);
    JoinedTokensAreLine(EntryFields(e));
    forall m | Reads(line, m)
      ensures m == MountOf(e)
    {
      ReadsOnce(line, m, MountOf(e));
    }
    hide *;
  }

  lemma {:induction false} PrintedReadable(entries: seq<Entry>)
    requires forall e :: e in entries ==> WellFormed(e)
    ensures forall l :: l in PrintAll(entries) ==> IsLine(l) && !Unreadable(l)
  {
    hide WellFormed;
    hide PrintEntry;
    hide IsLine;
    hide Unreadable;
    if entries != [] {
      PrintedReadable(entries[..|entries| - 1]);
      PrintedEntryIsLine(entries[|entries| - 1]);
    }
  }

  lemma ReadsOneMore(lines: seq<string>, line: string, mounts: seq<Mount>)
    requires line != "" && TrimSpace(line) == line
    ensures ReadsAll(lines + [line], mounts) <==>
      mounts != [] && Reads(line, mounts[|mounts| - 1]) && ReadsAll(lines, mounts[..|mounts| - 1])
  {
    hide TrimSpace;
    hide Reads;
    assert (lines + [line])[..|lines|] == lines;
  }

  lemma IsExtended(mounts: seq<Mount>, init: seq<Mount>, last: Mount)
    ensures mounts == init + [last] <==>
      mounts != [] && mounts[|mounts| - 1] == last && mounts[..|mounts| - 1] == init
  {
    if mounts != [] {
      assert mounts == mounts[..|mounts| - 1] + [mounts[|mounts| - 1]];
    }
  }

  lemma {:induction false} PrintedLines(entries: seq<Entry>, mounts: seq<Mount>)
    requires forall e :: e in entries ==> WellFormed(e)
    ensures ReadsAll(PrintAll(entries), mounts) <==> mounts == MountsOf(entries)
  {
    hide WellFormed;
    hide PrintEntry;
    hide TrimSpace;
    hide Reads;
    hide MountOf;
    if entries != [] {
      hide ReadsAll;
      var init, e := entries[..|entries| - 1], entries[|entries| - 1];
      PrintedLines(init, if mounts == [] then [] else mounts[..|mounts| - 1]);
      PrintedEntryIsLine(e);
      ReadsOneMore(PrintAll(init), PrintEntry(e), mounts);
      IsExtended(mounts, MountsOf(init), MountOf(e));
    }
  }

  /** Every well-formed file is answered by the table of exactly the entries printed into it. */
  lemma PrintedFileTable(root: string, subsystems: set<string>, entries: seq<Entry>, r: Result<Mountpoints>)
    requires forall e :: e in entries ==> WellFormed(e)
    requires Answers(root, subsystems, FileOf(PrintAll(entries)), r)
    ensures r.Ok? && IsTable(root, subsystems, MountsOf(entries), r.value)
  {
    hide IsTable;
    hide ScanLines;
    hide ReadsAll;
    hide Unreadable;
    hide WellFormed;
    var lines := PrintAll(entries);
    PrintedReadable(entries);
    ScanFile(lines);
    if r.Ok? {
      var mounts :| ReadsAll(lines, mounts) && IsTable(root, subsystems, mounts, r.value);
      PrintedLines(entries, mounts);
    }
  }

  /** Every V1 mount under the root is found by its options: a supported subsystem named by one of
      them, plainly or after a key, is in the table. */
  lemma EveryMountCounts(root: string, subsystems: set<string>, entries: seq<Entry>, r: Result<Mountpoints>,
                         e: Entry, key: string, subsystem: string)
    requires forall e :: e in entries ==> WellFormed(e)
    requires Answers(root, subsystems, FileOf(PrintAll(entries)), r)
    requires e in entries && e.filesystemType == "cgroup" && root <= e.mountpoint
    requires subsystem in subsystems && '=' !in key && '=' !in subsystem
    requires subsystem in e.superOptions || key + "=" + subsystem in e.superOptions
    ensures r.Ok? && subsystem in r.value.v1Mounts
  {
    hide WellFormed;
    hide Answers;
    PrintedFileTable(root, subsystems, entries, r);
    OptionNames(key, subsystem, subsystem);
    assert Names(MountOf(e), root, subsystem);
    MountOfEntry(entries, e);
    FirstNamingIsFirst(MountsOf(entries), root, subsystem);
  }

  lemma {:induction false} MountOfEntry(entries: seq<Entry>, e: Entry)
    requires e in entries
    ensures MountOf(e) in MountsOf(entries)
  {
    var init, last := entries[..|entries| - 1], entries[|entries| - 1];
    assert entries == init + [last];
    if e in init {
      MountOfEntry(init, e);
    }
  }

  ghost predicate MountedAt(entries: seq<Entry>, root: string, filesystemType: string, mountpoint: string) {
    exists e :: e in entries && e.filesystemType == filesystemType && e.mountpoint == mountpoint && root <= mountpoint
  }

  /** Only such mounts are in the table, and the V2 one is a cgroup2 mount under the root, if there
      is any. */
  lemma OnlyMountsCount(root: string, subsystems: set<string>, entries: seq<Entry>, r: Result<Mountpoints>)
    requires forall e :: e in entries ==> WellFormed(e)
    requires Answers(root, subsystems, FileOf(PrintAll(entries)), r)
    ensures r.Ok?
    ensures forall k :: k in r.value.v1Mounts ==> MountedAt(entries, root, "cgroup", r.value.v1Mounts[k])
    ensures (exists e :: e in entries && e.filesystemType == "cgroup2" && root <= e.mountpoint) ==>
      MountedAt(entries, root, "cgroup2", r.value.v2Loc)
    ensures r.value.v2Loc != "" ==> MountedAt(entries, root, "cgroup2", r.value.v2Loc)
  {
    hide WellFormed;
    hide Answers;
    var mounts := MountsOf(entries);
    PrintedFileTable(root, subsystems, entries, r);
    forall k | k in r.value.v1Mounts
      ensures MountedAt(entries, root, "cgroup", r.value.v1Mounts[k])
    {
      FirstNamingIsFirst(mounts, root, k);
      var e := EntryOfMount(entries, FirstNaming(mounts, root, k).value);
    }
    LastUnifiedIsLast(mounts, root);
    if LastUnified(mounts, root).Some? {
      var e := EntryOfMount(entries, LastUnified(mounts, root).value);
    }
    if e :| e in entries && e.filesystemType == "cgroup2" && root <= e.mountpoint {
      MountOfEntry(entries, e);
      assert IsUnified(MountOf(e), root);
    }
  }

  lemma {:induction false} EntryOfMount(entries: seq<Entry>, m: Mount) returns (e: Entry)
    requires m in MountsOf(entries)
    ensures e in entries && MountOf(e) == m
  {
    var init, last := entries[..|entries| - 1], entries[|entries| - 1];
    if m == MountOf(last) {
      e := last;
    } else {
      e := EntryOfMount(init, m);
    }
  }
}
