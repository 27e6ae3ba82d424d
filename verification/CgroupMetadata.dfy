/** metric/system/cgroup/reader.go: the path and id shared by a process's cgroups. */
module CgroupMetadata {
  import opened CgroupPaths
  import opened Collections
  import opened Strings
  import opened Wrappers

  /** filepath.Base on Unix. */
  function Base(path: string): string {
    if path == "" then "." else
      var element := LastElement(StripSlashes(path));
      if element == "" then "/" else element
  }

  function StripSlashes(path: string): string {
    if path != "" && path[|path| - 1] == '/' then StripSlashes(path[..|path| - 1]) else path
  }

  function LastElement(path: string): string {
    if path == "" || path[|path| - 1] == '/' then ""
    else LastElement(path[..|path| - 1]) + [path[|path| - 1]]
  }

  lemma {:induction false} SlashesStrip(path: string, slashes: string)
    requires (forall ch :: ch in slashes ==> ch == '/') && (path == "" || path[|path| - 1] != '/')
    ensures StripSlashes(path + slashes) == path
  {
    if slashes == "" {
      assert path + slashes == path;
    } else {
      var all, init := path + slashes, slashes[..|slashes| - 1];
      assert slashes[|slashes| - 1] in slashes;
      assert all[..|all| - 1] == path + init;
      assert forall ch :: ch in init ==> ch in slashes;
      SlashesStrip(path, init);
    }
  }

  lemma LastElementGrows(path: string, ch: char)
    requires ch != '/'
    ensures LastElement(path + [ch]) == LastElement(path) + [ch]
  {
    assert (path + [ch])[..|path|] == path;
  }

  lemma {:induction false} ElementIsLast(dir: string, element: string)
    requires '/' !in element && (dir == "" || dir[|dir| - 1] == '/')
    ensures LastElement(dir + element) == element
  {
    if element == "" {
      assert dir + element == dir;
    } else {
      hide LastElement;
      var init, ch := element[..|element| - 1], element[|element| - 1];
      assert element == init + [ch] && ch in element;
      assert dir + element == (dir + init) + [ch];
      ElementIsLast(dir, init);
      LastElementGrows(dir + init, ch);
    }
  }

  /** The last element of a path, whatever slashes follow it; a slash for slashes alone. */
  lemma BaseIsLast(dir: string, element: string, slashes: string)
    requires element != "" && '/' !in element && (dir == "" || dir[|dir| - 1] == '/')
    requires forall ch :: ch in slashes ==> ch == '/'
    ensures Base(dir + element + slashes) == element
    ensures slashes != "" ==> Base(slashes) == "/"
  {
    var path := dir + element;
    assert element[|element| - 1] in element && path[|path| - 1] == element[|element| - 1];
    SlashesStrip(path, slashes);
    ElementIsLast(dir, element);
    assert "" + slashes == slashes;
    SlashesStrip("", slashes);
  }

  type Mounts = map<string, ControllerPath>

  predicate Skipped(m: ControllerPath, ignoreRoot: bool) {
    !m.isV2 && ignoreRoot && m.controllerPath == "/"
  }

  function Step(before: Option<string>, m: ControllerPath, ignoreRoot: bool): Option<string> {
    if before.None? || Skipped(m, ignoreRoot) then before
    else if before.value == "" then Some(m.controllerPath)
    else if before.value != m.controllerPath then None
    else before
  }

  /** The path held after visiting some entries in order; None once two paths differed. */
  function PathAfter(visited: seq<ControllerPath>, ignoreRoot: bool): Option<string> {
    if visited == [] then Some("")
    else Step(PathAfter(visited[..|visited| - 1], ignoreRoot), visited[|visited| - 1], ignoreRoot)
  }

  datatype Metadata = Metadata(path: string, id: string)

  function MetadataOf(path: Option<string>): Metadata {
    if path.None? then Metadata("", "") else Metadata(path.value, Base(path.value))
  }

  lemma AfterOneMore(mounts: Mounts, order: seq<string>, k: string, ignoreRoot: bool)
    requires (forall j :: j in order ==> j in mounts) && k in mounts
    ensures forall j :: j in order + [k] ==> j in mounts
    ensures PathAfter(Visit(mounts, order + [k]), ignoreRoot) ==
            Step(PathAfter(Visit(mounts, order), ignoreRoot), mounts[k], ignoreRoot)
  {
    VisitOneMore(mounts, order, k);
    var visited := Visit(mounts, order);
    assert (visited + [mounts[k]])[..|visited|] == visited;
  }

  method GetCommonCgroupMetadata(mounts: Mounts, ignoreRoot: bool) returns (result: Metadata)
    ensures exists order :: IsOrder(mounts, order) && result == MetadataOf(PathAfter(Visit(mounts, order), ignoreRoot))
  {
    hide Visit;
    hide PathAfter;
    var path := "";
    ghost var order: seq<string> := [];
    EmptyFirst(mounts, ignoreRoot, []);
    var todo := mounts.Keys;
    while todo != {}
      invariant todo <= mounts.Keys
      invariant forall k :: k in order <==> k in mounts && k !in todo
      invariant Distinct(order)
      invariant PathAfter(Visit(mounts, order), ignoreRoot) == Some(path)
    {
      var k :| k in todo;
      var m := mounts[k];
      AfterOneMore(mounts, order, k, ignoreRoot);
      order := order + [k];
      todo := todo - {k};
      if !m.isV2 && ignoreRoot && m.controllerPath == "/" {
        continue;
      }
      if path == "" {
        path := m.controllerPath;
      } else if path != m.controllerPath {
        ghost var rest := Enumerate(todo);
        JoinDistinct(order, rest);
        MismatchStays(mounts, order, rest, ignoreRoot);
        assert IsOrder(mounts, order + rest);
        return Metadata("", "");
      }
    }
    assert IsOrder(mounts, order);
    result := Metadata(path, Base(path));
  }

  /** A mismatch is never forgotten, so stopping at it gives what the whole order gives. */
  lemma {:induction false} MismatchStays(mounts: Mounts, order: seq<string>, rest: seq<string>, ignoreRoot: bool)
    requires forall k :: k in order + rest ==> k in mounts
    requires forall k :: k in order ==> k in mounts
    requires PathAfter(Visit(mounts, order), ignoreRoot).None?
    ensures PathAfter(Visit(mounts, order + rest), ignoreRoot).None?
  {
    if rest == [] {
      assert order + rest == order;
    } else {
      var init, k := rest[..|rest| - 1], rest[|rest| - 1];
      assert order + rest == (order + init) + [k];
      MismatchStays(mounts, order, init, ignoreRoot);
      AfterOneMore(mounts, order + init, k, ignoreRoot);
    }
  }

  // ---------- when the order does not matter ----------

  /** The paths that take part: those of entries not skipped. */
  ghost predicate TakesPart(mounts: Mounts, ignoreRoot: bool, path: string) {
    exists k :: k in mounts && !Skipped(mounts[k], ignoreRoot) && mounts[k].controllerPath == path
  }

  /** With roots ignored, only the root paths of V1 entries are left out. */
  lemma TakesPartExactly(mounts: Mounts, ignoreRoot: bool, path: string)
    ensures TakesPart(mounts, ignoreRoot, path) <==>
      exists k :: k in mounts && mounts[k].controllerPath == path && (mounts[k].isV2 || !ignoreRoot || path != "/")
  {
  }

  ghost predicate PartIn(visited: seq<ControllerPath>, ignoreRoot: bool, path: string) {
    exists m :: m in visited && !Skipped(m, ignoreRoot) && m.controllerPath == path
  }

  lemma PartInOneMore(visited: seq<ControllerPath>, m: ControllerPath, ignoreRoot: bool)
    ensures forall p :: PartIn(visited + [m], ignoreRoot, p) <==>
      PartIn(visited, ignoreRoot, p) || (!Skipped(m, ignoreRoot) && m.controllerPath == p)
    ensures forall p :: !PartIn([], ignoreRoot, p)
  {
    forall p
      ensures PartIn(visited + [m], ignoreRoot, p) <==>
        PartIn(visited, ignoreRoot, p) || (!Skipped(m, ignoreRoot) && m.controllerPath == p)
    {
      if PartIn(visited, ignoreRoot, p) {
        var n :| n in visited && !Skipped(n, ignoreRoot) && n.controllerPath == p;
        assert n in visited + [m];
      }
      assert m in visited + [m];
    }
  }

  /** The answer of a visit: empty while only empty paths took part, a path when it is the only
      non-empty one and no empty one follows it, otherwise a mismatch. */
  lemma {:induction false} PathAfterMeans(visited: seq<ControllerPath>, ignoreRoot: bool)
    ensures var r := PathAfter(visited, ignoreRoot);
      && (r == Some("") <==> forall p :: PartIn(visited, ignoreRoot, p) ==> p == "")
      && (r.Some? && r.value != "" ==>
            && PartIn(visited, ignoreRoot, r.value)
            && forall p :: PartIn(visited, ignoreRoot, p) && p != "" ==> p == r.value)
      && (r.None? && !PartIn(visited, ignoreRoot, "") ==>
            exists p, q :: p != q && PartIn(visited, ignoreRoot, p) && PartIn(visited, ignoreRoot, q))
  {
    hide PartIn;
    hide Skipped;
    PartInOneMore([], ControllerPath("", "", false), ignoreRoot);
    if visited != [] {
      var init, m := visited[..|visited| - 1], visited[|visited| - 1];
      PathAfterMeans(init, ignoreRoot);
      var before := PathAfter(init, ignoreRoot);
      assert visited == init + [m];
      PartInOneMore(init, m, ignoreRoot);
      if PathAfter(visited, ignoreRoot).None? && before.Some? {
        assert PartIn(init, ignoreRoot, before.value) && PartIn(visited, ignoreRoot, before.value);
        assert PartIn(visited, ignoreRoot, m.controllerPath);
      }
      if before != Some("") {
        var p :| PartIn(init, ignoreRoot, p) && p != "";
        assert PartIn(visited, ignoreRoot, p);
      } else if PathAfter(visited, ignoreRoot) != Some("") {
        assert PartIn(visited, ignoreRoot, m.controllerPath);
      }
    }
  }

  lemma {:induction false} VisitCovers(mounts: Mounts, order: seq<string>, ignoreRoot: bool, path: string)
    requires forall k :: k in order ==> k in mounts
    ensures PartIn(Visit(mounts, order), ignoreRoot, path) <==>
      exists k :: k in order && !Skipped(mounts[k], ignoreRoot) && mounts[k].controllerPath == path
  {
    if order != [] {
      var init, last := order[..|order| - 1], order[|order| - 1];
      VisitCovers(mounts, init, ignoreRoot, path);
      assert order == init + [last];
      assert Visit(mounts, order) == Visit(mounts, init) + [mounts[last]];
      if PartIn(Visit(mounts, init), ignoreRoot, path) {
        var m :| m in Visit(mounts, init) && !Skipped(m, ignoreRoot) && m.controllerPath == path;
        assert m in Visit(mounts, order);
      }
      if !Skipped(mounts[last], ignoreRoot) && mounts[last].controllerPath == path {
        assert mounts[last] in Visit(mounts, order);
      }
    }
  }

  lemma PartsOfOrder(mounts: Mounts, order: seq<string>, ignoreRoot: bool)
    requires IsOrder(mounts, order)
    ensures forall p :: PartIn(Visit(mounts, order), ignoreRoot, p) <==> TakesPart(mounts, ignoreRoot, p)
  {
    forall p
      ensures PartIn(Visit(mounts, order), ignoreRoot, p) <==> TakesPart(mounts, ignoreRoot, p)
    {
      VisitCovers(mounts, order, ignoreRoot, p);
    }
  }

  /** When no participating path is empty, every order gives the same answer: the shared path
      with its last element, or nothing if two differ. Skipped entries never matter. */
  lemma NonEmptyPathsAgree(mounts: Mounts, order: seq<string>, ignoreRoot: bool)
    requires IsOrder(mounts, order)
    requires !TakesPart(mounts, ignoreRoot, "")
    ensures var r := MetadataOf(PathAfter(Visit(mounts, order), ignoreRoot));
      && (forall p :: p != "" ==> (r.path == p <==>
            TakesPart(mounts, ignoreRoot, p) && forall q :: TakesPart(mounts, ignoreRoot, q) ==> q == p))
      && ((forall p :: !TakesPart(mounts, ignoreRoot, p)) ==> r == Metadata("", "."))
      && (r.path == "" && (exists p :: TakesPart(mounts, ignoreRoot, p)) ==> r == Metadata("", ""))
      && (r.path != "" ==> r.id == Base(r.path))
  {
    var visited := Visit(mounts, order);
    PartsOfOrder(mounts, order, ignoreRoot);
    PathAfterMeans(visited, ignoreRoot);
  }

  /** The shared path is lost for some orders and kept for others exactly when one non-empty
      path takes part together with an empty one. */
  ghost predicate OrderMatters(mounts: Mounts, ignoreRoot: bool) {
    TakesPart(mounts, ignoreRoot, "")
    && exists p :: p != "" && TakesPart(mounts, ignoreRoot, p)
         && forall q :: TakesPart(mounts, ignoreRoot, q) ==> q == p || q == ""
  }

  ghost predicate SameForAllOrders(mounts: Mounts, ignoreRoot: bool) {
    forall o0, o1 :: IsOrder(mounts, o0) && IsOrder(mounts, o1) ==>
      PathAfter(Visit(mounts, o0), ignoreRoot) == PathAfter(Visit(mounts, o1), ignoreRoot)
  }

  /** Two different non-empty paths are a mismatch wherever they stand. */
  lemma {:induction false} DifferentPathsMismatch(visited: seq<ControllerPath>, ignoreRoot: bool, p: string, q: string)
    requires p != "" && q != "" && p != q
    requires PartIn(visited, ignoreRoot, p) && PartIn(visited, ignoreRoot, q)
    ensures PathAfter(visited, ignoreRoot).None?
  {
    PathAfterMeans(visited, ignoreRoot);
  }

  lemma OrderIndependentExactly(mounts: Mounts, ignoreRoot: bool)
    ensures SameForAllOrders(mounts, ignoreRoot) <==> !OrderMatters(mounts, ignoreRoot)
  {
    if OrderMatters(mounts, ignoreRoot) {
      TwoOrdersDiffer(mounts, ignoreRoot);
    } else {
      forall o0, o1 | IsOrder(mounts, o0) && IsOrder(mounts, o1)
        ensures PathAfter(Visit(mounts, o0), ignoreRoot) == PathAfter(Visit(mounts, o1), ignoreRoot)
      {
        AnswerDetermined(mounts, ignoreRoot, o0);
        AnswerDetermined(mounts, ignoreRoot, o1);
      }
    }
  }

  ghost predicate DifferTogether(mounts: Mounts, ignoreRoot: bool, p: string, q: string) {
    p != "" && q != "" && p != q && TakesPart(mounts, ignoreRoot, p) && TakesPart(mounts, ignoreRoot, q)
  }

  /** The answer in terms of the map alone, when the order does not matter. */
  lemma AnswerDetermined(mounts: Mounts, ignoreRoot: bool, order: seq<string>)
    requires IsOrder(mounts, order) && !OrderMatters(mounts, ignoreRoot)
    ensures var r := PathAfter(Visit(mounts, order), ignoreRoot);
      && (r == Some("") <==> forall p :: TakesPart(mounts, ignoreRoot, p) ==> p == "")
      && (r.None? <==> exists p, q :: DifferTogether(mounts, ignoreRoot, p, q))
      && (r.Some? && r.value != "" ==>
            && TakesPart(mounts, ignoreRoot, r.value)
            && forall p :: TakesPart(mounts, ignoreRoot, p) && p != "" ==> p == r.value)
  {
    hide PathAfter;
    hide Visit;
    hide TakesPart;
    hide PartIn;
    var visited := Visit(mounts, order);
    PartsOfOrder(mounts, order, ignoreRoot);
    PathAfterMeans(visited, ignoreRoot);
    if PathAfter(visited, ignoreRoot).None? {
      var p :| TakesPart(mounts, ignoreRoot, p) && p != "";
      if TakesPart(mounts, ignoreRoot, "") {
        var q :| TakesPart(mounts, ignoreRoot, q) && q != p && q != "";
        assert DifferTogether(mounts, ignoreRoot, p, q);
      } else {
        var q, q' :| q != q' && PartIn(visited, ignoreRoot, q) && PartIn(visited, ignoreRoot, q');
        assert DifferTogether(mounts, ignoreRoot, q, q');
      }
    }
    if p, q :| DifferTogether(mounts, ignoreRoot, p, q) {
      DifferentPathsMismatch(visited, ignoreRoot, p, q);
    }
  }

  /** The keys apart from the rest, in both orders of the two groups. */
  lemma BothWays(mounts: Mounts, empty: set<string>) returns (a: seq<string>, b: seq<string>)
    requires empty <= mounts.Keys
    ensures forall k :: k in a <==> k in empty
    ensures forall k :: k in b <==> k in mounts && k !in empty
    ensures IsOrder(mounts, a + b) && IsOrder(mounts, b + a)
  {
    a := Enumerate(empty);
    b := Enumerate(mounts.Keys - empty);
    JoinDistinct(a, b);
    JoinDistinct(b, a);
    assert forall k :: k in a + b <==> k in a || k in b;
    assert forall k :: k in b + a <==> k in a || k in b;
  }

  lemma TwoOrdersDiffer(mounts: Mounts, ignoreRoot: bool)
    requires OrderMatters(mounts, ignoreRoot)
    ensures !SameForAllOrders(mounts, ignoreRoot)
  {
    hide Visit;
    hide PathAfter;
    hide IsOrder;
    var empty := set k | k in mounts && (Skipped(mounts[k], ignoreRoot) || mounts[k].controllerPath == "");
    var p :| p != "" && TakesPart(mounts, ignoreRoot, p)
      && forall q :: TakesPart(mounts, ignoreRoot, q) ==> q == p || q == "";
    var a, b := BothWays(mounts, empty);
    forall k | k in b
      ensures !Skipped(mounts[k], ignoreRoot) && mounts[k].controllerPath == p
    {
      assert TakesPart(mounts, ignoreRoot, mounts[k].controllerPath);
    }
    var k :| k in mounts && !Skipped(mounts[k], ignoreRoot) && mounts[k].controllerPath == p;
    var e :| e in mounts && !Skipped(mounts[e], ignoreRoot) && mounts[e].controllerPath == "";
    assert k in b && e in a;
    EmptyBeforeOrAfter(mounts, ignoreRoot, a, b, p);
  }

  /** Empty paths first: the other path is kept. Empty paths last: it is lost. */
  lemma EmptyBeforeOrAfter(mounts: Mounts, ignoreRoot: bool, a: seq<string>, b: seq<string>, p: string)
    requires forall k :: k in a ==> k in mounts && (Skipped(mounts[k], ignoreRoot) || mounts[k].controllerPath == "")
    requires forall k :: k in b ==> k in mounts && !Skipped(mounts[k], ignoreRoot) && mounts[k].controllerPath == p
    requires b != [] && p != "" && exists k :: k in a && !Skipped(mounts[k], ignoreRoot)
    ensures PathAfter(Visit(mounts, a + b), ignoreRoot) == Some(p)
    ensures PathAfter(Visit(mounts, b + a), ignoreRoot).None?
  {
    hide Visit;
    hide PathAfter;
    EmptyFirst(mounts, ignoreRoot, a);
    EmptyFirst(mounts, ignoreRoot, []);
    PathKept(mounts, ignoreRoot, a, b, p);
    PathKept(mounts, ignoreRoot, [], b, p);
    assert [] + b == b;
    PathLost(mounts, ignoreRoot, b, a, p);
  }

  lemma {:induction false} PathKept(mounts: Mounts, ignoreRoot: bool, order: seq<string>, rest: seq<string>, p: string)
    requires forall k :: k in order + rest ==> k in mounts
    requires forall k :: k in order ==> k in mounts
    requires forall k :: k in rest ==> k in mounts && !Skipped(mounts[k], ignoreRoot) && mounts[k].controllerPath == p
    requires p != "" && PathAfter(Visit(mounts, order), ignoreRoot) == Some("")
    ensures PathAfter(Visit(mounts, order + rest), ignoreRoot) == if rest == [] then Some("") else Some(p)
  {
    if rest == [] {
      assert order + rest == order;
    } else {
      var init, k := rest[..|rest| - 1], rest[|rest| - 1];
      assert order + rest == (order + init) + [k];
      PathKept(mounts, ignoreRoot, order, init, p);
      AfterOneMore(mounts, order + init, k, ignoreRoot);
    }
  }

  lemma {:induction false} PathLost(mounts: Mounts, ignoreRoot: bool, order: seq<string>, rest: seq<string>, p: string)
    requires forall k :: k in order + rest ==> k in mounts
    requires forall k :: k in order ==> k in mounts
    requires forall k :: k in rest ==> k in mounts && (Skipped(mounts[k], ignoreRoot) || mounts[k].controllerPath == "")
    requires p != "" && PathAfter(Visit(mounts, order), ignoreRoot) == Some(p)
    ensures PathAfter(Visit(mounts, order + rest), ignoreRoot) ==
      if exists k :: k in rest && !Skipped(mounts[k], ignoreRoot) then None else Some(p)
  {
    if rest == [] {
      assert order + rest == order;
    } else {
      var init, k := rest[..|rest| - 1], rest[|rest| - 1];
      assert order + rest == (order + init) + [k] && rest == init + [k];
      PathLost(mounts, ignoreRoot, order, init, p);
      AfterOneMore(mounts, order + init, k, ignoreRoot);
    }
  }

  lemma {:induction false} EmptyFirst(mounts: Mounts, ignoreRoot: bool, order: seq<string>)
    requires forall k :: k in order ==>
      k in mounts && (Skipped(mounts[k], ignoreRoot) || mounts[k].controllerPath == "")
    ensures PathAfter(Visit(mounts, order), ignoreRoot) == Some("")
  {
    if order != [] {
      var init, k := order[..|order| - 1], order[|order| - 1];
      assert order == init + [k];
      EmptyFirst(mounts, ignoreRoot, init);
      AfterOneMore(mounts, init, k, ignoreRoot);
    }
  }

  // ---------- cgroup files ----------

  /** Every line of three fields ends in a path, as the kernel prints it. */
  ghost predicate PathsPrinted(text: string) {
    forall l :: l in ScanLines(text) && HasThreeFields(l) ==> Split(l, ':')[2] != ""
  }

  /** On the maps of such a file the answer never depends on the order. */
  lemma PrintedPathsAgree(r: Reader, text: string, paths: PathList, ignoreRoot: bool)
    requires PathsPrinted(text)
    requires IsV1Map(r, ScanLines(text), paths.v1) && IsV2Map(r, ScanLines(text), paths.v2)
    ensures SameForAllOrders(paths.v1, ignoreRoot) && SameForAllOrders(paths.v2, ignoreRoot)
  {
    hide ScanLines;
    hide Split;
    hide SameForAllOrders;
    hide IsV1Map;
    hide IsV2Map;
    forall k | k in paths.v1
      ensures paths.v1[k].controllerPath != ""
    {
      V1EntryPaths(r, text, paths.v1, k);
    }
    forall k | k in paths.v2
      ensures paths.v2[k].controllerPath != ""
    {
      V2EntryPaths(r, text, paths.v2, k);
    }
    OrderIndependentExactly(paths.v1, ignoreRoot);
    OrderIndependentExactly(paths.v2, ignoreRoot);
  }

  /** A line without the V2 mark that feeds one subsystem. */
  lemma PlainLine(r: Reader, id: string, subsystem: string, path: string)
    requires r.hierarchyOverride == ""
    requires ':' !in id && ':' !in subsystem && ',' !in subsystem && ':' !in path
    requires '0' !in id && '0' !in subsystem && '0' !in path
    ensures var line := id + ":" + subsystem + ":" + path;
      IsV1Line(line) && Subsystems(line) == [subsystem] && V1Entry(r, line, subsystem).controllerPath == path
  {
    hide Split;
    hide Contains;
    var line := id + ":" + subsystem + ":" + path;
    SplitThree(id, subsystem, path, ':');
    SplitWithout(subsystem, ',');
    if Contains(line, V2_MARK) {
      ContainsFirst(line, V2_MARK);
    }
  }

  /** Two lines of which one has an empty path. */
  lemma OneEmptyPathMatters(r: Reader, l0: string, l1: string, k0: string, k1: string, v1: Mounts)
    requires IsV1Line(l0) && IsV1Line(l1) && Subsystems(l0) == [k0] && Subsystems(l1) == [k1] && k0 != k1
    requires V1Entry(r, l0, k0).controllerPath == "" && V1Entry(r, l1, k1).controllerPath != ""
    requires IsV1Map(r, [l0, l1], v1)
    ensures OrderMatters(v1, false) && !SameForAllOrders(v1, false)
  {
    hide LastV1Line;
    hide IsV1Line;
    hide Subsystems;
    hide SameForAllOrders;
    hide OrderMatters;
    LastOfTwo(l0, l1, k0, k1);
    assert LastV1Line([l0, l1], k0).Some? && LastV1Line([l0, l1], k1).Some?;
    TwoPathsMatter(v1, k0, k1, V1Entry(r, l1, k1).controllerPath);
    OrderIndependentExactly(v1, false);
  }

  /** A file with an empty path, which the kernel never prints: its map gives different answers
      in different orders. */
  lemma EmptyPathMatters(r: Reader, v1: Mounts)
    requires r.hierarchyOverride == ""
    requires IsV1Map(r, ScanLines("2:cpu:\n3:memory:/a\n"), v1)
    ensures OrderMatters(v1, false) && !SameForAllOrders(v1, false)
  {
    hide *;
    var l0, l1 := "2" + ":" + "cpu" + ":" + "", "3" + ":" + "memory" + ":" + "/a";
    PlainLine(r, "2", "cpu", "");
    PlainLine(r, "3", "memory", "/a");
    assert l0 + "\n" + l1 + "\n" == "2:cpu:\n3:memory:/a\n";
    LinesPrinted(l0, l1);
    TwoLineFile(l0, l1);
    OneEmptyPathMatters(r, l0, l1, "cpu", "memory", v1);
  }

  lemma LinesPrinted(l0: string, l1: string)
    requires '\n' !in l0 && '\n' !in l1 && '\r' !in l0 && '\r' !in l1
    ensures IsLine(l0) && IsLine(l1)
  {
  }

  lemma TwoLineFile(l0: string, l1: string)
    requires IsLine(l0) && IsLine(l1)
    ensures ScanLines(l0 + "\n" + l1 + "\n") == [l0, l1]
  {
    hide ScanLines;
    ScanFile([l0, l1]);
    assert [l0, l1][1..] == [l1];
    assert FileOf([l0, l1]) == l0 + "\n" + FileOf([l1]);
    assert FileOf([l1]) == l1 + "\n" && l0 + "\n" + l1 + "\n" == l0 + "\n" + (l1 + "\n");
  }

  lemma LastOfTwo(l0: string, l1: string, k0: string, k1: string)
    requires IsV1Line(l0) && IsV1Line(l1) && Subsystems(l0) == [k0] && Subsystems(l1) == [k1] && k0 != k1
    ensures LastV1Line([l0, l1], k0) == Some(l0) && LastV1Line([l0, l1], k1) == Some(l1)
    ensures forall k :: k != k0 && k != k1 ==> LastV1Line([l0, l1], k).None?
  {
    hide Subsystems;
    hide Contains;
    hide Split;
    assert [l0, l1][..1] == [l0] && [l0][..0] == [];
    forall k | k != k0 && k != k1
      ensures LastV1Line([l0, l1], k).None?
    {
      assert k !in Subsystems(l0) && k !in Subsystems(l1);
      assert LastV1Line([l0], k).None?;
    }
  }

  lemma TwoPathsMatter(mounts: Mounts, k0: string, k1: string, path: string)
    requires k0 in mounts && k1 in mounts && path != ""
    requires forall k :: k in mounts ==> !mounts[k].isV2 && (k == k0 || k == k1)
    requires mounts[k0].controllerPath == "" && mounts[k1].controllerPath == path
    ensures OrderMatters(mounts, false)
  {
    assert TakesPart(mounts, false, "") && TakesPart(mounts, false, path);
    forall q | TakesPart(mounts, false, q)
      ensures q == path || q == ""
    {
      var k :| k in mounts && mounts[k].controllerPath == q;
    }
    hide TakesPart;
  }
}
