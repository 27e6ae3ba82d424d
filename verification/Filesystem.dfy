/** metric/system/filesystem/filesystem.go: one entry per mounted block device. */
module Filesystem {
  import opened Collections

  datatype FSStat = FSStat(directory: string, device: string, fsType: string, options: string)

  /** filepath.IsAbs on Unix. */
  predicate IsAbs(path: string) {
    |path| > 0 && path[0] == '/'
  }

  // ---------- what a device ends up with ----------

  function Relative(fsList: seq<FSStat>): seq<FSStat> {
    if fsList == [] then []
    else
      var init, last := fsList[..|fsList| - 1], fsList[|fsList| - 1];
      if IsAbs(last.device) then Relative(init) else Relative(init) + [last]
  }

  /** Entry i is the one to keep for its device: no other entry of the device has a shorter
      mount path, and no earlier one has an equally short path. */
  ghost predicate Keeps(fsList: seq<FSStat>, i: nat) {
    && i < |fsList| && IsAbs(fsList[i].device)
    && (forall j :: 0 <= j < |fsList| && fsList[j].device == fsList[i].device ==>
          |fsList[i].directory| <= |fsList[j].directory|)
    && (forall j :: 0 <= j < i && fsList[j].device == fsList[i].device ==>
          |fsList[i].directory| < |fsList[j].directory|)
  }

  /** The map from each absolute device to its kept entry. */
  ghost predicate KeptByDevice(fsList: seq<FSStat>, devices: map<string, FSStat>) {
    && (forall j :: 0 <= j < |fsList| && IsAbs(fsList[j].device) ==> fsList[j].device in devices)
    && (forall d :: d in devices ==>
          exists i: nat :: Keeps(fsList, i) && fsList[i] == devices[d] && fsList[i].device == d)
  }

  ghost predicate IsFiltered(fsList: seq<FSStat>, filtered: seq<FSStat>, devices: map<string, FSStat>,
                             order: seq<string>) {
    && KeptByDevice(fsList, devices)
    && IsOrder(devices, order)
    && filtered == Relative(fsList) + Visit(devices, order)
  }

  /** The map after one more absolute or relative entry. */
  function Updated(devices: map<string, FSStat>, fs: FSStat): map<string, FSStat> {
    if !IsAbs(fs.device) || (fs.device in devices && |fs.directory| >= |devices[fs.device].directory|)
    then devices else devices[fs.device := fs]
  }

  method FilterDuplicates(fsList: seq<FSStat>) returns (filtered: seq<FSStat>)
    ensures exists kept, order :: IsFiltered(fsList, filtered, kept, order)
  {
    var devices: map<string, FSStat> := map[];
    filtered := [];
    for k := 0 to |fsList|
      invariant filtered == Relative(fsList[..k])
      invariant KeptByDevice(fsList[..k], devices)
    {
      var fs := fsList[k];
      assert fsList[..k + 1] == fsList[..k] + [fs];
      KeptExtends(fsList[..k], fs, devices);
      if !IsAbs(fs.device) {
        filtered := filtered + [fs];
        continue;
      }
      if fs.device in devices {
        if |fs.directory| < |devices[fs.device].directory| {
          devices := devices[fs.device := fs];
        }
        continue;
      }
      devices := devices[fs.device := fs];
    }
    assert fsList[..|fsList|] == fsList;
    filtered := AppendInAnyOrder(filtered, devices);
    ghost var order :| IsOrder(devices, order) && filtered == Relative(fsList) + Visit(devices, order);
    assert IsFiltered(fsList, filtered, devices, order);
  }

  /** Go's range over the map: every entry once, in whatever order. */
  method AppendInAnyOrder(prefix: seq<FSStat>, devices: map<string, FSStat>) returns (filtered: seq<FSStat>)
    ensures exists order :: IsOrder(devices, order) && filtered == prefix + Visit(devices, order)
  {
    filtered := prefix;
    ghost var order: seq<string> := [];
    assert Visit(devices, order) == [];
    hide Visit;
    var todo := devices.Keys;
    while todo != {}
      invariant todo <= devices.Keys
      invariant forall d :: d in order <==> d in devices && d !in todo
      invariant Distinct(order)
      invariant filtered == prefix + Visit(devices, order)
    {
      var d :| d in todo;
      filtered := filtered + [devices[d]];
      VisitOneMore(devices, order, d);
      order := order + [d];
      todo := todo - {d};
    }
    assert IsOrder(devices, order);
  }

  /** An entry stays kept unless the new one is shorter, and the new one is kept if it is. */
  lemma KeepsOneMore(fsList: seq<FSStat>, fs: FSStat, i: nat)
    requires Keeps(fsList, i)
    ensures var longer := fsList + [fs];
      if fs.device == fsList[i].device && |fs.directory| < |fsList[i].directory| then Keeps(longer, |fsList|)
      else Keeps(longer, i)
  {
    var longer := fsList + [fs];
    assert forall j :: 0 <= j < |fsList| ==> longer[j] == fsList[j];
  }

  lemma KeepsNew(fsList: seq<FSStat>, fs: FSStat)
    requires IsAbs(fs.device) && forall j :: 0 <= j < |fsList| ==> fsList[j].device != fs.device
    ensures Keeps(fsList + [fs], |fsList|)
  {
  }

  /** The loop's update of the map is right for one more entry. */
  lemma KeptExtends(fsList: seq<FSStat>, fs: FSStat, devices: map<string, FSStat>)
    requires KeptByDevice(fsList, devices)
    ensures KeptByDevice(fsList + [fs], Updated(devices, fs))
  {
    var longer := fsList + [fs];
    var after := Updated(devices, fs);
    forall d | d in after
      ensures exists i: nat :: Keeps(longer, i) && longer[i] == after[d] && longer[i].device == d
    {
      if d in devices {
        var i: nat :| Keeps(fsList, i) && fsList[i] == devices[d] && fsList[i].device == d;
        KeepsOneMore(fsList, fs, i);
      } else {
        KeepsNew(fsList, fs);
      }
    }
  }

  // ---------- the result does not depend on the order of the map ----------

  lemma KeptOnce(fsList: seq<FSStat>, i: nat, j: nat)
    requires Keeps(fsList, i) && Keeps(fsList, j) && fsList[i].device == fsList[j].device
    ensures i == j
  {
  }

  lemma KeptInBoth(fsList: seq<FSStat>, m0: map<string, FSStat>, m1: map<string, FSStat>, d: string)
    requires KeptByDevice(fsList, m0) && KeptByDevice(fsList, m1) && d in m0
    ensures d in m1 && m0[d] == m1[d]
  {
    var i: nat :| Keeps(fsList, i) && fsList[i] == m0[d] && fsList[i].device == d;
    assert d in m1;
    var j: nat :| Keeps(fsList, j) && fsList[j] == m1[d] && fsList[j].device == d;
    KeptOnce(fsList, i, j);
  }

  lemma KeptUnique(fsList: seq<FSStat>, m0: map<string, FSStat>, m1: map<string, FSStat>)
    requires KeptByDevice(fsList, m0) && KeptByDevice(fsList, m1)
    ensures m0 == m1
  {
    hide KeptByDevice;
    forall d | d in m0 || d in m1
      ensures d in m0 && d in m1 && m0[d] == m1[d]
    {
      if d in m0 {
        KeptInBoth(fsList, m0, m1, d);
      } else {
        KeptInBoth(fsList, m1, m0, d);
      }
    }
  }

  ghost predicate KeyedByDevice(devices: map<string, FSStat>) {
    forall d :: d in devices ==> devices[d].device == d && IsAbs(d)
  }

  /** Every entry of the map occurs once, whatever the order. */
  lemma {:induction false} VisitCounts(devices: map<string, FSStat>, order: seq<string>, x: FSStat)
    requires KeyedByDevice(devices)
    requires forall d :: d in order ==> d in devices
    requires Distinct(order)
    ensures multiset(Visit(devices, order))[x] == if x.device in order && devices[x.device] == x then 1 else 0
  {
    if order != [] {
      var init, d := order[..|order| - 1], order[|order| - 1];
      VisitCounts(devices, init, x);
      assert order == init + [d];
      assert multiset(Visit(devices, order)) == multiset(Visit(devices, init)) + multiset{devices[d]};
    }
  }

  lemma {:induction false} RelativeCounts(fsList: seq<FSStat>, x: FSStat)
    ensures multiset(Relative(fsList))[x] == if IsAbs(x.device) then 0 else multiset(fsList)[x]
  {
    if fsList != [] {
      var init, last := fsList[..|fsList| - 1], fsList[|fsList| - 1];
      RelativeCounts(init, x);
      assert fsList == init + [last];
    }
  }

  /** How often an entry occurs in the result: relative ones as often as before, absolute ones
      once if they are the one kept for their device, otherwise never. */
  lemma FilteredCounts(fsList: seq<FSStat>, filtered: seq<FSStat>, kept: map<string, FSStat>, order: seq<string>,
                       x: FSStat)
    requires IsFiltered(fsList, filtered, kept, order)
    ensures KeyedByDevice(kept)
    ensures multiset(filtered)[x] ==
      if !IsAbs(x.device) then multiset(fsList)[x]
      else if x.device in kept && kept[x.device] == x then 1 else 0
  {
    VisitCounts(kept, order, x);
    RelativeCounts(fsList, x);
  }

  /** The relative entries come first, in their order, and the result is part of the input; no
      entry whose device is not an absolute path is dropped. */
  lemma FilteredIsPart(fsList: seq<FSStat>, filtered: seq<FSStat>, kept: map<string, FSStat>, order: seq<string>)
    requires IsFiltered(fsList, filtered, kept, order)
    ensures Relative(fsList) <= filtered
    ensures multiset(filtered) <= multiset(fsList)
    ensures forall x: FSStat :: (x.device == "" || x.device[0] != '/') ==> multiset(filtered)[x] == multiset(fsList)[x]
  {
    forall x: FSStat
      ensures multiset(filtered)[x] <= multiset(fsList)[x]
    {
      FilteredCounts(fsList, filtered, kept, order, x);
      if IsAbs(x.device) && multiset(filtered)[x] > 0 {
        assert x in fsList;
      }
    }
    forall x: FSStat | x.device == "" || x.device[0] != '/'
      ensures multiset(filtered)[x] == multiset(fsList)[x]
    {
      FilteredCounts(fsList, filtered, kept, order, x);
    }
  }

  lemma KeptIsEarliestShortest(fsList: seq<FSStat>, kept: map<string, FSStat>, i: nat)
    requires KeptByDevice(fsList, kept) && Keeps(fsList, i)
    ensures fsList[i].device in kept && kept[fsList[i].device] == fsList[i]
  {
    var d := fsList[i].device;
    var j: nat :| Keeps(fsList, j) && fsList[j] == kept[d] && fsList[j].device == d;
  }

  /** Each absolute device of the input has exactly one entry in the result: the earliest of
      those with its shortest mount path. Other devices have none. */
  lemma OnePerDevice(fsList: seq<FSStat>, filtered: seq<FSStat>, kept: map<string, FSStat>, order: seq<string>,
                     x: FSStat)
    requires IsFiltered(fsList, filtered, kept, order) && x.device != "" && x.device[0] == '/'
    ensures multiset(filtered)[x] == if exists i: nat :: Keeps(fsList, i) && fsList[i] == x then 1 else 0
    ensures x in fsList ==> exists i: nat :: Keeps(fsList, i) && fsList[i].device == x.device
  {
    FilteredCounts(fsList, filtered, kept, order, x);
    if i: nat :| Keeps(fsList, i) && fsList[i] == x {
      KeptIsEarliestShortest(fsList, kept, i);
    }
    if x in fsList {
      assert x.device in kept;
    }
  }

  /** Any two iteration orders of the map give the same result up to the order of the tail. */
  lemma OrderIndependent(fsList: seq<FSStat>,
                         f0: seq<FSStat>, k0: map<string, FSStat>, o0: seq<string>,
                         f1: seq<FSStat>, k1: map<string, FSStat>, o1: seq<string>)
    requires IsFiltered(fsList, f0, k0, o0) && IsFiltered(fsList, f1, k1, o1)
    ensures k0 == k1 && multiset(f0) == multiset(f1)
  {
    KeptUnique(fsList, k0, k1);
    forall x: FSStat
      ensures multiset(f0)[x] == multiset(f1)[x]
    {
      FilteredCounts(fsList, f0, k0, o0, x);
      FilteredCounts(fsList, f1, k1, o1, x);
    }
  }

  /** Filtering a filtered list changes nothing but the order of its tail. */
  lemma Idempotent(fsList: seq<FSStat>,
                   f0: seq<FSStat>, k0: map<string, FSStat>, o0: seq<string>,
                   f1: seq<FSStat>, k1: map<string, FSStat>, o1: seq<string>)
    requires IsFiltered(fsList, f0, k0, o0) && IsFiltered(f0, f1, k1, o1)
    ensures k0 == k1 && multiset(f0) == multiset(f1) && Relative(f1) == Relative(fsList)
  {
    hide KeptByDevice;
    hide IsOrder;
    hide Relative;
    KeptAgain(fsList, f0, k0, o0);
    KeptUnique(f0, k0, k1);
    forall x: FSStat
      ensures multiset(f0)[x] == multiset(f1)[x]
    {
      FilteredCounts(fsList, f0, k0, o0, x);
      FilteredCounts(f0, f1, k1, o1, x);
    }
    RelativeOfFiltered(fsList, f0, k0, o0);
    RelativeOfFiltered(f0, f1, k1, o1);
  }

  /** What is kept of a filtered list is what was kept of the list. */
  lemma KeptAgain(fsList: seq<FSStat>, filtered: seq<FSStat>, kept: map<string, FSStat>, order: seq<string>)
    requires IsFiltered(fsList, filtered, kept, order)
    ensures KeptByDevice(filtered, kept)
  {
    forall x: FSStat | IsAbs(x.device)
      ensures multiset(filtered)[x] == if x.device in kept && kept[x.device] == x then 1 else 0
    {
      FilteredCounts(fsList, filtered, kept, order, x);
    }
    KeptOfFiltered(filtered, kept);
  }

  lemma RelativeOfFiltered(fsList: seq<FSStat>, filtered: seq<FSStat>, kept: map<string, FSStat>, order: seq<string>)
    requires IsFiltered(fsList, filtered, kept, order)
    ensures Relative(filtered) == Relative(fsList)
  {
    RelativeOfParts(Relative(fsList), kept, order);
    RelativeTwice(fsList);
  }

  lemma KeptOfFiltered(f: seq<FSStat>, kept: map<string, FSStat>)
    requires KeyedByDevice(kept)
    requires forall x: FSStat :: IsAbs(x.device) ==>
      multiset(f)[x] == if x.device in kept && kept[x.device] == x then 1 else 0
    ensures KeptByDevice(f, kept)
  {
    forall j | 0 <= j < |f| && IsAbs(f[j].device)
      ensures f[j].device in kept && kept[f[j].device] == f[j]
    {
      assert multiset(f)[f[j]] > 0;
    }
    forall d | d in kept
      ensures exists i: nat :: Keeps(f, i) && f[i] == kept[d] && f[i].device == d
    {
      assert multiset(f)[kept[d]] == 1;
      var i: nat :| i < |f| && f[i] == kept[d];
      forall j: nat | j < i && f[j].device == f[i].device
        ensures false
      {
        OccursTwice(f, j, i);
      }
      assert Keeps(f, i);
    }
  }

  lemma {:induction false} RelativeOfParts(prefix: seq<FSStat>, devices: map<string, FSStat>, order: seq<string>)
    requires forall d :: d in order ==> d in devices
    requires KeyedByDevice(devices)
    ensures Relative(prefix + Visit(devices, order)) == Relative(prefix)
  {
    var all := prefix + Visit(devices, order);
    if order == [] {
      assert all == prefix;
    } else {
      var init := order[..|order| - 1];
      assert all[..|all| - 1] == prefix + Visit(devices, init);
      RelativeOfParts(prefix, devices, init);
    }
  }

  lemma {:induction false} RelativeTwice(fsList: seq<FSStat>)
    ensures Relative(Relative(fsList)) == Relative(fsList)
  {
    if fsList != [] {
      RelativeTwice(fsList[..|fsList| - 1]);
    }
  }
}
