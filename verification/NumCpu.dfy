/** metric/system/numcpu/cpu_linux.go: counting CPUs from a sysfs list such as 0-3,7. */
module NumCpu {
  import opened Decimal
  import opened GoNumbers
  import opened Strings
  import opened Wrappers

  /** fmt.Sscanf(cpuRange, "%d-%d", ...) and the size of the range, in Go's int. */
  function ParseCPURange(cpuRange: string): Result<int64> {
    var first := ScanInt(cpuRange);
    if first.Err? then Err("error reading from range")
    else if first.value.rest == "" || first.value.rest[0] != '-' then Err("input does not match format")
    else
      var last := ScanInt(first.value.rest[1..]);
      if last.Err? then Err("error reading from range")
      else Ok(WrapSigned(last.value.value - first.value.value + 1))
  }

  /** What one element of the list adds. */
  function ElementCount(v: string): Result<int64> {
    if Contains(v, "-") then ParseCPURange(v) else Ok(1)
  }

  function SumCounts(elements: seq<string>): int {
    if elements == [] then 0
    else SumCounts(elements[..|elements| - 1]) + ElementCount(elements[|elements| - 1]).GetOr(0)
  }

  /** A list is counted when each of its elements is, by the sum of what they add. */
  function CPUCount(raw: string): Result<int64> {
    if forall v :: v in Split(raw, ',') ==> ElementCount(v).Ok? then Ok(WrapSigned(SumCounts(Split(raw, ','))))
    else Err("error parsing line")
  }

  method ParseCPUList(raw: string) returns (r: Result<int64>)
    ensures r == CPUCount(raw)
  {
    hide Split;
    hide ElementCount;
    var listPart := Split(raw, ',');
    var count: int64 := 0;
    for i := 0 to |listPart|
      invariant forall v :: v in listPart[..i] ==> ElementCount(v).Ok?
      invariant count == WrapSigned(SumCounts(listPart[..i]))
    {
      assert listPart[..i + 1] == listPart[..i] + [listPart[i]];
      var element := CountElement(listPart[i]);
      if element.Err? {
        return Err("error parsing line");
      }
      SignedAdd(SumCounts(listPart[..i]), element.value);
      count := WrapSigned(count + element.value);
    }
    assert listPart[..|listPart|] == listPart;
    r := Ok(count);
  }

  method CountElement(v: string) returns (r: Result<int64>)
    ensures r == ElementCount(v)
  {
    if Contains(v, "-") {
      r := ParseCPURange(v);
    } else {
      r := Ok(1);
    }
  }

  lemma SignedAdd(a: int, b: int)
    ensures WrapSigned(WrapSigned(a) + b) == WrapSigned(a + b)
  {
    var s := WrapSigned(a);
    assert s == a % TWO_64 || s == a % TWO_64 - TWO_64;
    WrapAbsorbs(a, b);
    WrapShift(a % TWO_64 + b, -1);
  }

  // ---------- printed lists ----------

  datatype Run = Run(first: nat, last: nat)

  function PrintRun(run: Run): string {
    if run.first == run.last then PrintInt(run.first) else PrintInt(run.first) + "-" + PrintInt(run.last)
  }

  function PrintRuns(runs: seq<Run>): seq<string> {
    if runs == [] then [] else PrintRuns(runs[..|runs| - 1]) + [PrintRun(runs[|runs| - 1])]
  }

  function IdsOf(first: int, last: int): (ids: set<int>)
    requires first <= last + 1
    ensures forall i :: i in ids <==> first <= i <= last
    ensures |ids| == last - first + 1
    decreases last - first + 1
  {
    if first > last then {} else IdsOf(first, last - 1) + {last}
  }

  function AllIds(runs: seq<Run>): set<int>
    requires forall i :: 0 <= i < |runs| ==> runs[i].first <= runs[i].last
  {
    if runs == [] then {}
    else AllIds(runs[..|runs| - 1]) + IdsOf(runs[|runs| - 1].first, runs[|runs| - 1].last)
  }

  /** Ascending runs of consecutive ids, with a gap between neighbours, as the kernel prints. */
  ghost predicate AscendingRuns(runs: seq<Run>) {
    && (forall i :: 0 <= i < |runs| ==> runs[i].first <= runs[i].last < TWO_63)
    && (forall i :: 0 <= i < |runs| - 1 ==> runs[i].last + 1 < runs[i + 1].first)
  }

  lemma {:induction false} IdsBelow(runs: seq<Run>)
    requires AscendingRuns(runs)
    ensures forall i :: i in AllIds(runs) ==> 0 <= i <= runs[|runs| - 1].last
  {
    if |runs| > 1 {
      IdsBelow(runs[..|runs| - 1]);
    }
  }

  lemma RangeOfPrinted(first: nat, last: nat, t: string)
    requires first <= last < TWO_63 && t in {"", "\n"}
    ensures ParseCPURange(PrintInt(first) + "-" + PrintInt(last) + t) == Ok(WrapSigned(last - first + 1))
  {
    hide ScanInt;
    hide PrintInt;
    var rest := "-" + PrintInt(last) + t;
    assert PrintInt(first) + "-" + PrintInt(last) + t == PrintInt(first) + rest;
    ScanPrinted(first, rest);
    ScanPrinted(last, t);
    assert rest[1..] == PrintInt(last) + t;
  }

  /** One element of the list, the last of which may be followed by a newline. */
  lemma ElementOfRun(run: Run, t: string)
    requires run.first <= run.last < TWO_63 && t in {"", "\n"}
    ensures ElementCount(PrintRun(run) + t) == Ok(WrapSigned(run.last - run.first + 1))
    ensures ',' !in PrintRun(run) + t
  {
    hide ParseCPURange;
    hide Contains;
    var a, b := PrintNat(run.first), PrintNat(run.last);
    var v := PrintRun(run) + t;
    DashIn(v);
    if run.first == run.last {
      assert v == a + t && '-' !in a;
    } else {
      assert v == a + "-" + b + t && v[|a|] == '-';
      RangeOfPrinted(run.first, run.last, t);
    }
  }

  lemma {:induction false} DashIn(s: string)
    ensures Contains(s, "-") <==> '-' in s
  {
    if s != "" {
      DashIn(s[1..]);
      assert s == [s[0]] + s[1..];
    }
  }

  /** The ids of a list are those of its last run and, apart from them, of the runs before. */
  lemma SizeOfRuns(runs: seq<Run>)
    requires runs != [] && AscendingRuns(runs)
    ensures var init, run := runs[..|runs| - 1], runs[|runs| - 1];
      && AscendingRuns(init)
      && |AllIds(runs)| == |AllIds(init)| + (run.last - run.first + 1)
  {
    var init, run := runs[..|runs| - 1], runs[|runs| - 1];
    IdsBelow(init);
    assert AllIds(init) !! IdsOf(run.first, run.last);
  }

  /** One more element whose count is that of a run. */
  lemma CountsExtend(elements: seq<string>, v: string, ids: int, size: int)
    requires WrapSigned(SumCounts(elements)) == WrapSigned(ids)
    requires ElementCount(v) == Ok(WrapSigned(size))
    ensures WrapSigned(SumCounts(elements + [v])) == WrapSigned(ids + size)
  {
    hide ElementCount;
    hide WrapSigned;
    assert (elements + [v])[..|elements|] == elements;
    SignedAdd(SumCounts(elements), WrapSigned(size));
    SignedAdd(ids, WrapSigned(size));
    SignedAdd(size, ids);
  }

  /** No element fails or holds a comma, and all counts together are the number of ids. */
  lemma {:induction false} CountsOfRuns(runs: seq<Run>)
    requires AscendingRuns(runs)
    ensures forall v :: v in PrintRuns(runs) ==> ElementCount(v).Ok? && ',' !in v
    ensures WrapSigned(SumCounts(PrintRuns(runs))) == WrapSigned(|AllIds(runs)|)
  {
    hide ElementCount;
    hide PrintRun;
    hide WrapSigned;
    hide AllIds;
    if runs == [] {
      NoRuns();
    } else {
      var init, run := runs[..|runs| - 1], runs[|runs| - 1];
      SizeOfRuns(runs);
      CountsOfRuns(init);
      ElementOfRun(run, "");
      assert PrintRun(run) + "" == PrintRun(run);
      CountsExtend(PrintRuns(init), PrintRun(run), |AllIds(init)|, run.last - run.first + 1);
    }
  }

  lemma NoRuns()
    ensures AscendingRuns([]) && |AllIds([])| == SumCounts([]) == 0 && AllIds([]) == {}
    ensures forall i :: i !in AllIds([])
  {
  }

  function PrintList(runs: seq<Run>): string {
    Join(PrintRuns(runs), ",")
  }

  /** For every list of runs, with or without the newline sysfs ends it with, parsing gives the
      number of CPU ids in it (as a Go int). */
  lemma PrintedListCounts(runs: seq<Run>, t: string)
    requires runs != [] && AscendingRuns(runs) && t in {"", "\n"}
    ensures var elements := Split(PrintList(runs) + t, ',');
      && (forall v :: v in elements ==> ElementCount(v).Ok?)
      && WrapSigned(SumCounts(elements)) == WrapSigned(|AllIds(runs)|)
  {
    hide ElementCount;
    hide PrintRun;
    hide WrapSigned;
    hide Split;
    hide AllIds;
    var init, run := runs[..|runs| - 1], runs[|runs| - 1];
    var elements := PrintRuns(init) + [PrintRun(run) + t];
    SizeOfRuns(runs);
    CountsOfRuns(init);
    ElementOfRun(run, t);
    JoinSnoc(PrintRuns(init), PrintRun(run), t);
    SplitJoin(elements, ',');
    CountsExtend(PrintRuns(init), PrintRun(run) + t, |AllIds(init)|, run.last - run.first + 1);
  }

  lemma SameIds(a: set<int>, b: set<int>)
    requires forall i :: i in a <==> i in b
    ensures a == b
  {
    forall i | i in a
      ensures i in b
    {
      assert i in a <==> i in b;
    }
    forall i | i in b
      ensures i in a
    {
      assert i in a <==> i in b;
    }
    assert a <= b && b <= a;
  }

  /** A set of CPU ids counts as its size, however its runs were printed. */
  lemma PrintedSetCounts(ids: set<int>, runs: seq<Run>, t: string)
    requires ids != {} && AscendingRuns(runs) && t in {"", "\n"}
    requires forall i :: i in AllIds(runs) <==> i in ids
    ensures CPUCount(PrintList(runs) + t) == Ok(WrapSigned(|ids|))
  {
    hide ElementCount;
    hide WrapSigned;
    hide Split;
    hide PrintList;
    hide AllIds;
    SameIds(AllIds(runs), ids);
    NoRuns();
    PrintedListCounts(runs, t);
  }

  lemma {:induction false} JoinSnoc(init: seq<string>, last: string, t: string)
    ensures Join(init + [last], ",") + t == Join(init + [last + t], ",")
  {
    if init != [] {
      assert (init + [last])[1..] == init[1..] + [last] && (init + [last + t])[1..] == init[1..] + [last + t];
      JoinSnoc(init[1..], last, t);
    }
  }

  /** Every set of CPU ids below a bound has such a list. */
  lemma {:induction false} SetHasRuns(ids: set<int>, bound: nat) returns (runs: seq<Run>)
    requires bound <= TWO_63 && forall i :: i in ids ==> 0 <= i < bound
    ensures AscendingRuns(runs) && forall i :: i in AllIds(runs) <==> i in ids
  {
    hide AllIds;
    hide AscendingRuns;
    if bound == 0 {
      NoRuns();
      runs := [];
    } else if bound - 1 in ids {
      var rest := SetHasRuns(ids - {bound - 1}, bound - 1);
      runs := AppendId(rest, bound - 1);
    } else {
      runs := SetHasRuns(ids, bound - 1);
    }
  }

  /** So every set of CPU ids has a list that is counted right, newline or not. */
  lemma EverySetCounts(ids: set<int>, bound: nat) returns (runs: seq<Run>)
    requires ids != {} && bound <= TWO_63 && forall i :: i in ids ==> 0 <= i < bound
    ensures AscendingRuns(runs) && forall i :: i in AllIds(runs) <==> i in ids
    ensures CPUCount(PrintList(runs)) == CPUCount(PrintList(runs) + "\n") == Ok(WrapSigned(|ids|))
  {
    hide CPUCount;
    hide PrintList;
    hide AllIds;
    hide AscendingRuns;
    runs := SetHasRuns(ids, bound);
    PrintedSetCounts(ids, runs, "");
    PrintedSetCounts(ids, runs, "\n");
    assert PrintList(runs) + "" == PrintList(runs);
  }

  lemma AppendRun(init: seq<Run>, run: Run)
    requires AscendingRuns(init) && run.first <= run.last < TWO_63
    requires init != [] ==> init[|init| - 1].last + 1 < run.first
    ensures AscendingRuns(init + [run])
    ensures forall i :: i in AllIds(init + [run]) <==> i in AllIds(init) || run.first <= i <= run.last
  {
    var runs := init + [run];
    assert runs[..|init|] == init && runs[|init|] == run;
    assert forall i :: 0 <= i < |init| ==> runs[i] == init[i];
  }

  lemma AppendId(rest: seq<Run>, m: nat) returns (runs: seq<Run>)
    requires AscendingRuns(rest) && m < TWO_63 && forall i :: i in AllIds(rest) ==> i < m
    ensures AscendingRuns(runs) && forall i :: i in AllIds(runs) <==> i in AllIds(rest) || i == m
  {
    hide AscendingRuns;
    hide AllIds;
    if rest == [] {
      NoRuns();
      AppendRun([], Run(m, m));
      runs := [] + [Run(m, m)];
    } else {
      var init, last := LastRun(rest);
      assert last.last in AllIds(rest) && rest[|rest| - 1] == last;
      if last.last == m - 1 {
        AppendRun(init, Run(last.first, m));
        runs := init + [Run(last.first, m)];
      } else {
        AppendRun(rest, Run(m, m));
        runs := rest + [Run(m, m)];
      }
    }
  }

  lemma LastRun(runs: seq<Run>) returns (init: seq<Run>, last: Run)
    requires runs != [] && AscendingRuns(runs)
    ensures runs == init + [last] && AscendingRuns(init) && last.first <= last.last < TWO_63
    ensures init != [] ==> init[|init| - 1].last + 1 < last.first
    ensures forall i :: i in AllIds(runs) <==> i in AllIds(init) || last.first <= i <= last.last
  {
    init, last := runs[..|runs| - 1], runs[|runs| - 1];
  }
}
