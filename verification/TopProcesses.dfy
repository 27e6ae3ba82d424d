/** metric/system/process: keeping only the top processes by CPU and by memory. */
module TopProcesses {
  import opened Collections
  import opened ProcessState
  import opened Sorting
  import opened Wrappers

  datatype IncludeTopConfig = IncludeTopConfig(enabled: bool, byCPU: int, byMemory: int)

  function CpuKey(p: ProcState): real {
    p.cpu.total.pct.GetOr(0.0)
  }

  function RssKey(p: ProcState): real {
    p.rssBytes.GetOr(0) as real
  }

  // ---------- the filter ----------

  ghost predicate HasProcess(processes: seq<ProcState>, pid: Option<int>) {
    exists p :: p in processes && p.pid == pid
  }

  method IsProcessInSlice(processes: seq<ProcState>, proc: ProcState) returns (found: bool)
    ensures found <==> HasProcess(processes, proc.pid)
  {
    for i := 0 to |processes|
      invariant !HasProcess(processes[..i], proc.pid)
    {
      if processes[i].pid == proc.pid {
        assert processes[i] in processes;
        return true;
      }
    }
    assert processes[..|processes|] == processes;
    return false;
  }

  /** The processes of extra whose pid is new, appended in order. */
  ghost function AppendNew(base: seq<ProcState>, extra: seq<ProcState>): seq<ProcState> {
    if extra == [] then base
    else
      var sofar := AppendNew(base, extra[..|extra| - 1]);
      var last := extra[|extra| - 1];
      if HasProcess(sofar, last.pid) then sofar else sofar + [last]
  }

  function Top(sorted: seq<ProcState>, limit: int): seq<ProcState> {
    if limit <= 0 then [] else if |sorted| < limit then sorted else sorted[..limit]
  }

  predicate PassesThrough(cfg: IncludeTopConfig) {
    !cfg.enabled || (cfg.byCPU == 0 && cfg.byMemory == 0)
  }

  /** result is a selection the filter can make: either sort may leave ties in any order. */
  ghost predicate IsSelection(cfg: IncludeTopConfig, procs: seq<ProcState>,
                              byCPU: seq<ProcState>, byMemory: seq<ProcState>, result: seq<ProcState>)
  {
    if PassesThrough(cfg) then result == procs
    else
      && (cfg.byCPU > 0 ==> IsSortedVersion(procs, byCPU, CpuKey))
      && (cfg.byMemory > 0 ==> IsSortedVersion(procs, byMemory, RssKey))
      && result == AppendNew(Top(byCPU, cfg.byCPU), Top(byMemory, cfg.byMemory))
  }

  method IncludeTopProcesses(cfg: IncludeTopConfig, processes: array<ProcState>)
    returns (result: seq<ProcState>, ghost byCPU: seq<ProcState>, ghost byMemory: seq<ProcState>)
    modifies processes
    ensures multiset(processes[..]) == multiset(old(processes[..]))
    ensures IsSelection(cfg, old(processes[..]), byCPU, byMemory, result)
  {
    hide SortedDescending;
    byCPU, byMemory := [], [];
    if !cfg.enabled || (cfg.byCPU == 0 && cfg.byMemory == 0) {
      return processes[..], byCPU, byMemory;
    }
    result := [];
    if cfg.byCPU > 0 {
      var numProcs := cfg.byCPU;
      if processes.Length < cfg.byCPU {
        numProcs := processes.Length;
      }
      SortSlice(processes, CpuKey);
      result := result + processes[..numProcs];
      byCPU := processes[..];
    }
    assert result == Top(byCPU, cfg.byCPU);
    if cfg.byMemory > 0 {
      var numProcs := cfg.byMemory;
      if processes.Length < cfg.byMemory {
        numProcs := processes.Length;
      }
      SortSlice(processes, RssKey);
      byMemory := processes[..];
      ghost var base := result;
      for i := 0 to numProcs
        invariant processes[..] == byMemory
        invariant result == AppendNew(base, byMemory[..i])
      {
        assert byMemory[..i + 1][..i] == byMemory[..i];
        var found := IsProcessInSlice(result, processes[i]);
        if !found {
          result := result + [processes[i]];
        }
      }
      assert byMemory[..numProcs] == Top(byMemory, cfg.byMemory);
    }
  }

  // ---------- what a selection guarantees ----------

  ghost predicate DistinctPids(s: seq<ProcState>) {
    forall i, j :: 0 <= i < j < |s| ==> s[i].pid != s[j].pid
  }

  function AtMost(limit: int, size: nat): nat {
    if limit <= 0 then 0 else if size < limit then size else limit
  }

  /** The processes a sorted list puts first beat every other one, and there are as many
      as asked for. */
  lemma TopDominates(procs: seq<ProcState>, sorted: seq<ProcState>, limit: int, key: ProcState -> real)
    requires limit > 0 && IsSortedVersion(procs, sorted, key) && DistinctPids(procs)
    ensures DistinctPids(sorted) && |Top(sorted, limit)| == AtMost(limit, |procs|)
    ensures forall p :: p in sorted <==> p in procs
    ensures forall p, q :: p in procs && p !in Top(sorted, limit) && q in Top(sorted, limit) ==> key(q) >= key(p)
  {
    SameDistinct(procs, sorted);
    assert |procs| == |multiset(procs)| && |sorted| == |multiset(sorted)|;
    SameMembers(procs, sorted);
    forall p, q | p in procs && p !in Top(sorted, limit) && q in Top(sorted, limit)
      ensures key(q) >= key(p)
    {
      assert p in sorted;
      var i :| 0 <= i < |sorted| && sorted[i] == p;
      var j :| 0 <= j < |Top(sorted, limit)| && sorted[j] == q;
      assert i >= |Top(sorted, limit)|;
    }
  }

  lemma SameMembers(s: seq<ProcState>, t: seq<ProcState>)
    requires multiset(s) == multiset(t)
    ensures forall p :: p in s <==> p in t
  {
    forall p
      ensures p in s <==> p in t
    {
      assert p in s <==> p in multiset(s);
    }
  }

  lemma SameDistinct(s: seq<ProcState>, t: seq<ProcState>)
    requires multiset(s) == multiset(t) && DistinctPids(s)
    ensures DistinctPids(t)
  {
    forall i, j | 0 <= i < j < |t| && t[i].pid == t[j].pid
      ensures false
    {
      SameMembers(s, t);
      assert t[i] in s && t[j] in s;
      OccursTwice(t, i, j);
      OccursOnce(s, t[i]);
    }
  }

  lemma {:induction false} OccursOnce(s: seq<ProcState>, x: ProcState)
    requires DistinctPids(s)
    ensures multiset(s)[x] <= 1
  {
    if s != [] {
      OccursOnce(s[1..], x);
      assert s == [s[0]] + s[1..];
    }
  }

  /** Appending keeps what was there, adds only new pids, and misses none. */
  lemma {:induction false} AppendNewFacts(base: seq<ProcState>, extra: seq<ProcState>)
    requires DistinctPids(base)
    ensures var r := AppendNew(base, extra);
      && DistinctPids(r) && base <= r && |r| <= |base| + |extra|
      && (forall p :: p in r ==> p in base || p in extra)
      && (forall p :: p in extra ==> HasProcess(r, p.pid))
  {
    if extra != [] {
      var init, last := extra[..|extra| - 1], extra[|extra| - 1];
      AppendNewFacts(base, init);
      var r := AppendNew(base, extra);
      assert extra == init + [last];
      if !HasProcess(AppendNew(base, init), last.pid) {
        assert r[|r| - 1] == last && last in r;
      }
      forall p | p in extra
        ensures HasProcess(r, p.pid)
      {
        if p in init {
          var q :| q in AppendNew(base, init) && q.pid == p.pid;
          assert q in r;
        }
      }
    }
  }

  ghost function Ahead(s: seq<ProcState>, p: ProcState, key: ProcState -> real): set<ProcState> {
    set q | q in s && key(q) > key(p)
  }

  ghost function NotBehind(s: seq<ProcState>, p: ProcState, key: ProcState -> real): set<ProcState> {
    set q | q in s && key(q) >= key(p)
  }

  function Members(s: seq<ProcState>): set<ProcState> {
    set p | p in s
  }

  lemma {:induction false} SetOfDistinct(s: seq<ProcState>)
    requires DistinctPids(s)
    ensures |Members(s)| == |s|
  {
    if s != [] {
      var init, last := s[..|s| - 1], s[|s| - 1];
      SetOfDistinct(init);
      assert Members(s) == Members(init) + {last};
    }
  }

  lemma SubsetSize<T>(a: set<T>, b: set<T>)
    requires a <= b
    ensures |a| <= |b|
  {
    assert b == a + (b - a);
  }

  /** A process outside the top of a list has at least that many at or ahead of it inside. */
  lemma ExcludedIsDominated(procs: seq<ProcState>, sorted: seq<ProcState>, limit: int, key: ProcState -> real,
                            result: seq<ProcState>, p: ProcState)
    requires limit > 0 && IsSortedVersion(procs, sorted, key) && DistinctPids(procs)
    requires forall q :: q in Top(sorted, limit) ==> q in result
    requires p in procs && p !in Top(sorted, limit)
    ensures |NotBehind(result, p, key)| >= AtMost(limit, |procs|)
  {
    TopDominates(procs, sorted, limit, key);
    var top := Top(sorted, limit);
    SetOfDistinct(top);
    SubsetSize(Members(top), NotBehind(result, p, key));
  }

  /** Processes of a list whose published CPU percentage is at least, or above, that of p. */
  ghost function CPUAtLeast(s: seq<ProcState>, p: ProcState): set<ProcState> {
    set q | q in s && q.cpu.total.pct.GetOr(0.0) >= p.cpu.total.pct.GetOr(0.0)
  }

  ghost function CPUAbove(s: seq<ProcState>, p: ProcState): set<ProcState> {
    set q | q in s && q.cpu.total.pct.GetOr(0.0) > p.cpu.total.pct.GetOr(0.0)
  }

  /** The same by resident bytes. */
  ghost function RssAtLeast(s: seq<ProcState>, p: ProcState): set<ProcState> {
    set q | q in s && q.rssBytes.GetOr(0) >= p.rssBytes.GetOr(0)
  }

  ghost function RssAbove(s: seq<ProcState>, p: ProcState): set<ProcState> {
    set q | q in s && q.rssBytes.GetOr(0) > p.rssBytes.GetOr(0)
  }

  lemma KeysAreFields(s: seq<ProcState>, p: ProcState)
    ensures NotBehind(s, p, CpuKey) == CPUAtLeast(s, p) && Ahead(s, p, CpuKey) == CPUAbove(s, p)
    ensures NotBehind(s, p, RssKey) == RssAtLeast(s, p) && Ahead(s, p, RssKey) == RssAbove(s, p)
  {
  }

  /** The filter is on and at least one limit is set. */
  predicate Filters(cfg: IncludeTopConfig) {
    cfg.enabled && (cfg.byCPU != 0 || cfg.byMemory != 0)
  }

  /** With the filter off, or no limit set, everything is kept as it came. */
  lemma FilterOff(cfg: IncludeTopConfig, procs: seq<ProcState>,
                  byCPU: seq<ProcState>, byMemory: seq<ProcState>, result: seq<ProcState>)
    requires !cfg.enabled || (cfg.byCPU == 0 && cfg.byMemory == 0)
    requires IsSelection(cfg, procs, byCPU, byMemory, result)
    ensures result == procs
  {
  }

  /** With n and m the numbers asked for: pids stay distinct, nothing is invented, the size is
      between the larger and the sum of the two tops, and whoever is left out is at or behind
      n included processes on CPU and m included ones on memory. */
  lemma SelectionSound(cfg: IncludeTopConfig, procs: seq<ProcState>,
                       byCPU: seq<ProcState>, byMemory: seq<ProcState>, result: seq<ProcState>)
    requires DistinctPids(procs) && Filters(cfg)
    requires IsSelection(cfg, procs, byCPU, byMemory, result)
    ensures DistinctPids(result) && forall p :: p in result ==> p in procs
    ensures var n, m := AtMost(cfg.byCPU, |procs|), AtMost(cfg.byMemory, |procs|);
      && n <= |result| && m <= |result| && |result| <= n + m && |result| <= |procs|
      && (forall p :: p in procs && p !in result ==>
            |CPUAtLeast(result, p)| >= n && |RssAtLeast(result, p)| >= m)
  {
    var cpu, mem := Top(byCPU, cfg.byCPU), Top(byMemory, cfg.byMemory);
    if cfg.byCPU > 0 {
      TopDominates(procs, byCPU, cfg.byCPU, CpuKey);
    }
    if cfg.byMemory > 0 {
      TopDominates(procs, byMemory, cfg.byMemory, RssKey);
    }
    AppendNewFacts(cpu, mem);
    BothTopsIncluded(cfg, procs, byCPU, byMemory, result);
    forall p | p in procs && p !in result
      ensures |CPUAtLeast(result, p)| >= AtMost(cfg.byCPU, |procs|)
      ensures |RssAtLeast(result, p)| >= AtMost(cfg.byMemory, |procs|)
    {
      KeysAreFields(result, p);
      if cfg.byCPU > 0 {
        ExcludedIsDominated(procs, byCPU, cfg.byCPU, CpuKey, result, p);
      }
      if cfg.byMemory > 0 {
        ExcludedIsDominated(procs, byMemory, cfg.byMemory, RssKey, result, p);
      }
    }
    SetOfDistinct(result);
    SetOfDistinct(procs);
    SetOfDistinct(mem);
    SubsetSize(Members(result), Members(procs));
    SubsetSize(Members(mem), Members(result));
  }

  lemma BothTopsIncluded(cfg: IncludeTopConfig, procs: seq<ProcState>,
                         byCPU: seq<ProcState>, byMemory: seq<ProcState>, result: seq<ProcState>)
    requires DistinctPids(procs) && Filters(cfg)
    requires IsSelection(cfg, procs, byCPU, byMemory, result)
    ensures forall p :: p in result <==> p in Top(byCPU, cfg.byCPU) || p in Top(byMemory, cfg.byMemory)
  {
    var cpu, mem := Top(byCPU, cfg.byCPU), Top(byMemory, cfg.byMemory);
    if cfg.byCPU > 0 {
      TopDominates(procs, byCPU, cfg.byCPU, CpuKey);
    }
    if cfg.byMemory > 0 {
      TopDominates(procs, byMemory, cfg.byMemory, RssKey);
    }
    AppendNewFacts(cpu, mem);
    forall p | p in mem
      ensures p in result
    {
      var q :| q in result && q.pid == p.pid;
      assert p in procs && q in procs;
    }
  }

  // ---------- which processes are selected ----------

  lemma RankInsideTop(sorted: seq<ProcState>, n: nat, key: ProcState -> real, p: ProcState)
    requires SortedDescending(sorted, key) && DistinctPids(sorted) && n <= |sorted| && p in sorted[..n]
    ensures |Ahead(sorted, p, key)| < n
  {
    var i :| 0 <= i < n && sorted[i] == p;
    SetOfDistinct(sorted[..i]);
    forall q | q in Ahead(sorted, p, key)
      ensures q in sorted[..i]
    {
      var j :| 0 <= j < |sorted| && sorted[j] == q;
    }
    SubsetSize(Ahead(sorted, p, key), Members(sorted[..i]));
  }

  /** By rank: fewer than n strictly ahead is necessary, at most n at or ahead (itself
      included) is sufficient; only ties leave a choice. */
  lemma TopByRank(procs: seq<ProcState>, sorted: seq<ProcState>, limit: int, key: ProcState -> real, p: ProcState)
    requires limit > 0 && IsSortedVersion(procs, sorted, key) && DistinctPids(procs) && p in procs
    ensures p in Top(sorted, limit) ==> |Ahead(procs, p, key)| < AtMost(limit, |procs|)
    ensures p !in Top(sorted, limit) ==> |NotBehind(procs, p, key)| > AtMost(limit, |procs|)
  {
    hide SortedDescending;
    TopDominates(procs, sorted, limit, key);
    var top := Top(sorted, limit);
    if p in top {
      assert Ahead(procs, p, key) == Ahead(sorted, p, key);
      assert sorted[..|top|] == top;
      RankInsideTop(sorted, |top|, key, p);
    } else {
      SetOfDistinct(top);
      SubsetSize(Members(top) + {p}, NotBehind(procs, p, key));
    }
  }

  ghost predicate DistinctKeys(s: seq<ProcState>, key: ProcState -> real) {
    forall p, q :: p in s && q in s && p != q ==> key(p) != key(q)
  }

  ghost predicate InTop(procs: seq<ProcState>, p: ProcState, limit: int, key: ProcState -> real) {
    limit > 0 && |Ahead(procs, p, key)| < limit
  }

  lemma TopExact(procs: seq<ProcState>, sorted: seq<ProcState>, limit: int, key: ProcState -> real, p: ProcState)
    requires limit > 0 && IsSortedVersion(procs, sorted, key) && DistinctPids(procs) && DistinctKeys(procs, key)
    requires p in procs
    ensures p in Top(sorted, limit) <==> InTop(procs, p, limit, key)
  {
    TopByRank(procs, sorted, limit, key, p);
    assert NotBehind(procs, p, key) == Ahead(procs, p, key) + {p};
    SetOfDistinct(procs);
    SubsetSize(NotBehind(procs, p, key), Members(procs));
  }

  ghost predicate DistinctFields(s: seq<ProcState>) {
    forall p, q :: p in s && q in s && p != q ==>
      p.cpu.total.pct.GetOr(0.0) != q.cpu.total.pct.GetOr(0.0) && p.rssBytes.GetOr(0) != q.rssBytes.GetOr(0)
  }

  lemma DistinctFieldsAreKeys(s: seq<ProcState>)
    requires DistinctFields(s)
    ensures DistinctKeys(s, CpuKey) && DistinctKeys(s, RssKey)
  {
  }

  /** With no two equal percentages or resident sizes the result is exactly the processes with
      fewer above them than asked for, on one or the other. */
  lemma SelectionExact(cfg: IncludeTopConfig, procs: seq<ProcState>,
                       byCPU: seq<ProcState>, byMemory: seq<ProcState>, result: seq<ProcState>)
    requires DistinctPids(procs) && DistinctFields(procs) && Filters(cfg)
    requires IsSelection(cfg, procs, byCPU, byMemory, result)
    ensures forall p :: p in result <==>
      p in procs && (|CPUAbove(procs, p)| < cfg.byCPU || |RssAbove(procs, p)| < cfg.byMemory)
  {
    DistinctFieldsAreKeys(procs);
    BothTopsIncluded(cfg, procs, byCPU, byMemory, result);
    SelectionSound(cfg, procs, byCPU, byMemory, result);
    forall p | p in procs
      ensures p in result <==> |CPUAbove(procs, p)| < cfg.byCPU || |RssAbove(procs, p)| < cfg.byMemory
    {
      KeysAreFields(procs, p);
      if cfg.byCPU > 0 {
        TopExact(procs, byCPU, cfg.byCPU, CpuKey, p);
      }
      if cfg.byMemory > 0 {
        TopExact(procs, byMemory, cfg.byMemory, RssKey, p);
      }
    }
  }

  /** Filtering the result again with the same limits keeps all of it. */
  lemma RefilterKeepsAll(cfg: IncludeTopConfig,
                         procs: seq<ProcState>, byCPU: seq<ProcState>, byMemory: seq<ProcState>, result: seq<ProcState>,
                         byCPU2: seq<ProcState>, byMemory2: seq<ProcState>, result2: seq<ProcState>)
    requires DistinctPids(procs) && DistinctFields(procs)
    requires IsSelection(cfg, procs, byCPU, byMemory, result)
    requires IsSelection(cfg, result, byCPU2, byMemory2, result2)
    ensures Members(result2) == Members(result)
  {
    if Filters(cfg) {
      SelectionSound(cfg, procs, byCPU, byMemory, result);
      SelectionExact(cfg, procs, byCPU, byMemory, result);
      SelectionExact(cfg, result, byCPU2, byMemory2, result2);
      forall p | p in result
        ensures p in result2
      {
        SubsetSize(CPUAbove(result, p), CPUAbove(procs, p));
        SubsetSize(RssAbove(result, p), RssAbove(procs, p));
      }
    }
  }
}
