/** What holds over every run of complete scrapes, one after the other. */
module TrackerRuns {
  import opened CpuPercent
  import opened Decimal
  import opened GoNumbers
  import opened ProcessState
  import opened Strings
  import opened TopProcesses
  import opened Tracker
  import opened Wrappers

  /** Every tracked sample is under its own pid and its command line is its arguments joined. */
  predicate WellTracked(tracked: ProcsMap) {
    forall p :: p in tracked ==> tracked[p].pid == Some(p) && tracked[p].cmdline == Join(tracked[p].args, " ")
  }

  /** What a later sample of a pid owes to the one remembered before it. */
  predicate KeepsCached(cfg: Config, s0: ProcState, s1: ProcState)
    requires cfg.Valid()
  {
    && Follows(s0, s1, cfg.numCPU)
    && s1.cpu.total.ticks.Some?
    && (s0.env.Some? ==> s1.env == s0.env)
    && (cfg.cacheCmdLine && s0.args != [] ==> s1.args == s0.args && s1.cmdline == s0.cmdline)
  }

  /** What a fill of a pid gives in terms of its remembered sample. */
  lemma FillFacts(cfg: Config, tracked: ProcsMap, pid: int, filter: bool, reading: Reading, now: int)
    requires cfg.Valid() && WellTracked(tracked)
    requires Fill(cfg, tracked, pid, filter, reading, now).Filled?
    ensures var s := Fill(cfg, tracked, pid, filter, reading, now).status;
      && s.pid == Some(pid) && s.cmdline == Join(s.args, " ")
      && (filter && !cfg.skipExtended ==> cfg.matches(s.name))
      && (!cfg.skipExtended ==> s.sampleTime == now && s.cpu.total.ticks.Some?)
      && (!cfg.skipExtended && pid in tracked ==> KeepsCached(cfg, tracked[pid], s))
  {
    hide GetProcCPUPercentage;
    if !cfg.skipExtended {
      var previous := Remembered(tracked, pid);
      var cached := CacheCmdLine(cfg, BasicState(pid, reading.info.value), previous);
      var metrics := JoinCmdline(FillPidMetrics(cfg, cached, reading).value);
      FinishFacts(cfg, metrics, previous, now);
      assert cached.args == [] ==> cached.cmdline == Join([], " ");
    }
  }

  /** The end of a fill changes the sample time and the totals, nothing else. */
  lemma FinishFacts(cfg: Config, status: ProcState, last: Option<ProcState>, now: int)
    requires cfg.Valid()
    ensures var r := Finish(cfg, status, last, now);
      && r == status.(sampleTime := now, cpu := r.cpu)
      && r.cpu.total.ticks == status.cpu.total.ticks
      && (last.Some? ==> Follows(last.value, r, cfg.numCPU))
  {
    hide Rounding.Round;
    if last.Some? {
      PercentageFollows(last.value, WithTotalValue(status.(sampleTime := now)), cfg.numCPU);
    }
  }

  /** Arguments and command line are taken over from the tracked sample. */
  predicate ArgsCached(cfg: Config, tracked: ProcsMap, pid: int) {
    cfg.cacheCmdLine && pid in tracked && tracked[pid].args != []
  }

  /** A fill is left out exactly when its name does not match, and succeeds exactly when the name
      does and all that is read of the process is: its arguments only where they are not cached. */
  lemma FillSucceedsExactly(cfg: Config, tracked: ProcsMap, pid: int, filter: bool, reading: Reading, now: int)
    requires cfg.Valid() && !cfg.skipExtended
    ensures var r := Fill(cfg, tracked, pid, filter, reading, now);
      && (r.FilteredOut? <==> reading.info.Ok? && filter && !cfg.matches(reading.info.value.name))
      && (r.Filled? <==>
            && reading.info.Ok? && (filter ==> cfg.matches(reading.info.value.name))
            && reading.rssBytes.Ok? && reading.cpu.Ok? && (ArgsCached(cfg, tracked, pid) || reading.args.Ok?)
            && reading.fdOk && reading.metadataOk && reading.userOk && (cfg.enableCgroups ==> reading.cgroupsOk))
  {
    hide GetProcCPUPercentage;
    hide Rounding.Round;
  }

  /** Reduced sampling stops at what the stat file says. */
  lemma ReducedFill(cfg: Config, tracked: ProcsMap, pid: int, filter: bool, reading: Reading, now: int)
    requires cfg.Valid() && cfg.skipExtended
    ensures var r := Fill(cfg, tracked, pid, filter, reading, now);
      if reading.info.Err? then r.Failed?
      else
        var i := reading.info.value;
        r == Filled(ProcState(i.name, i.state, Some(pid), Some(i.ppid), Some(i.pgid), [], "", None, NO_CPU, None, 0))
  {
  }

  /** A filled sample reports what the kernel answered: the process itself, its memory, its start
      and its user, system and total ticks. */
  lemma FillReportsReading(cfg: Config, tracked: ProcsMap, pid: int, filter: bool, reading: Reading, now: int)
    requires cfg.Valid() && !cfg.skipExtended
    requires Fill(cfg, tracked, pid, filter, reading, now).Filled?
    ensures reading.info.Ok? && reading.rssBytes.Ok? && reading.cpu.Ok?
    ensures var s := Fill(cfg, tracked, pid, filter, reading, now).status;
      && s.name == reading.info.value.name && s.state == reading.info.value.state && s.pid == Some(pid)
      && s.ppid == Some(reading.info.value.ppid) && s.pgid == Some(reading.info.value.pgid)
      && s.rssBytes == Some(reading.rssBytes.value) && s.cpu.startTimeMs == reading.cpu.value.startMs
      && s.cpu.userTicks == Some(reading.cpu.value.user) && s.cpu.systemTicks == Some(reading.cpu.value.system)
      && s.cpu.total.ticks == Some(reading.cpu.value.total)
      && s.cpu.total.value == Some(reading.cpu.value.total as real)
      && s.sampleTime == now
  {
    hide GetProcCPUPercentage;
    hide Rounding.Round;
    var previous := Remembered(tracked, pid);
    var cached := CacheCmdLine(cfg, BasicState(pid, reading.info.value), previous);
    var metrics := JoinCmdline(FillPidMetrics(cfg, cached, reading).value);
    FinishFacts(cfg, metrics, previous, now);
    FinishTotals(cfg, metrics, previous, now);
    WholeNumberStays(reading.cpu.value.total);
  }

  /** Its arguments are the answer, joined into the command line, unless they are cached. */
  lemma FillArgs(cfg: Config, tracked: ProcsMap, pid: int, filter: bool, reading: Reading, now: int)
    requires cfg.Valid() && !cfg.skipExtended && WellTracked(tracked)
    ensures !ArgsCached(cfg, tracked, pid) && reading.args.Err? ==>
      !Fill(cfg, tracked, pid, filter, reading, now).Filled?
    ensures Fill(cfg, tracked, pid, filter, reading, now).Filled? ==>
      var s := Fill(cfg, tracked, pid, filter, reading, now).status;
      && s.cmdline == Join(s.args, " ")
      && (ArgsCached(cfg, tracked, pid) ==> s.args == tracked[pid].args && s.cmdline == tracked[pid].cmdline)
      && (!ArgsCached(cfg, tracked, pid) ==> reading.args.Ok? && s.args == reading.args.value)
  {
    hide Rounding.Round;
    hide GetProcCPUPercentage;
    if Fill(cfg, tracked, pid, filter, reading, now).Filled? {
      FillFacts(cfg, tracked, pid, filter, reading, now);
      var previous := Remembered(tracked, pid);
      var cached := CacheCmdLine(cfg, BasicState(pid, reading.info.value), previous);
      FinishFacts(cfg, JoinCmdline(FillPidMetrics(cfg, cached, reading).value), previous, now);
    }
  }

  /** Its environment is the tracked one, or else the variables of the answer that are allowed. */
  lemma FillEnv(cfg: Config, tracked: ProcsMap, pid: int, filter: bool, reading: Reading, now: int)
    requires cfg.Valid() && !cfg.skipExtended
    requires Fill(cfg, tracked, pid, filter, reading, now).Filled?
    ensures var env := Fill(cfg, tracked, pid, filter, reading, now).status.env;
      if pid in tracked && tracked[pid].env.Some? then env == tracked[pid].env
      else if reading.environ.None? then env.None?
      else
        && env.Some? && (forall k :: k in env.value <==> k in reading.environ.value && cfg.envAllowed(k))
        && (forall k :: k in env.value ==> env.value[k] == reading.environ.value[k])
  {
    hide Rounding.Round;
    hide GetProcCPUPercentage;
    var previous := Remembered(tracked, pid);
    var cached := CacheCmdLine(cfg, BasicState(pid, reading.info.value), previous);
    FinishFacts(cfg, JoinCmdline(FillPidMetrics(cfg, cached, reading).value), previous, now);
  }

  /** Its percentages are the ticks used since the tracked sample over the milliseconds elapsed;
      without such a sample there are none. */
  lemma FillPercentages(cfg: Config, tracked: ProcsMap, pid: int, filter: bool, reading: Reading, now: int)
    requires cfg.Valid() && !cfg.skipExtended
    requires Fill(cfg, tracked, pid, filter, reading, now).Filled?
    ensures reading.cpu.Ok?
    ensures var total := Fill(cfg, tracked, pid, filter, reading, now).status.cpu.total;
      if pid !in tracked || tracked[pid].cpu.total.ticks.None? then total.pct.None? && total.normPct.None?
      else
        var used := reading.cpu.value.total - tracked[pid].cpu.total.ticks.value;
        -TWO_63 <= used < TWO_63 && tracked[pid].sampleTime <= now ==>
          PercentagesOf(total, used, now - tracked[pid].sampleTime, cfg.numCPU)
  {
    hide PercentagesOf;
    hide Rounding.Round;
    hide GetProcCPUPercentage;
    var previous := Remembered(tracked, pid);
    var cached := CacheCmdLine(cfg, BasicState(pid, reading.info.value), previous);
    var metrics := JoinCmdline(FillPidMetrics(cfg, cached, reading).value);
    FinishPercentages(cfg, metrics, previous, now);
  }

  /** The percentages a sample gets at the end of its fill. */
  lemma FinishPercentages(cfg: Config, status: ProcState, last: Option<ProcState>, now: int)
    requires cfg.Valid() && status.cpu.total.ticks.Some? && Blank(status) == status
    ensures var total := Finish(cfg, status, last, now).cpu.total;
      if last.None? || last.value.cpu.total.ticks.None? then total.pct.None? && total.normPct.None?
      else
        var used := status.cpu.total.ticks.value - last.value.cpu.total.ticks.value;
        -TWO_63 <= used < TWO_63 && last.value.sampleTime <= now ==>
          PercentagesOf(total, used, now - last.value.sampleTime, cfg.numCPU)
  {
    hide PercentagesOf;
    hide Rounding.Round;
    if last.Some? && last.value.cpu.total.ticks.Some? {
      var s1 := WithTotalValue(status.(sampleTime := now));
      var used := status.cpu.total.ticks.value - last.value.cpu.total.ticks.value;
      if -TWO_63 <= used < TWO_63 && last.value.sampleTime <= now {
        PercentagesFromTicks(last.value, s1, cfg.numCPU);
        assert Blank(s1) == s1;
        hide GetProcCPUPercentage;
      }
    }
  }

  lemma FinishTotals(cfg: Config, status: ProcState, last: Option<ProcState>, now: int)
    requires cfg.Valid() && status.cpu.total.ticks.Some?
    ensures var r := Finish(cfg, status, last, now);
      && r.cpu.total.value == Some(Rounding.Round(status.cpu.total.ticks.value as real))
      && r.cpu.startTimeMs == status.cpu.startTimeMs
      && r.cpu.userTicks == status.cpu.userTicks && r.cpu.systemTicks == status.cpu.systemTicks
      && (last.None? ==> r.cpu.total.pct == status.cpu.total.pct)
  {
    hide Rounding.Round;
  }

  lemma WholeNumberStays(n: int)
    ensures Rounding.Round(n as real) == n as real
  {
    Rounding.RoundGrid(10000 * n);
    assert (10000 * n) as real / 10000.0 == n as real;
  }

  // ---------- one scrape ----------

  ghost predicate WasFilled(cfg: Config, tracked: ProcsMap, visits: seq<Visit>, pid: int)
    requires cfg.Valid()
  {
    exists i :: 0 <= i < |visits| && visits[i].pid == pid && FilledBy(cfg, tracked, visits[i])
  }

  predicate FilledBy(cfg: Config, tracked: ProcsMap, v: Visit)
    requires cfg.Valid()
  {
    Fill(cfg, tracked, v.pid, true, v.reading, v.now).Filled?
  }

  /** After a scan exactly the pids whose fill succeeded and whose name matched are there, each
      sample well formed and true to what was cached for it. */
  lemma {:induction false} ScanFacts(cfg: Config, tracked: ProcsMap, visits: seq<Visit>)
    requires cfg.Valid() && WellTracked(tracked)
    ensures var procMap := Scan(cfg, tracked, visits).procMap;
      && WellTracked(procMap)
      && (forall p :: p in procMap <==> WasFilled(cfg, tracked, visits, p))
      && (forall p :: p in procMap && p in tracked && !cfg.skipExtended ==> KeepsCached(cfg, tracked[p], procMap[p]))
  {
    hide Fill;
    hide KeepsCached;
    if visits != [] {
      var init, v := visits[..|visits| - 1], visits[|visits| - 1];
      ScanFacts(cfg, tracked, init);
      forall p
        ensures WasFilled(cfg, tracked, visits, p) <==>
          WasFilled(cfg, tracked, init, p) || (p == v.pid && FilledBy(cfg, tracked, v))
      {
        FilledInLast(cfg, tracked, init, v, p);
        assert visits == init + [v];
      }
      if FilledBy(cfg, tracked, v) {
        FillFacts(cfg, tracked, v.pid, true, v.reading, v.now);
      }
    }
  }

  lemma FilledInLast(cfg: Config, tracked: ProcsMap, init: seq<Visit>, v: Visit, p: int)
    requires cfg.Valid()
    ensures WasFilled(cfg, tracked, init + [v], p) <==>
      WasFilled(cfg, tracked, init, p) || (p == v.pid && FilledBy(cfg, tracked, v))
  {
    hide FilledBy;
    var all := init + [v];
    if WasFilled(cfg, tracked, init, p) {
      var i :| 0 <= i < |init| && init[i].pid == p && FilledBy(cfg, tracked, init[i]);
      assert all[i] == init[i];
    }
    if p == v.pid && FilledBy(cfg, tracked, v) {
      assert all[|init|] == v;
    }
  }

  predicate DistinctVisits(visits: seq<Visit>) {
    forall i, j :: 0 <= i < j < |visits| ==> visits[i].pid != visits[j].pid
  }

  /** Names of /proc are distinct, and the numbers among them have no leading zeros. */
  predicate NamesPrinted(entries: seq<DirEntry>) {
    && (forall i, j :: 0 <= i < j < |entries| ==> entries[i].name != entries[j].name)
    && (forall i :: 0 <= i < |entries| && DirIsPid(entries[i].name) && Atoi(entries[i].name).Ok? ==>
          entries[i].name == PrintNat(Atoi(entries[i].name).value))
  }

  ghost predicate Named(entries: seq<DirEntry>, pid: int) {
    pid >= 0 && exists i :: 0 <= i < |entries| && entries[i].name == PrintNat(pid)
  }

  /** So no pid is visited twice, and every pid visited is the name of a directory. */
  lemma {:induction false} VisitsAreDistinct(entries: seq<DirEntry>)
    requires NamesPrinted(entries)
    ensures var visits := VisitsIn(entries);
      && DistinctVisits(visits)
      && forall i :: 0 <= i < |visits| ==> Named(entries, visits[i].pid)
  {
    hide PrintNat;
    hide AllDigits;
    hide ValueOf;
    if entries != [] {
      var init, e := entries[..|entries| - 1], entries[|entries| - 1];
      VisitsAreDistinct(init);
      var before, visits := VisitsIn(init), VisitsIn(entries);
      forall i | 0 <= i < |before|
        ensures Named(entries, before[i].pid) && (|before| < |visits| ==> before[i].pid != visits[|before|].pid)
      {
        var k :| 0 <= k < |init| && init[k].name == PrintNat(before[i].pid);
        assert entries[k] == init[k];
      }
    }
  }

  /** An entry of /proc named by a pid. */
  ghost predicate IsDirectoryOf(e: DirEntry, v: Visit) {
    0 <= v.pid < TWO_63 && AllDigits(e.name) && e.name != "" && ValueOf(e.name) == v.pid
    && e.reading == v.reading && e.now == v.now
  }

  /** Exactly the directories named by digits are visited, each under the number of its name. */
  lemma {:induction false} VisitsAreDirectories(entries: seq<DirEntry>, v: Visit)
    ensures v in VisitsIn(entries) <==> exists e :: e in entries && IsDirectoryOf(e, v)
  {
    hide ValueOf;
    if entries != [] {
      var init, e := entries[..|entries| - 1], entries[|entries| - 1];
      VisitsAreDirectories(init, v);
      assert entries == init + [e];
      VisitOfEntry(e, v);
      if e' :| e' in init && IsDirectoryOf(e', v) {
        assert e' in entries;
      }
      if IsDirectoryOf(e, v) {
        assert e in entries;
      }
    }
  }

  lemma VisitOfEntry(e: DirEntry, v: Visit)
    ensures IsDirectoryOf(e, v) <==>
      DirIsPid(e.name) && Atoi(e.name).Ok? && v == Visit(Atoi(e.name).value, e.reading, e.now)
  {
    hide ValueOf;
    if AllDigits(e.name) && e.name != "" {
      assert e.name[0] in e.name;
    }
  }

  /** So every process the kernel lists is visited. */
  lemma EveryPidIsVisited(entries: seq<DirEntry>, e: DirEntry, pid: nat)
    requires e in entries && e.name == PrintNat(pid) && pid < TWO_63
    ensures Visit(pid, e.reading, e.now) in VisitsIn(entries)
  {
    ValueOfPrinted(pid);
    assert IsDirectoryOf(e, Visit(pid, e.reading, e.now));
    VisitsAreDirectories(entries, Visit(pid, e.reading, e.now));
  }

  /** The list and the map of a scan agree: when the directories are distinct pids, the listed
      pids are distinct and the map holds exactly the listed samples. */
  lemma {:induction false} ScanAgrees(cfg: Config, tracked: ProcsMap, visits: seq<Visit>)
    requires cfg.Valid() && WellTracked(tracked) && DistinctVisits(visits)
    ensures var r := Scan(cfg, tracked, visits);
      && DistinctPids(r.plist)
      && (forall s :: s in r.plist ==> s.pid.Some? && s.pid.value in r.procMap && r.procMap[s.pid.value] == s)
      && (forall p :: p in r.procMap ==> r.procMap[p] in r.plist && exists i :: 0 <= i < |visits| && visits[i].pid == p)
      && |r.plist| == |r.procMap|
  {
    hide Fill;
    hide WellTracked;
    if visits != [] {
      var init, v := visits[..|visits| - 1], visits[|visits| - 1];
      ScanAgrees(cfg, tracked, init);
      var before, r := Scan(cfg, tracked, init), Scan(cfg, tracked, visits);
      if FilledBy(cfg, tracked, v) {
        FillFacts(cfg, tracked, v.pid, true, v.reading, v.now);
        forall i | 0 <= i < |init|
          ensures init[i].pid != v.pid
        {
          assert visits[i] == init[i] && visits[|visits| - 1] == v;
        }
        assert v.pid !in before.procMap;
        assert r.procMap == before.procMap[v.pid := r.plist[|r.plist| - 1]];
      }
    }
  }

  /** What Get returns of a scan of distinct directories: distinct pids, every one of them tracked
      as returned, and all of them when the top filter is off. */
  lemma GetReturnsTracked(cfg: Config, tracked: ProcsMap, visits: seq<Visit>,
                          byCPU: seq<ProcState>, byMemory: seq<ProcState>, result: seq<ProcState>)
    requires cfg.Valid() && WellTracked(tracked) && DistinctVisits(visits)
    requires IsSelection(cfg.includeTop, Scan(cfg, tracked, visits).plist, byCPU, byMemory, result)
    ensures var procMap := Scan(cfg, tracked, visits).procMap;
      && DistinctPids(result)
      && (forall s :: s in result ==> s.pid.Some? && s.pid.value in procMap && procMap[s.pid.value] == s)
      && (!Filters(cfg.includeTop) ==> |result| == |procMap|)
      && |result| <= |procMap|
  {
    hide Scan;
    ScanAgrees(cfg, tracked, visits);
    if !Filters(cfg.includeTop) {
      FilterOff(cfg.includeTop, Scan(cfg, tracked, visits).plist, byCPU, byMemory, result);
    } else {
      SelectionSound(cfg.includeTop, Scan(cfg, tracked, visits).plist, byCPU, byMemory, result);
    }
  }

  // ---------- runs of scrapes ----------

  lemma ApplyFacts(cfg: Config, tracked: ProcsMap, op: Op)
    requires cfg.Valid() && WellTracked(tracked)
    ensures var after := Apply(cfg, tracked, op);
      && WellTracked(after)
      && (forall p :: p in tracked && p in after && !cfg.skipExtended ==>
            after[p] == tracked[p] || KeepsCached(cfg, tracked[p], after[p]))
  {
    hide Fill;
    hide KeepsCached;
    match op
    case ScrapeAll(visits) => ScanFacts(cfg, tracked, visits);
    case ScrapeOne(pid, reading, now) =>
      if Fill(cfg, tracked, pid, false, reading, now).Filled? {
        FillFacts(cfg, tracked, pid, false, reading, now);
      }
  }

  function Run(cfg: Config, tracked: ProcsMap, ops: seq<Op>): ProcsMap
    requires cfg.Valid()
    decreases |ops|
  {
    if ops == [] then tracked else Run(cfg, Apply(cfg, tracked, ops[0]), ops[1..])
  }

  /** The pid is tracked before the run and after each of its scrapes. */
  predicate TrackedThroughout(cfg: Config, tracked: ProcsMap, ops: seq<Op>, pid: int)
    requires cfg.Valid()
    decreases |ops|
  {
    pid in tracked && (ops != [] ==> TrackedThroughout(cfg, Apply(cfg, tracked, ops[0]), ops[1..], pid))
  }

  /** Whatever the run, every tracked sample stays under its own pid with its arguments joined. */
  lemma {:induction false} RunsStayWellTracked(cfg: Config, tracked: ProcsMap, ops: seq<Op>)
    requires cfg.Valid() && WellTracked(tracked)
    ensures WellTracked(Run(cfg, tracked, ops))
    decreases |ops|
  {
    if ops != [] {
      ApplyFacts(cfg, tracked, ops[0]);
      RunsStayWellTracked(cfg, Apply(cfg, tracked, ops[0]), ops[1..]);
    }
  }

  /** With command lines cached, the arguments and command line of a continuously tracked pid
      never change once it has arguments; its environment never changes once it has one. */
  lemma {:induction false} CachedForGood(cfg: Config, tracked: ProcsMap, ops: seq<Op>, pid: int)
    requires cfg.Valid() && !cfg.skipExtended && WellTracked(tracked)
    requires TrackedThroughout(cfg, tracked, ops, pid)
    ensures var final := Run(cfg, tracked, ops);
      && pid in final
      && (tracked[pid].env.Some? ==> final[pid].env == tracked[pid].env)
      && (cfg.cacheCmdLine && tracked[pid].args != [] ==>
            final[pid].args == tracked[pid].args && final[pid].cmdline == tracked[pid].cmdline)
    decreases |ops|
  {
    hide Apply;
    if ops != [] {
      ApplyFacts(cfg, tracked, ops[0]);
      CachedForGood(cfg, Apply(cfg, tracked, ops[0]), ops[1..], pid);
    }
  }

  /** The samples of a continuously tracked pid, before the run and after each scrape. */
  function Samples(cfg: Config, tracked: ProcsMap, ops: seq<Op>, pid: int): (samples: seq<ProcState>)
    requires cfg.Valid() && TrackedThroughout(cfg, tracked, ops, pid)
    ensures |samples| == |ops| + 1 && samples[0] == tracked[pid]
    decreases |ops|
  {
    [tracked[pid]] + if ops == [] then [] else Samples(cfg, Apply(cfg, tracked, ops[0]), ops[1..], pid)
  }

  /** Whenever a new sample replaced another, at least a millisecond had passed and the tick
      counter had not gone back. */
  predicate ClockAndTicksAdvance(samples: seq<ProcState>) {
    forall i :: 0 <= i < |samples| - 1 ==>
      samples[i] == samples[i + 1]
      || (ElapsedMs(samples[i], samples[i + 1]) >= 1 && 0 <= TicksUsed(samples[i], samples[i + 1]) < TWO_63)
  }

  predicate Linked(samples: seq<ProcState>, numCPU: int)
    requires numCPU > 0
  {
    && (forall i :: 0 <= i < |samples| ==> samples[i].cpu.total.ticks.Some?)
    && (forall i :: 0 <= i < |samples| - 1 ==>
          samples[i] == samples[i + 1] || Follows(samples[i], samples[i + 1], numCPU))
  }

  lemma LinkOne(first: ProcState, rest: seq<ProcState>, numCPU: int)
    requires numCPU > 0 && rest != [] && Linked(rest, numCPU) && first.cpu.total.ticks.Some?
    requires first == rest[0] || Follows(first, rest[0], numCPU)
    ensures Linked([first] + rest, numCPU)
  {
    hide Follows;
    var samples := [first] + rest;
    forall i | 0 <= i < |samples| - 1
      ensures samples[i] == samples[i + 1] || Follows(samples[i], samples[i + 1], numCPU)
    {
      if i > 0 {
        var j := i - 1;
        assert samples[i] == rest[j] && samples[i + 1] == rest[j + 1];
      }
    }
  }

  lemma {:induction false} SamplesFollow(cfg: Config, tracked: ProcsMap, ops: seq<Op>, pid: int)
    requires cfg.Valid() && !cfg.skipExtended && WellTracked(tracked)
    requires TrackedThroughout(cfg, tracked, ops, pid) && tracked[pid].cpu.total.ticks.Some?
    ensures Linked(Samples(cfg, tracked, ops, pid), cfg.numCPU)
    decreases |ops|
  {
    hide Apply;
    hide Follows;
    if ops != [] {
      var next := Apply(cfg, tracked, ops[0]);
      ApplyFacts(cfg, tracked, ops[0]);
      SamplesFollow(cfg, next, ops[1..], pid);
      LinkOne(tracked[pid], Samples(cfg, next, ops[1..], pid), cfg.numCPU);
    }
  }

  /** Over any run that keeps a pid tracked, its published percentages account for the CPU time
      it used: exactly before rounding, and within the rounding as published. */
  lemma PercentagesAccountForTicks(cfg: Config, tracked: ProcsMap, ops: seq<Op>, pid: int)
    requires cfg.Valid() && !cfg.skipExtended && WellTracked(tracked)
    requires TrackedThroughout(cfg, tracked, ops, pid) && tracked[pid].cpu.total.ticks.Some?
    requires ClockAndTicksAdvance(Samples(cfg, tracked, ops, pid))
    ensures var samples := Samples(cfg, tracked, ops, pid);
      var ticks := TicksUsed(samples[0], samples[|ops|]) as real;
      && TotalUnrounded(samples) == ticks
      && ticks - RoundingOver(TotalMs(samples)) <= TotalPublished(samples) <= ticks + RoundingOver(TotalMs(samples))
  {

    var samples := Samples(cfg, tracked, ops, pid);
    SamplesFollow(cfg, tracked, ops, pid);
    assert History(samples, cfg.numCPU) by {
      forall i | 0 <= i < |samples| - 1
        ensures Advances(samples[i], samples[i + 1], cfg.numCPU)
      {
      }
    }
    PercentagesDoNotDrift(samples, cfg.numCPU);
  }
}
