/** metric/system/process: the samples remembered per pid, and how a scrape fills new ones. */
module Tracker {
  import opened CpuPercent
  import opened Decimal
  import opened GoNumbers
  import opened ProcessState
  import opened ProcStat
  import opened Strings
  import opened TopProcesses
  import opened Wrappers

  /** What the kernel answers about one pid while one sample is filled. fdOk, metadataOk, userOk
      and cgroupsOk tell whether the readers that only matter by failing succeeded. */
  datatype Reading = Reading(
    info: Result<Info>, rssBytes: Result<uint64>, cpu: Result<CPUTime>, args: Result<seq<string>>,
    environ: Option<map<string, string>>, fdOk: bool, metadataOk: bool, userOk: bool, cgroupsOk: bool)

  datatype Config = Config(
    procsConfigured: bool, matches: string -> bool, envAllowed: string -> bool, cacheCmdLine: bool,
    enableCgroups: bool, skipExtended: bool, includeTop: IncludeTopConfig, numCPU: int)
  {
    predicate Valid() {
      numCPU > 0
    }
  }

  // ---------- the steps of a fill ----------

  /** GetInfoForPid: the basic state of a process. */
  function BasicState(pid: int, info: Info): ProcState {
    NO_PROCESS.(
      name := info.name, state := info.state, pid := Some(pid), ppid := Some(info.ppid), pgid := Some(info.pgid))
  }

  /** cacheCmdLine, with the state remembered for the pid. */
  function CacheCmdLine(cfg: Config, status: ProcState, previous: Option<ProcState>): ProcState {
    if previous.None? then status
    else if cfg.cacheCmdLine then
      status.(args := previous.value.args, cmdline := previous.value.cmdline, env := previous.value.env)
    else status.(env := previous.value.env)
  }

  function Allowed(environ: map<string, string>, allowed: string -> bool): map<string, string> {
    map k | k in environ && allowed(k) :: environ[k]
  }

  /** FillPidMetrics on Linux: arguments and environment are read only when not cached. */
  function FillPidMetrics(cfg: Config, status: ProcState, reading: Reading): Result<ProcState> {
    if reading.rssBytes.Err? then Err("error getting memory data")
    else if reading.cpu.Err? then Err("error getting CPU data")
    else if status.args == [] && reading.args.Err? then Err("error getting CLI args")
    else if !reading.fdOk then Err("error getting FD metrics")
    else if !reading.metadataOk then Err("error getting metadata")
    else if !reading.userOk then Err("error creating username")
    else
      var time := reading.cpu.value;
      Ok(status.(
        rssBytes := Some(reading.rssBytes.value),
        cpu := ProcCPU(time.startMs, NO_TOTAL.(ticks := Some(time.total)), Some(time.user), Some(time.system)),
        args := if status.args == [] then reading.args.value else status.args,
        env := if status.env.Some? then status.env
               else if reading.environ.Some? then Some(Allowed(reading.environ.value, cfg.envAllowed)) else None))
  }

  function JoinCmdline(status: ProcState): ProcState {
    if |status.args| > 0 && status.cmdline == "" then status.(cmdline := Join(status.args, " ")) else status
  }

  /** The total value is the rounded tick count. */
  function WithTotalValue(status: ProcState): ProcState {
    if status.cpu.total.ticks.None? then status
    else
      var value := Rounding.Round(status.cpu.total.ticks.value as real);
      status.(cpu := status.cpu.(total := status.cpu.total.(value := Some(value))))
  }

  /** The end of pidFill: the sample is stamped and compared with the last one. */
  function Finish(cfg: Config, status: ProcState, last: Option<ProcState>, now: int): ProcState
    requires cfg.Valid()
  {
    var stamped := status.(sampleTime := now);
    if last.Some? then GetProcCPUPercentage(last.value, WithTotalValue(stamped), cfg.numCPU)
    else WithTotalValue(stamped)
  }

  function Remembered(tracked: ProcsMap, pid: int): Option<ProcState> {
    if pid in tracked then Some(tracked[pid]) else None
  }

  datatype Outcome = Filled(status: ProcState) | FilteredOut | Failed

  /** One fill while nothing else touches the tracked samples. */
  function Fill(cfg: Config, tracked: ProcsMap, pid: int, filter: bool, reading: Reading, now: int): Outcome
    requires cfg.Valid()
  {
    if reading.info.Err? then Failed
    else
      var basic := BasicState(pid, reading.info.value);
      if cfg.skipExtended then Filled(basic)
      else
        var cached := CacheCmdLine(cfg, basic, Remembered(tracked, pid));
        if filter && !cfg.matches(cached.name) then FilteredOut
        else
          var metrics := FillPidMetrics(cfg, cached, reading);
          if metrics.Err? then Failed
          else if cfg.enableCgroups && !reading.cgroupsOk then Failed
          else Filled(Finish(cfg, JoinCmdline(metrics.value), Remembered(tracked, pid), now))
  }

  // ---------- the classes ----------

  class ProcsTrack {
    var pids: ProcsMap

    constructor ()
      ensures pids == map[]
    {
      pids := map[];
    }

    method GetPid(pid: int) returns (proc: ProcState, ok: bool)
      ensures ok <==> pid in pids
      ensures proc == if pid in pids then pids[pid] else NO_PROCESS
    {
      ok := pid in pids;
      proc := if ok then pids[pid] else NO_PROCESS;
    }

    method SetPid(pid: int, ps: ProcState)
      modifies this
      ensures pids == old(pids)[pid := ps]
    {
      pids := pids[pid := ps];
    }

    method SetMap(newPids: ProcsMap)
      modifies this
      ensures pids == newPids
    {
      pids := newPids;
    }
  }

  /** One numeric directory of /proc, what it answers, and when it is sampled. */
  datatype Visit = Visit(pid: int, reading: Reading, now: int)

  /** One entry of /proc: only those named by a number are visited. */
  datatype DirEntry = DirEntry(name: string, reading: Reading, now: int)

  predicate DirIsPid(name: string) {
    name != "" && IsDigit(name[0])
  }

  /** strconv.Atoi on a name that starts with a digit. */
  function Atoi(name: string): Result<int>
    requires DirIsPid(name)
  {
    if !AllDigits(name) then Err("invalid syntax")
    else if ValueOf(name) >= TWO_63 then Err("value out of range")
    else Ok(ValueOf(name))
  }

  function VisitsIn(entries: seq<DirEntry>): seq<Visit> {
    if entries == [] then []
    else
      var before, e := VisitsIn(entries[..|entries| - 1]), entries[|entries| - 1];
      if DirIsPid(e.name) && Atoi(e.name).Ok? then before + [Visit(Atoi(e.name).value, e.reading, e.now)] else before
  }

  /** The tracked map and the list a scan of /proc builds. */
  datatype Scanned = Scanned(procMap: ProcsMap, plist: seq<ProcState>)

  function Scan(cfg: Config, tracked: ProcsMap, visits: seq<Visit>): Scanned
    requires cfg.Valid()
  {
    if visits == [] then Scanned(map[], [])
    else
      var before, v := Scan(cfg, tracked, visits[..|visits| - 1]), visits[|visits| - 1];
      match Fill(cfg, tracked, v.pid, true, v.reading, v.now)
      case Filled(status) => Scanned(before.procMap[v.pid := status], before.plist + [status])
      case FilteredOut => before
      case Failed => before
  }

  datatype Op =
    | ScrapeAll(visits: seq<Visit>)
    | ScrapeOne(pid: int, reading: Reading, now: int)

  /** What one complete call leaves tracked. */
  function Apply(cfg: Config, tracked: ProcsMap, op: Op): ProcsMap
    requires cfg.Valid()
  {
    match op
    case ScrapeAll(visits) => if cfg.procsConfigured then Scan(cfg, tracked, visits).procMap else tracked
    case ScrapeOne(pid, reading, now) =>
      match Fill(cfg, tracked, pid, false, reading, now)
      case Filled(status) => tracked[pid := status]
      case FilteredOut => tracked
      case Failed => tracked
  }

  class Stats {
    const cfg: Config
    const procsMap: ProcsTrack

    constructor (cfg: Config)
      ensures this.cfg == cfg && fresh(procsMap) && procsMap.pids == map[]
    {
      this.cfg := cfg;
      procsMap := new ProcsTrack();
    }

    method PidFill(pid: int, filter: bool, reading: Reading, now: int) returns (r: Outcome)
      requires cfg.Valid()
      ensures r == Fill(cfg, procsMap.pids, pid, filter, reading, now)
    {
      if reading.info.Err? {
        return Failed;
      }
      var status := BasicState(pid, reading.info.value);
      if cfg.skipExtended {
        return Filled(status);
      }
      var previous, known := procsMap.GetPid(pid);
      status := CacheCmdLine(cfg, status, if known then Some(previous) else None);
      if filter && !cfg.matches(status.name) {
        return FilteredOut;
      }
      var metrics := FillPidMetrics(cfg, status, reading);
      if metrics.Err? {
        return Failed;
      }
      status := JoinCmdline(metrics.value);
      var last, ok := procsMap.GetPid(pid);
      if cfg.enableCgroups && !reading.cgroupsOk {
        return Failed;
      }
      r := Filled(Finish(cfg, status, if ok then Some(last) else None, now));
    }

    method PidIter(v: Visit, procMap: ProcsMap, proclist: seq<ProcState>)
      returns (procMap': ProcsMap, proclist': seq<ProcState>)
      requires cfg.Valid()
      ensures var r := Fill(cfg, procsMap.pids, v.pid, true, v.reading, v.now);
        if r.Filled? then procMap' == procMap[v.pid := r.status] && proclist' == proclist + [r.status]
        else procMap' == procMap && proclist' == proclist
    {
      procMap', proclist' := procMap, proclist;
      var r := PidFill(v.pid, true, v.reading, v.now);
      if r.Filled? {
        procMap', proclist' := procMap[v.pid := r.status], proclist + [r.status];
      }
    }

    method FetchPids(entries: seq<DirEntry>) returns (procMap: ProcsMap, plist: seq<ProcState>)
      requires cfg.Valid()
      ensures Scanned(procMap, plist) == Scan(cfg, procsMap.pids, VisitsIn(entries))
    {
      procMap, plist := map[], [];
      for i := 0 to |entries|
        invariant Scanned(procMap, plist) == Scan(cfg, procsMap.pids, VisitsIn(entries[..i]))
      {
        var e := entries[i];
        assert entries[..i + 1][..i] == entries[..i];
        if !DirIsPid(e.name) {
          continue;
        }
        var pid := Atoi(e.name);
        if pid.Err? {
          continue;
        }
        var visit := Visit(pid.value, e.reading, e.now);
        ghost var before := VisitsIn(entries[..i]);
        assert (before + [visit])[..|before|] == before;
        procMap, plist := PidIter(visit, procMap, plist);
      }
      assert entries[..|entries|] == entries;
    }

    /** directory is an error when /proc cannot be listed. The processes returned are a selection
        of those scanned, all of which are tracked. */
    method Get(directory: Result<seq<DirEntry>>)
      returns (r: Result<seq<ProcState>>, ghost byCPU: seq<ProcState>, ghost byMemory: seq<ProcState>)
      requires cfg.Valid()
      modifies procsMap
      ensures r.Ok? <==> !cfg.procsConfigured || directory.Ok?
      ensures directory.Ok? ==> procsMap.pids == Apply(cfg, old(procsMap.pids), ScrapeAll(VisitsIn(directory.value)))
      ensures directory.Err? ==> procsMap.pids == old(procsMap.pids)
      ensures !cfg.procsConfigured ==> r == Ok([])
      ensures cfg.procsConfigured && directory.Ok? ==>
        var plist := Scan(cfg, old(procsMap.pids), VisitsIn(directory.value)).plist;
        IsSelection(cfg.includeTop, plist, byCPU, byMemory, r.value)
    {
      byCPU, byMemory := [], [];
      if !cfg.procsConfigured {
        return Ok([]), [], [];
      }
      if directory.Err? {
        return Err("error gathering PIDs"), [], [];
      }
      var pidMap, plist := FetchPids(directory.value);
      procsMap.SetMap(pidMap);
      var processes := new ProcState[|plist|](i requires 0 <= i < |plist| => plist[i]);
      assert processes[..] == plist;
      var result: seq<ProcState>;
      result, byCPU, byMemory := IncludeTopProcesses(cfg.includeTop, processes);
      r := Ok(result);
    }

    method GetOne(pid: int, reading: Reading, now: int) returns (r: Result<ProcState>)
      requires cfg.Valid()
      modifies procsMap
      ensures procsMap.pids == Apply(cfg, old(procsMap.pids), ScrapeOne(pid, reading, now))
      ensures r == match Fill(cfg, old(procsMap.pids), pid, false, reading, now)
                   case Filled(status) => Ok(status)
                   case FilteredOut => Err("error fetching PID")
                   case Failed => Err("error fetching PID")
    {
      var filled := PidFill(pid, false, reading, now);
      if !filled.Filled? {
        return Err("error fetching PID");
      }
      procsMap.SetPid(pid, filled.status);
      r := Ok(filled.status);
    }

    /** The caller's own process, by the same steps. */
    method GetSelf(self: int, reading: Reading, now: int) returns (r: Result<ProcState>)
      requires cfg.Valid()
      modifies procsMap
      ensures procsMap.pids == Apply(cfg, old(procsMap.pids), ScrapeOne(self, reading, now))
      ensures r == match Fill(cfg, old(procsMap.pids), self, false, reading, now)
                   case Filled(status) => Ok(status)
                   case FilteredOut => Err("error fetching PID")
                   case Failed => Err("error fetching PID")
    {
      r := GetOne(self, reading, now);
    }
  }
}
