/** metric/system/process: GetSelf, GetOne and Get running concurrently. Each access to the tracked
    map is one atomic step; anything may happen between two steps of a call. */
module Interleaving {
  import opened CpuPercent
  import opened GoNumbers
  import opened ProcessState
  import opened ProcStat
  import opened Tracker
  import TrackerRuns
  import opened Wrappers

  /** A process's total ticks as the kernel counts them, by pid and time. */
  type Kernel = (int, int) -> uint64

  /** A sample with the time its ticks were read, which the program does not keep. */
  datatype Sample = Sample(state: ProcState, readAt: int)

  type Samples = map<int, Sample>

  datatype Call =
    | One(pid: int)                             // GetOne, and GetSelf with the own pid
    | All(todo: seq<int>, procMap: Samples)     // Get: directories left, samples so far

  datatype Thread =
    | AtRest
    | Ready(call: Call)                                                          // before GetInfoForPid, or SetMap
    | Basic(call: Call, status: ProcState)                                       // before cacheCmdLine
    | Cached(call: Call, status: ProcState)                                      // before FillPidMetrics
    | Measured(call: Call, status: ProcState, readAt: int)                       // before GetPid
    | Compared(call: Call, status: ProcState, readAt: int, last: Option<Sample>) // before the clock is read
    | Finished(call: Call, status: ProcState, readAt: int)                       // before SetPid or the local map

  /** A fill that compared a new sample with the last one. */
  datatype Comparison = Comparison(pid: int, last: Sample, current: Sample)

  datatype System = System(clock: int, tracked: Samples, threads: map<int, Thread>, log: seq<Comparison>)

  datatype Event =
    | Advance(elapsed: nat)
    | Start(t: int, call: Call)
    | ReadInfo(t: int, info: Result<Info>)
    | ReadCache(t: int)
    | Measure(t: int, reading: Reading)
    | ReadLast(t: int)
    | Stamp(t: int, cgroupsOk: bool)
    | Store(t: int)
    | Publish(t: int)

  function ThreadOf(s: System, t: int): Thread {
    if t in s.threads then s.threads[t] else AtRest
  }

  predicate HasPidLeft(call: Call) {
    call.One? || call.todo != []
  }

  function PidOf(call: Call): int
    requires HasPidLeft(call)
  {
    if call.One? then call.pid else call.todo[0]
  }

  /** What a failed or filtered fill leaves: GetOne returns, Get goes on to the next pid. */
  function GiveUp(call: Call): Thread
    requires HasPidLeft(call)
  {
    if call.One? then AtRest else Ready(All(call.todo[1..], call.procMap))
  }

  function RememberedState(tracked: Samples, pid: int): Option<ProcState> {
    if pid in tracked then Some(tracked[pid].state) else None
  }

  function RememberedSample(tracked: Samples, pid: int): Option<Sample> {
    if pid in tracked then Some(tracked[pid]) else None
  }

  function SampleState(sample: Option<Sample>): Option<ProcState> {
    if sample.Some? then Some(sample.value.state) else None
  }

  /** The reading a fill gets at this moment: its ticks are what the kernel then counts. */
  function AsCounted(kernel: Kernel, pid: int, clock: int, reading: Reading): Reading {
    if reading.cpu.Err? then reading
    else reading.(cpu := Ok(reading.cpu.value.(total := kernel(pid, clock))))
  }

  function SetThread(s: System, t: int, thread: Thread): System {
    s.(threads := s.threads[t := thread])
  }

  /** The next step of a thread; an event its thread is not ready for does nothing. */
  function Step(cfg: Config, kernel: Kernel, s: System, e: Event): System
    requires cfg.Valid()
  {
    if e.Advance? then s.(clock := s.clock + e.elapsed)
    else
      var thread := ThreadOf(s, e.t);
      match e
      case Start(t, call) =>
        if thread.AtRest? && (call.All? ==> call.procMap == map[]) then SetThread(s, t, Ready(call)) else s
      case ReadInfo(t, info) =>
        if !thread.Ready? || !HasPidLeft(thread.call) then s
        else if info.Err? then SetThread(s, t, GiveUp(thread.call))
        else SetThread(s, t, Basic(thread.call, BasicState(PidOf(thread.call), info.value)))
      case ReadCache(t) =>
        if !thread.Basic? || !HasPidLeft(thread.call) then s
        else
          var status := CacheCmdLine(cfg, thread.status, RememberedState(s.tracked, PidOf(thread.call)));
          if thread.call.All? && !cfg.matches(status.name) then SetThread(s, t, GiveUp(thread.call))
          else SetThread(s, t, Cached(thread.call, status))
      case Measure(t, reading) =>
        if !thread.Cached? || !HasPidLeft(thread.call) then s
        else
          var filled := FillPidMetrics(cfg, thread.status, AsCounted(kernel, PidOf(thread.call), s.clock, reading));
          if filled.Err? then SetThread(s, t, GiveUp(thread.call))
          else SetThread(s, t, Measured(thread.call, JoinCmdline(filled.value), s.clock))
      case ReadLast(t) =>
        if !thread.Measured? || !HasPidLeft(thread.call) then s
        else
          var last := RememberedSample(s.tracked, PidOf(thread.call));
          SetThread(s, t, Compared(thread.call, thread.status, thread.readAt, last))
      case Stamp(t, cgroupsOk) =>
        if !thread.Compared? || !HasPidLeft(thread.call) then s
        else if cfg.enableCgroups && !cgroupsOk then SetThread(s, t, GiveUp(thread.call))
        else
          var status := Finish(cfg, thread.status, SampleState(thread.last), s.clock);
          var s' := SetThread(s, t, Finished(thread.call, status, thread.readAt));
          if thread.last.None? then s'
          else s'.(log := s.log + [Comparison(PidOf(thread.call), thread.last.value, Sample(status, thread.readAt))])
      case Store(t) =>
        if !thread.Finished? || !HasPidLeft(thread.call) then s
        else
          var sample := Sample(thread.status, thread.readAt);
          if thread.call.One? then SetThread(s, t, AtRest).(tracked := s.tracked[thread.call.pid := sample])
          else SetThread(s, t, Ready(All(thread.call.todo[1..], thread.call.procMap[thread.call.todo[0] := sample])))
      case Publish(t) =>
        if thread.Ready? && thread.call.All? && thread.call.todo == []
        then SetThread(s, t, AtRest).(tracked := thread.call.procMap)
        else s
  }

  function Exec(cfg: Config, kernel: Kernel, s: System, events: seq<Event>): System
    requires cfg.Valid()
  {
    if events == [] then s
    else Step(cfg, kernel, Exec(cfg, kernel, s, events[..|events| - 1]), events[|events| - 1])
  }

  const START: System := System(0, map[], map[], [])

  // ---------- what every interleaving keeps ----------

  /** Ticks were read no later than the stamp, the stamp is no later than now, and the ticks are
      what the kernel counted when they were read. */
  predicate SampleOk(kernel: Kernel, clock: int, pid: int, sample: Sample) {
    && sample.readAt <= sample.state.sampleTime <= clock
    && sample.state.cpu.total.ticks == Some(kernel(pid, sample.readAt))
    && sample.state.pid == Some(pid)
  }

  predicate SamplesOk(kernel: Kernel, clock: int, samples: Samples) {
    forall p :: p in samples ==> SampleOk(kernel, clock, p, samples[p])
  }

  predicate CallOk(kernel: Kernel, clock: int, call: Call) {
    call.All? ==> SamplesOk(kernel, clock, call.procMap)
  }

  predicate IsOf(call: Call, status: ProcState) {
    HasPidLeft(call) && status.pid == Some(PidOf(call))
  }

  predicate MeasuredOk(kernel: Kernel, clock: int, call: Call, status: ProcState, readAt: int) {
    readAt <= clock && IsOf(call, status) && status.cpu.total.ticks == Some(kernel(PidOf(call), readAt))
  }

  predicate ThreadOk(kernel: Kernel, clock: int, thread: Thread) {
    match thread
    case AtRest => true
    case Ready(call) => CallOk(kernel, clock, call)
    case Basic(call, status) => CallOk(kernel, clock, call) && IsOf(call, status)
    case Cached(call, status) => CallOk(kernel, clock, call) && IsOf(call, status)
    case Measured(call, status, readAt) =>
      CallOk(kernel, clock, call) && MeasuredOk(kernel, clock, call, status, readAt)
    case Compared(call, status, readAt, last) =>
      && CallOk(kernel, clock, call) && MeasuredOk(kernel, clock, call, status, readAt)
      && (last.Some? ==> SampleOk(kernel, clock, PidOf(call), last.value))
    case Finished(call, status, readAt) =>
      && CallOk(kernel, clock, call) && HasPidLeft(call)
      && SampleOk(kernel, clock, PidOf(call), Sample(status, readAt))
  }

  predicate ComparisonOk(kernel: Kernel, clock: int, c: Comparison) {
    && SampleOk(kernel, clock, c.pid, c.last) && SampleOk(kernel, clock, c.pid, c.current)
    && c.last.state.sampleTime <= c.current.state.sampleTime
  }

  predicate Invariant(kernel: Kernel, s: System) {
    && SamplesOk(kernel, s.clock, s.tracked)
    && (forall t :: t in s.threads ==> ThreadOk(kernel, s.clock, s.threads[t]))
    && (forall i :: 0 <= i < |s.log| ==> ComparisonOk(kernel, s.clock, s.log[i]))
  }

  lemma StepKeepsInvariant(cfg: Config, kernel: Kernel, s: System, e: Event)
    requires cfg.Valid() && Invariant(kernel, s)
    ensures Invariant(kernel, Step(cfg, kernel, s, e))
  {
    hide Finish;
    if e.Stamp? {
      var thread := ThreadOf(s, e.t);
      if thread.Compared? {
        TrackerRuns.FinishFacts(cfg, thread.status, SampleState(thread.last), s.clock);
      }
    }
  }

  lemma {:induction false} ExecKeepsInvariant(cfg: Config, kernel: Kernel, s: System, events: seq<Event>)
    requires cfg.Valid() && Invariant(kernel, s)
    ensures Invariant(kernel, Exec(cfg, kernel, s, events))
  {
    if events != [] {
      ExecKeepsInvariant(cfg, kernel, s, events[..|events| - 1]);
      StepKeepsInvariant(cfg, kernel, Exec(cfg, kernel, s, events[..|events| - 1]), events[|events| - 1]);
    }
  }

  /** In every interleaving no fill is ever compared with a sample from its future, nor with one
      of another process. */
  lemma TimeDeltaNeverNegative(cfg: Config, kernel: Kernel, events: seq<Event>)
    requires cfg.Valid()
    ensures forall c :: c in Exec(cfg, kernel, START, events).log ==>
      ElapsedMs(c.last.state, c.current.state) >= 0 && c.last.state.pid == c.current.state.pid == Some(c.pid)
  {
    hide Exec;
    ExecKeepsInvariant(cfg, kernel, START, events);
    var s := Exec(cfg, kernel, START, events);
    forall c | c in s.log
      ensures ElapsedMs(c.last.state, c.current.state) >= 0 && c.last.state.pid == c.current.state.pid == Some(c.pid)
    {
      var i :| 0 <= i < |s.log| && s.log[i] == c;
    }
  }

  // ---------- runs in parts ----------

  lemma NothingDone(cfg: Config, kernel: Kernel, s: System)
    requires cfg.Valid()
    ensures Exec(cfg, kernel, s, []) == s
  {
  }

  lemma {:induction false} ExecConcat(cfg: Config, kernel: Kernel, s: System, a: seq<Event>, b: seq<Event>)
    requires cfg.Valid()
    ensures Exec(cfg, kernel, s, a + b) == Exec(cfg, kernel, Exec(cfg, kernel, s, a), b)
  {
    hide Step;
    if b == [] {
      assert a + b == a;
    } else {
      assert (a + b)[..|a + b| - 1] == a + b[..|b| - 1];
      ExecConcat(cfg, kernel, s, a, b[..|b| - 1]);
    }
  }

  lemma ExecOne(cfg: Config, kernel: Kernel, s: System, e: Event)
    requires cfg.Valid()
    ensures Exec(cfg, kernel, s, [e]) == Step(cfg, kernel, s, e)
  {
    hide Step;
    assert [e][..0] == [];
    assert Exec(cfg, kernel, s, []) == s;
  }

  lemma ExecFirst(cfg: Config, kernel: Kernel, s: System, e: Event, rest: seq<Event>)
    requires cfg.Valid()
    ensures Exec(cfg, kernel, s, [e] + rest) == Exec(cfg, kernel, Step(cfg, kernel, s, e), rest)
  {
    ExecConcat(cfg, kernel, s, [e], rest);
    ExecOne(cfg, kernel, s, e);
  }
}
