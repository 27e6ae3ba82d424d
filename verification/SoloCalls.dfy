/** Calls that nothing disturbs: their atomic steps amount to one sequential scrape. */
module SoloCalls {
  import opened Interleaving
  import opened ProcessState
  import opened Tracker

  function StatesOf(samples: Samples): ProcsMap {
    map p | p in samples :: samples[p].state
  }

  /** The steps of filling one pid, up to the comparison and after it. */
  function BeforeLast(t: int, reading: Reading): seq<Event> {
    [ReadInfo(t, reading.info), ReadCache(t), Measure(t, reading)]
  }

  function FromLast(t: int, reading: Reading): seq<Event> {
    [ReadLast(t), Stamp(t, reading.cgroupsOk), Store(t)]
  }

  function FillSteps(t: int, reading: Reading): seq<Event> {
    BeforeLast(t, reading) + FromLast(t, reading)
  }

  /** Between two fills, a thread is at rest or ready for its next pid. */
  predicate BetweenFills(thread: Thread) {
    thread.AtRest? || thread.Ready?
  }

  /** What the first three steps make of a thread ready to fill a pid: it has measured the
      process, or given up on it. */
  function MeasuredThread(cfg: Config, kernel: Kernel, s: System, call: Call, reading: Reading): Thread
    requires HasPidLeft(call)
  {
    var pid := PidOf(call);
    if reading.info.Err? then GiveUp(call)
    else
      var cached := CacheCmdLine(cfg, BasicState(pid, reading.info.value), RememberedState(s.tracked, pid));
      if call.All? && !cfg.matches(cached.name) then GiveUp(call)
      else
        var metrics := FillPidMetrics(cfg, cached, AsCounted(kernel, pid, s.clock, reading));
        if metrics.Err? then GiveUp(call) else Measured(call, JoinCmdline(metrics.value), s.clock)
  }

  lemma SoloMeasures(cfg: Config, kernel: Kernel, s: System, t: int, call: Call, reading: Reading)
    requires cfg.Valid() && HasPidLeft(call) && ThreadOf(s, t) == Ready(call)
    ensures Exec(cfg, kernel, s, BeforeLast(t, reading))
      == SetThread(s, t, MeasuredThread(cfg, kernel, s, call, reading))
  {
    hide Exec;
    hide FillPidMetrics;
    hide CacheCmdLine;
    var s1 := Step(cfg, kernel, s, ReadInfo(t, reading.info));
    var s2 := Step(cfg, kernel, s1, ReadCache(t));
    var s3 := Step(cfg, kernel, s2, Measure(t, reading));
    var events := BeforeLast(t, reading);
    assert events == [events[0]] + ([events[1]] + [events[2]]);
    ExecFirst(cfg, kernel, s, events[0], [events[1]] + [events[2]]);
    ExecFirst(cfg, kernel, s1, events[1], [events[2]]);
    ExecOne(cfg, kernel, s2, events[2]);
    assert s3.threads == s.threads[t := MeasuredThread(cfg, kernel, s, call, reading)];
  }

  /** The last three steps leave a thread that gave up alone. */
  lemma SoloSkips(cfg: Config, kernel: Kernel, s: System, t: int, reading: Reading)
    requires cfg.Valid() && BetweenFills(ThreadOf(s, t))
    ensures Exec(cfg, kernel, s, FromLast(t, reading)) == s
  {
    hide Exec;
    var events := FromLast(t, reading);
    assert events == [events[0]] + ([events[1]] + [events[2]]);
    ExecFirst(cfg, kernel, s, events[0], [events[1]] + [events[2]]);
    ExecFirst(cfg, kernel, s, events[1], [events[2]]);
    ExecOne(cfg, kernel, s, events[2]);
  }

  /** They compare, stamp and store a measured process: GetOne in the tracked samples, Get in
      its own map. */
  lemma SoloStores(cfg: Config, kernel: Kernel, s: System, t: int, reading: Reading)
    requires cfg.Valid() && ThreadOf(s, t).Measured? && HasPidLeft(ThreadOf(s, t).call)
    ensures var s' := Exec(cfg, kernel, s, FromLast(t, reading));
      var thread := ThreadOf(s, t);
      var call, pid := thread.call, PidOf(thread.call);
      var sample := Sample(Finish(cfg, thread.status, RememberedState(s.tracked, pid), s.clock), thread.readAt);
      if cfg.enableCgroups && !reading.cgroupsOk then s' == SetThread(s, t, GiveUp(call))
      else
        && s'.log == (if pid in s.tracked then s.log + [Comparison(pid, s.tracked[pid], sample)] else s.log)
        && s' == if call.One? then SetThread(s, t, AtRest).(tracked := s.tracked[pid := sample], log := s'.log)
                 else SetThread(s, t, Ready(All(call.todo[1..], call.procMap[pid := sample]))).(log := s'.log)
  {
    hide Exec;
    hide Finish;
    var s1 := Step(cfg, kernel, s, ReadLast(t));
    var s2 := Step(cfg, kernel, s1, Stamp(t, reading.cgroupsOk));
    var s3 := Step(cfg, kernel, s2, Store(t));
    var events := FromLast(t, reading);
    assert events == [events[0]] + ([events[1]] + [events[2]]);
    ExecFirst(cfg, kernel, s, events[0], [events[1]] + [events[2]]);
    ExecFirst(cfg, kernel, s1, events[1], [events[2]]);
    ExecOne(cfg, kernel, s2, events[2]);
    assert s3.threads == s.threads[t := ThreadOf(s3, t)];
  }

  /** The sequential fill in terms of what the first three steps measure. */
  lemma FillIsMeasured(cfg: Config, kernel: Kernel, s: System, call: Call, reading: Reading)
    requires cfg.Valid() && !cfg.skipExtended && HasPidLeft(call)
    ensures var pid := PidOf(call);
      var last, now := RememberedState(s.tracked, pid), s.clock;
      var r := Fill(cfg, StatesOf(s.tracked), pid, call.All?, AsCounted(kernel, pid, now, reading), now);
      var thread := MeasuredThread(cfg, kernel, s, call, reading);
      if thread.Measured? then
        && thread.call == call && thread.readAt == now
        && r == if cfg.enableCgroups && !reading.cgroupsOk then Failed
                else Filled(Finish(cfg, thread.status, last, now))
      else thread == GiveUp(call) && !r.Filled?
  {
    hide Finish;
    hide FillPidMetrics;
    hide CacheCmdLine;
    hide JoinCmdline;
    assert RememberedState(s.tracked, PidOf(call)) == Remembered(StatesOf(s.tracked), PidOf(call));
  }

  /** An undisturbed fill: the thread and the tracked samples end as the sequential fill says. */
  lemma SoloFill(cfg: Config, kernel: Kernel, s: System, t: int, call: Call, reading: Reading)
    requires cfg.Valid() && !cfg.skipExtended && HasPidLeft(call) && ThreadOf(s, t) == Ready(call)
    ensures var s' := Exec(cfg, kernel, s, FillSteps(t, reading));
      var pid := PidOf(call);
      var r := Fill(cfg, StatesOf(s.tracked), pid, call.All?, AsCounted(kernel, pid, s.clock, reading), s.clock);
      && s'.clock == s.clock
      && if !r.Filled? then s'.tracked == s.tracked && ThreadOf(s', t) == GiveUp(call)
         else
           var sample := Sample(r.status, s.clock);
           if call.One? then s'.tracked == s.tracked[pid := sample] && ThreadOf(s', t) == AtRest
           else s'.tracked == s.tracked && ThreadOf(s', t) == Ready(All(call.todo[1..], call.procMap[pid := sample]))
  {
    hide Exec;
    hide Finish;
    hide Fill;
    hide MeasuredThread;
    var measured := SetThread(s, t, MeasuredThread(cfg, kernel, s, call, reading));
    SoloMeasures(cfg, kernel, s, t, call, reading);
    ExecConcat(cfg, kernel, s, BeforeLast(t, reading), FromLast(t, reading));
    FillIsMeasured(cfg, kernel, s, call, reading);
    if ThreadOf(measured, t).Measured? {
      SoloStores(cfg, kernel, measured, t, reading);
    } else {
      SoloSkips(cfg, kernel, measured, t, reading);
    }
  }

  /** Undisturbed, GetOne does to the tracked samples exactly what the sequential scrape does. */
  lemma SoloGetOneIsScrape(cfg: Config, kernel: Kernel, s: System, t: int, pid: int, reading: Reading)
    requires cfg.Valid() && !cfg.skipExtended && ThreadOf(s, t).AtRest?
    ensures var s' := Exec(cfg, kernel, s, [Start(t, One(pid))] + FillSteps(t, reading));
      && ThreadOf(s', t).AtRest?
      && StatesOf(s'.tracked) ==
         Apply(cfg, StatesOf(s.tracked), ScrapeOne(pid, AsCounted(kernel, pid, s.clock, reading), s.clock))
  {
    hide Exec;
    hide Fill;
    var s1 := Step(cfg, kernel, s, Start(t, One(pid)));
    ExecFirst(cfg, kernel, s, Start(t, One(pid)), FillSteps(t, reading));
    SoloFill(cfg, kernel, s1, t, One(pid), reading);
  }

  /** One directory of an undisturbed Get: some time passes, then its pid is filled. */
  datatype Turn = Turn(pid: int, delay: nat, reading: Reading)

  function PidsOf(turns: seq<Turn>): seq<int> {
    seq(|turns|, i requires 0 <= i < |turns| => turns[i].pid)
  }

  function TurnSteps(t: int, turns: seq<Turn>): seq<Event> {
    if turns == [] then []
    else
      var last := turns[|turns| - 1];
      TurnSteps(t, turns[..|turns| - 1]) + ([Advance(last.delay)] + FillSteps(t, last.reading))
  }

  /** The visits those turns amount to, each with the clock and the ticks of its moment. */
  function VisitsOf(kernel: Kernel, clock: int, turns: seq<Turn>): seq<Visit> {
    if turns == [] then []
    else
      var last := turns[|turns| - 1];
      var now := clock + TotalDelay(turns);
      var visit := Visit(last.pid, AsCounted(kernel, last.pid, now, last.reading), now);
      VisitsOf(kernel, clock, turns[..|turns| - 1]) + [visit]
  }

  function TotalDelay(turns: seq<Turn>): nat {
    if turns == [] then 0 else TotalDelay(turns[..|turns| - 1]) + turns[|turns| - 1].delay
  }

  /** After some of its turns, Get has scanned the directories they visited. */
  lemma {:induction false} SoloTurns(cfg: Config, kernel: Kernel, s: System, t: int, turns: seq<Turn>, later: seq<int>)
    requires cfg.Valid() && !cfg.skipExtended
    requires ThreadOf(s, t) == Ready(All(PidsOf(turns) + later, map[]))
    ensures var s' := Exec(cfg, kernel, s, TurnSteps(t, turns));
      && s'.tracked == s.tracked && s'.clock == s.clock + TotalDelay(turns)
      && ThreadOf(s', t).Ready? && ThreadOf(s', t).call.All? && ThreadOf(s', t).call.todo == later
      && StatesOf(ThreadOf(s', t).call.procMap)
         == Scan(cfg, StatesOf(s.tracked), VisitsOf(kernel, s.clock, turns)).procMap
  {
    hide Exec;
    hide Fill;
    hide FillSteps;
    if turns == [] {
      assert PidsOf(turns) + later == later;
      NothingDone(cfg, kernel, s);
    } else {
      var init, last := turns[..|turns| - 1], turns[|turns| - 1];
      assert PidsOf(turns) + later == PidsOf(init) + ([last.pid] + later);
      SoloTurns(cfg, kernel, s, t, init, [last.pid] + later);
      var s1 := Exec(cfg, kernel, s, TurnSteps(t, init));
      var s2 := Step(cfg, kernel, s1, Advance(last.delay));
      ExecConcat(cfg, kernel, s, TurnSteps(t, init), [Advance(last.delay)] + FillSteps(t, last.reading));
      ExecFirst(cfg, kernel, s1, Advance(last.delay), FillSteps(t, last.reading));
      SoloFill(cfg, kernel, s2, t, ThreadOf(s1, t).call, last.reading);
      assert ([last.pid] + later)[1..] == later;
      var visits := VisitsOf(kernel, s.clock, turns);
      assert visits[..|visits| - 1] == VisitsOf(kernel, s.clock, init);
    }
  }

  /** Undisturbed, Get does to the tracked samples exactly what the sequential scrape does. */
  lemma SoloGetIsScrape(cfg: Config, kernel: Kernel, s: System, t: int, turns: seq<Turn>)
    requires cfg.Valid() && !cfg.skipExtended && cfg.procsConfigured && ThreadOf(s, t).AtRest?
    ensures var start := Start(t, All(PidsOf(turns), map[]));
      var s' := Exec(cfg, kernel, s, [start] + (TurnSteps(t, turns) + [Publish(t)]));
      && ThreadOf(s', t).AtRest?
      && StatesOf(s'.tracked) == Apply(cfg, StatesOf(s.tracked), ScrapeAll(VisitsOf(kernel, s.clock, turns)))
  {
    hide Exec;
    hide Scan;
    hide TurnSteps;
    var start := Start(t, All(PidsOf(turns), map[]));
    var s1 := Step(cfg, kernel, s, start);
    ExecFirst(cfg, kernel, s, start, TurnSteps(t, turns) + [Publish(t)]);
    ExecConcat(cfg, kernel, s1, TurnSteps(t, turns), [Publish(t)]);
    assert PidsOf(turns) + [] == PidsOf(turns);
    SoloTurns(cfg, kernel, s1, t, turns, []);
    ExecOne(cfg, kernel, Exec(cfg, kernel, s1, TurnSteps(t, turns)), Publish(t));
  }
}
