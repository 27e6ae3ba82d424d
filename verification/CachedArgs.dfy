/** Arguments, command line and environment that later samples take over from the tracked one,
    when the calls that fill them overlap. */
module CachedArgs {
  import opened CallEnds
  import opened Interleaving
  import opened ProcessState
  import opened ProcStat
  import opened SoloCalls
  import opened Strings
  import opened TickOrder
  import opened Tracker
  import opened Wrappers

  predicate Joined(status: ProcState) {
    status.cmdline == Join(status.args, " ")
  }

  /** The status has what is cached of the held one. */
  predicate Agrees(cfg: Config, held: ProcState, status: ProcState) {
    && (cfg.cacheCmdLine && held.args != [] ==> status.args == held.args && status.cmdline == held.cmdline)
    && (held.env.Some? ==> status.env == held.env)
  }

  /** A fill of the pid has looked up the tracked sample it takes over from. */
  predicate PastLookup(thread: Thread, pid: int) {
    && (thread.Cached? || thread.Measured? || thread.Compared? || thread.Finished?)
    && HasPidLeft(thread.call) && PidOf(thread.call) == pid
  }

  predicate InLocalMap(thread: Thread, pid: int) {
    !thread.AtRest? && thread.call.All? && pid in thread.call.procMap
  }

  predicate ThreadAgrees(cfg: Config, held: ProcState, thread: Thread, pid: int) {
    && (PastLookup(thread, pid) ==> Agrees(cfg, held, thread.status))
    && (InLocalMap(thread, pid) ==> Agrees(cfg, held, thread.call.procMap[pid].state))
  }

  /** The pid is tracked with what is held, and so is every sample of it on its way. */
  predicate Settled(cfg: Config, s: System, pid: int, held: ProcState) {
    && pid in s.tracked && Agrees(cfg, held, s.tracked[pid].state)
    && (forall t :: t in s.threads ==> ThreadAgrees(cfg, held, s.threads[t], pid))
  }

  lemma FillAgrees(cfg: Config, held: ProcState, status: ProcState, reading: Reading)
    requires Joined(held) && Agrees(cfg, held, status) && FillPidMetrics(cfg, status, reading).Ok?
    ensures Agrees(cfg, held, JoinCmdline(FillPidMetrics(cfg, status, reading).value))
  {
  }

  lemma CacheAgrees(cfg: Config, held: ProcState, status: ProcState, last: ProcState)
    requires Agrees(cfg, held, last)
    ensures Agrees(cfg, held, CacheCmdLine(cfg, status, Some(last)))
  {
  }

  lemma StepAgrees(cfg: Config, kernel: Kernel, s: System, e: Event, t: int, pid: int, held: ProcState)
    requires cfg.Valid() && Joined(held) && Settled(cfg, s, pid, held)
    ensures ThreadAgrees(cfg, held, ThreadOf(Step(cfg, kernel, s, e), t), pid)
  {
    hide Agrees;
    hide CacheCmdLine;
    hide FillPidMetrics;
    hide JoinCmdline;
    hide Finish;
    if !e.Advance? && e.t == t && t in s.threads {
      var thread := s.threads[t];
      if e.ReadCache? && thread.Basic? {
        CacheAgrees(cfg, held, thread.status, s.tracked[pid].state);
      } else if e.Measure? && thread.Cached? && PastLookup(thread, pid) {
        var reading := AsCounted(kernel, pid, s.clock, e.reading);
        if FillPidMetrics(cfg, thread.status, reading).Ok? {
          FillAgrees(cfg, held, thread.status, reading);
        }
      } else if e.Stamp? && thread.Compared? {
        StampAgrees(cfg, held, thread.status, SampleState(thread.last), s.clock);
      }
    }
  }

  lemma StampAgrees(cfg: Config, held: ProcState, status: ProcState, last: Option<ProcState>, now: int)
    requires cfg.Valid()
    ensures Agrees(cfg, held, status) ==> Agrees(cfg, held, Finish(cfg, status, last, now))
  {
    hide Finish;
    TrackerRuns.FinishFacts(cfg, status, last, now);
  }

  lemma StepStaysSettled(cfg: Config, kernel: Kernel, s: System, e: Event, pid: int, held: ProcState)
    requires cfg.Valid() && Joined(held) && Settled(cfg, s, pid, held) && pid in Step(cfg, kernel, s, e).tracked
    ensures Settled(cfg, Step(cfg, kernel, s, e), pid, held)
  {
    hide Agrees;
    var s' := Step(cfg, kernel, s, e);
    assert Agrees(cfg, held, s'.tracked[pid].state) by {
      if !e.Advance? {
        assert e.t in s.threads ==> ThreadAgrees(cfg, held, s.threads[e.t], pid);
      }
    }
    forall t | t in s'.threads
      ensures ThreadAgrees(cfg, held, s'.threads[t], pid)
    {
      StepAgrees(cfg, kernel, s, e, t, pid, held);
    }
  }

  /** The pid is tracked before the run and after each of its steps. */
  ghost predicate StaysTracked(cfg: Config, kernel: Kernel, s: System, events: seq<Event>, pid: int)
    requires cfg.Valid()
  {
    forall i :: 0 <= i <= |events| ==> pid in Exec(cfg, kernel, s, events[..i]).tracked
  }

  /** Once settled, what is cached of a pid never changes while the pid stays tracked, whatever
      calls overlap. */
  lemma {:induction false} SettledForGood(cfg: Config, kernel: Kernel, s: System, events: seq<Event>,
                                          pid: int, held: ProcState)
    requires cfg.Valid() && Joined(held) && Settled(cfg, s, pid, held) && StaysTracked(cfg, kernel, s, events, pid)
    ensures Settled(cfg, Exec(cfg, kernel, s, events), pid, held)
  {
    hide Step;
    hide Settled;
    assert events[..|events|] == events;
    if events != [] {
      var n := |events| - 1;
      var init := events[..n];
      forall i | 0 <= i <= |init|
        ensures pid in Exec(cfg, kernel, s, init[..i]).tracked
      {
        assert init[..i] == events[..i];
      }
      SettledForGood(cfg, kernel, s, init, pid, held);
      StepStaysSettled(cfg, kernel, Exec(cfg, kernel, s, init), events[n], pid, held);
    }
  }

  // ---------- what all calls keep ----------

  predicate AllJoined(s: System) {
    && (forall p :: p in s.tracked ==> Joined(s.tracked[p].state))
    && (forall t :: t in s.threads ==> ThreadJoined(s.threads[t]))
  }

  predicate ThreadJoined(thread: Thread) {
    && (thread.Basic? ==> thread.status.args == [] && thread.status.cmdline == "")
    && (thread.Cached? || thread.Measured? || thread.Compared? || thread.Finished? ==> Joined(thread.status))
    && (!thread.AtRest? && thread.call.All? ==>
          forall p :: p in thread.call.procMap ==> Joined(thread.call.procMap[p].state))
  }

  lemma MetricsJoin(cfg: Config, status: ProcState, reading: Reading)
    requires Joined(status) && FillPidMetrics(cfg, status, reading).Ok?
    ensures Joined(JoinCmdline(FillPidMetrics(cfg, status, reading).value))
  {
  }

  lemma StepKeepsJoined(cfg: Config, kernel: Kernel, s: System, e: Event)
    requires cfg.Valid() && AllJoined(s)
    ensures AllJoined(Step(cfg, kernel, s, e))
  {
    hide FillPidMetrics;
    hide Finish;
    if !e.Advance? && e.t in s.threads {
      var thread := s.threads[e.t];
      assert ThreadJoined(thread);
      if e.Measure? && thread.Cached? && HasPidLeft(thread.call) {
        var reading := AsCounted(kernel, PidOf(thread.call), s.clock, e.reading);
        if FillPidMetrics(cfg, thread.status, reading).Ok? {
          MetricsJoin(cfg, thread.status, reading);
        }
        hide JoinCmdline;
      } else if e.Stamp? && thread.Compared? {
        TrackerRuns.FinishFacts(cfg, thread.status, SampleState(thread.last), s.clock);
      }
    }
  }

  lemma {:induction false} RunKeepsJoined(cfg: Config, kernel: Kernel, events: seq<Event>)
    requires cfg.Valid()
    ensures AllJoined(Exec(cfg, kernel, START, events))
  {
    hide Step;
    if events != [] {
      RunKeepsJoined(cfg, kernel, events[..|events| - 1]);
      StepKeepsJoined(cfg, kernel, Exec(cfg, kernel, START, events[..|events| - 1]), events[|events| - 1]);
    }
  }

  /** No call has looked up what it takes over for the pid, or filled it, and is still to store it. */
  predicate NoneUnderWay(s: System, pid: int) {
    forall t :: t in s.threads ==> !PastLookup(s.threads[t], pid) && !InLocalMap(s.threads[t], pid)
  }

  /** Calls may overlap in any way: what is cached of a tracked pid never changes while it stays
      tracked, once there was a moment at which no fill of it was under way. */
  lemma OverlapsKeepCached(cfg: Config, kernel: Kernel, before: seq<Event>, after: seq<Event>, pid: int)
    requires cfg.Valid()
    requires var s := Exec(cfg, kernel, START, before);
      NoneUnderWay(s, pid) && StaysTracked(cfg, kernel, s, after, pid)
    ensures var held := Exec(cfg, kernel, START, before).tracked;
      var final := Exec(cfg, kernel, START, before + after).tracked;
      && pid in held && pid in final && Agrees(cfg, held[pid].state, final[pid].state)
  {
    hide Step;
    var s := Exec(cfg, kernel, START, before);
    assert after[..0] == [];
    RunKeepsJoined(cfg, kernel, before);
    SettledForGood(cfg, kernel, s, after, pid, s.tracked[pid].state);
    ExecConcat(cfg, kernel, START, before, after);
  }

  // ---------- exactly when it is settled ----------

  function LastSteps(t: int, reading: Reading): seq<Event> {
    [Measure(t, reading), ReadLast(t), Stamp(t, true), Store(t)]
  }

  /** The call ends with its fill under way, if any, measured by this reading. */
  function Ending(t: int, reading: Reading, n: nat): seq<Event> {
    LastSteps(t, reading) + Closing(t, n)
  }

  ghost predicate EndKeepsCached(cfg: Config, kernel: Kernel, s: System, events: seq<Event>, pid: int, held: ProcState)
    requires cfg.Valid()
  {
    var final := Exec(cfg, kernel, s, events).tracked;
    pid in final ==> Agrees(cfg, held, final[pid].state)
  }

  predicate IsLaterStep(e: Event, t: int) {
    !e.Advance? && !e.Start? && e.t == t
  }

  predicate SettledOrGone(cfg: Config, s: System, t: int, pid: int, held: ProcState) {
    Settled(cfg, s, pid, held) || (pid !in s.tracked && ThreadOf(s, t).AtRest?)
  }

  lemma LaterStepKeeps(cfg: Config, kernel: Kernel, s: System, e: Event, t: int, pid: int, held: ProcState)
    requires cfg.Valid() && Joined(held) && SettledOrGone(cfg, s, t, pid, held) && IsLaterStep(e, t)
    ensures SettledOrGone(cfg, Step(cfg, kernel, s, e), t, pid, held)
  {
    hide Agrees;
    hide ThreadAgrees;
    hide Finish;
    hide FillPidMetrics;
    hide CacheCmdLine;
    var s' := Step(cfg, kernel, s, e);
    if pid in s.tracked && pid in s'.tracked {
      StepStaysSettled(cfg, kernel, s, e, pid, held);
    }
  }

  lemma {:induction false} LaterStepsKeep(cfg: Config, kernel: Kernel, s: System, events: seq<Event>,
                                          t: int, pid: int, held: ProcState)
    requires cfg.Valid() && Joined(held) && SettledOrGone(cfg, s, t, pid, held)
    requires forall e :: e in events ==> IsLaterStep(e, t)
    ensures SettledOrGone(cfg, Exec(cfg, kernel, s, events), t, pid, held)
  {
    hide Step;
    hide SettledOrGone;
    if events != [] {
      var init := events[..|events| - 1];
      LaterStepsKeep(cfg, kernel, s, init, t, pid, held);
      LaterStepKeeps(cfg, kernel, Exec(cfg, kernel, s, init), events[|events| - 1], t, pid, held);
    }
  }

  lemma {:induction false} EndingIsLater(t: int, reading: Reading, n: nat)
    ensures forall e :: e in Drops(t, n) ==> IsLaterStep(e, t)
    ensures forall e :: e in Ending(t, reading, n) ==> IsLaterStep(e, t)
  {
    if n > 0 {
      EndingIsLater(t, reading, n - 1);
    }
  }

  /** A reading with other arguments than those held, and no environment. */
  function Other(held: ProcState): Reading {
    Reading(Err(""), Ok(0), Ok(CPUTime(0, 0, 0, 0)), Ok(held.args + ["x"]), None, true, true, true, true)
  }

  lemma OtherDisagrees(cfg: Config, held: ProcState, status: ProcState, reading: Reading)
    requires Joined(held) && Joined(status) && !Agrees(cfg, held, status)
    requires reading.(cpu := Other(held).cpu) == Other(held) && reading.cpu.Ok?
    ensures var r := FillPidMetrics(cfg, status, reading);
      r.Ok? && !Agrees(cfg, held, JoinCmdline(r.value))
  {
  }

  /** A fill of the pid that disagrees is at least k steps along. */
  predicate Disagrees(cfg: Config, held: ProcState, thread: Thread, pid: int, k: nat) {
    && PastLookup(thread, pid) && Stage(thread) >= k && Joined(thread.status)
    && !Agrees(cfg, held, thread.status)
  }

  lemma MeasureDisagrees(cfg: Config, kernel: Kernel, s: System, t: int, pid: int, held: ProcState)
    requires cfg.Valid() && Joined(held) && Disagrees(cfg, held, ThreadOf(s, t), pid, 2)
    ensures var thread := ThreadOf(Step(cfg, kernel, s, Measure(t, Other(held))), t);
      Disagrees(cfg, held, thread, pid, 3) && thread.call == ThreadOf(s, t).call
  {
    hide Agrees;
    hide FillPidMetrics;
    hide JoinCmdline;
    hide Joined;
    var thread := ThreadOf(s, t);
    if thread.Cached? {
      var reading := AsCounted(kernel, pid, s.clock, Other(held));
      OtherDisagrees(cfg, held, thread.status, reading);
      MetricsJoin(cfg, thread.status, reading);
    }
  }

  lemma LookupDisagrees(cfg: Config, kernel: Kernel, s: System, t: int, pid: int, held: ProcState)
    requires cfg.Valid() && Disagrees(cfg, held, ThreadOf(s, t), pid, 3)
    ensures var thread := ThreadOf(Step(cfg, kernel, s, ReadLast(t)), t);
      Disagrees(cfg, held, thread, pid, 4) && thread.call == ThreadOf(s, t).call
  {
    hide Agrees;
    hide Joined;
  }

  lemma StampDisagrees(cfg: Config, kernel: Kernel, s: System, t: int, pid: int, held: ProcState)
    requires cfg.Valid() && Disagrees(cfg, held, ThreadOf(s, t), pid, 4)
    ensures var thread := ThreadOf(Step(cfg, kernel, s, Stamp(t, true)), t);
      Disagrees(cfg, held, thread, pid, 5) && thread.call == ThreadOf(s, t).call
  {
    hide Finish;
    var thread := ThreadOf(s, t);
    if thread.Compared? {
      TrackerRuns.FinishFacts(cfg, thread.status, SampleState(thread.last), s.clock);
    }
  }

  /** Such a fill ends with the other sample: tracked, or held by its scan. */
  lemma FillDisagrees(cfg: Config, kernel: Kernel, s: System, t: int, pid: int, held: ProcState)
    requires cfg.Valid() && Joined(held) && Disagrees(cfg, held, ThreadOf(s, t), pid, 2)
    ensures var s' := Exec(cfg, kernel, s, LastSteps(t, Other(held)));
      var after := if InScan(ThreadOf(s, t)) then Holds(ThreadOf(s', t)) else s'.tracked;
      && (ThreadOf(s, t).call.One? ==> ThreadOf(s', t).AtRest?)
      && pid in after && !Agrees(cfg, held, after[pid].state)
  {
    hide Exec;
    hide Agrees;
    hide Joined;
    var events := LastSteps(t, Other(held));
    var s1 := Step(cfg, kernel, s, events[0]);
    var s2 := Step(cfg, kernel, s1, events[1]);
    var s3 := Step(cfg, kernel, s2, events[2]);
    assert events == [events[0]] + ([events[1]] + ([events[2]] + [events[3]]));
    ExecFirst(cfg, kernel, s, events[0], [events[1]] + ([events[2]] + [events[3]]));
    ExecFirst(cfg, kernel, s1, events[1], [events[2]] + [events[3]]);
    ExecFirst(cfg, kernel, s2, events[2], [events[3]]);
    ExecOne(cfg, kernel, s3, events[3]);
    MeasureDisagrees(cfg, kernel, s, t, pid, held);
    LookupDisagrees(cfg, kernel, s1, t, pid, held);
    StampDisagrees(cfg, kernel, s2, t, pid, held);
  }

  lemma LastStepsFill(t: int, reading: Reading)
    ensures forall e :: e in LastSteps(t, reading) ==> IsFillStep(e, t)
  {
  }

  /** A scan that holds, or is about to hold, another sample tracks it when it ends. */
  lemma ScanEndsOtherwise(cfg: Config, kernel: Kernel, s: System, t: int, pid: int, held: ProcState) returns (n: nat)
    requires cfg.Valid() && Joined(held) && Invariant(kernel, s) && AllListedOnce(s) && AllJoined(s)
    requires InScan(ThreadOf(s, t)) && !ThreadAgrees(cfg, held, ThreadOf(s, t), pid)
    ensures !EndKeepsCached(cfg, kernel, s, Ending(t, Other(held), n), pid, held)
  {
    hide Exec;
    hide Agrees;
    hide Joined;
    hide LastSteps;
    hide Closing;
    hide Other;
    var thread := ThreadOf(s, t);
    assert ListedOnce(thread) && ThreadJoined(thread);
    var s4 := Exec(cfg, kernel, s, LastSteps(t, Other(held)));
    LastStepsFill(t, Other(held));
    ScanStepsKeep(cfg, kernel, s, LastSteps(t, Other(held)), t);
    if PastLookup(thread, pid) && !Agrees(cfg, held, thread.status) {
      FillDisagrees(cfg, kernel, s, t, pid, held);
    }
    var kept := Holds(ThreadOf(s4, t));
    assert pid in kept && !Agrees(cfg, held, kept[pid].state);
    ExecKeepsInvariant(cfg, kernel, s, LastSteps(t, Other(held)));
    assert ThreadOk(kernel, s4.clock, ThreadOf(s4, t));
    n := |ThreadOf(s4, t).call.todo|;
    ScanCloses(cfg, kernel, s4, t);
    ExecConcat(cfg, kernel, s, LastSteps(t, Other(held)), Closing(t, n));
  }

  lemma OneEndsOtherwise(cfg: Config, kernel: Kernel, s: System, t: int, pid: int, held: ProcState)
    requires cfg.Valid() && Joined(held) && AllJoined(s)
    requires !InScan(ThreadOf(s, t)) && !ThreadAgrees(cfg, held, ThreadOf(s, t), pid)
    ensures !EndKeepsCached(cfg, kernel, s, Ending(t, Other(held), 0), pid, held)
  {
    hide Exec;
    hide Agrees;
    hide Joined;
    hide LastSteps;
    hide Other;
    var steps := LastSteps(t, Other(held));
    assert ThreadJoined(ThreadOf(s, t));
    FillDisagrees(cfg, kernel, s, t, pid, held);
    var s4 := Exec(cfg, kernel, s, steps);
    assert Closing(t, 0) == [Store(t)] + [Publish(t)];
    ExecConcat(cfg, kernel, s, steps, Closing(t, 0));
    ExecFirst(cfg, kernel, s4, Store(t), [Publish(t)]);
    ExecOne(cfg, kernel, s4, Publish(t));
  }

  /** What is cached of a tracked pid is settled exactly when no call, brought to its end with
      whatever readings, could change it. */
  lemma SettledExactly(cfg: Config, kernel: Kernel, events: seq<Event>, pid: int)
    requires cfg.Valid() && forall e :: e in events ==> StartsListedOnce(e)
    requires pid in Exec(cfg, kernel, START, events).tracked
    ensures var s := Exec(cfg, kernel, START, events);
      var held := s.tracked[pid].state;
      Settled(cfg, s, pid, held) <==>
        forall t, reading, n: nat :: EndKeepsCached(cfg, kernel, s, Ending(t, reading, n), pid, held)
  {
    hide Exec;
    hide Agrees;
    hide ThreadAgrees;
    hide Ending;
    hide Joined;
    hide Invariant;
    hide AllListedOnce;
    hide EndKeepsCached;
    var s := Exec(cfg, kernel, START, events);
    var held := s.tracked[pid].state;
    RunKeepsJoined(cfg, kernel, events);
    RunKeepsListedOnce(cfg, kernel, events);
    ExecKeepsInvariant(cfg, kernel, START, events);
    AgreesWithItself(cfg, held);
    if Settled(cfg, s, pid, held) {
      forall t, reading, n: nat
        ensures EndKeepsCached(cfg, kernel, s, Ending(t, reading, n), pid, held)
      {
        SettledEnds(cfg, kernel, s, t, reading, n, pid, held);
      }
    } else {
      var t :| t in s.threads && !ThreadAgrees(cfg, held, s.threads[t], pid);
      if InScan(s.threads[t]) {
        var n := ScanEndsOtherwise(cfg, kernel, s, t, pid, held);
      } else {
        OneEndsOtherwise(cfg, kernel, s, t, pid, held);
      }
    }
  }

  lemma AgreesWithItself(cfg: Config, held: ProcState)
    ensures Agrees(cfg, held, held)
  {
  }

  lemma SettledEnds(cfg: Config, kernel: Kernel, s: System, t: int, reading: Reading, n: nat, pid: int, held: ProcState)
    requires cfg.Valid() && Joined(held) && Settled(cfg, s, pid, held)
    ensures EndKeepsCached(cfg, kernel, s, Ending(t, reading, n), pid, held)
  {
    hide Exec;
    hide Ending;
    EndingIsLater(t, reading, n);
    LaterStepsKeep(cfg, kernel, s, Ending(t, reading, n), t, pid, held);
  }

  // ---------- two first fills ----------

  const FIRST_READING := PLAIN_READING.(args := Ok(["a"]))
  const SECOND_READING := PLAIN_READING.(args := Ok(["b"]))

  /** Two calls fill a pid that is not tracked; the one that started first stores last. */
  const FIRST_FILLS: seq<Event> :=
    BOTH_START + (BeforeLast(1, SECOND_READING) + FillSteps(2, FIRST_READING))

  /** Then the second store replaces the arguments of the first, whatever the configuration. */
  lemma FirstFillsReplaceArgs(cfg: Config, kernel: Kernel)
    requires cfg.Valid()
    ensures var before := Exec(cfg, kernel, START, FIRST_FILLS).tracked;
      var after := Exec(cfg, kernel, START, FIRST_FILLS + FromLast(1, SECOND_READING)).tracked;
      7 in before && 7 in after && before[7].state.args == ["a"] && after[7].state.args == ["b"]
  {
    hide Exec;
    hide Finish;
    hide BeforeLast;
    hide FromLast;
    var s1 := Exec(cfg, kernel, BOTH_READY, BeforeLast(1, SECOND_READING));
    SoloMeasures(cfg, kernel, BOTH_READY, 1, One(7), SECOND_READING);
    var s2 := Exec(cfg, kernel, s1, BeforeLast(2, FIRST_READING));
    SoloMeasures(cfg, kernel, s1, 2, One(7), FIRST_READING);
    TrackerRuns.FinishFacts(cfg, ThreadOf(s2, 2).status, None, 0);
    SoloStores(cfg, kernel, s2, 2, FIRST_READING);
    var s3 := Exec(cfg, kernel, s2, FromLast(2, FIRST_READING));
    TrackerRuns.FinishFacts(cfg, ThreadOf(s3, 1).status, Some(s3.tracked[7].state), 0);
    SoloStores(cfg, kernel, s3, 1, SECOND_READING);
    BothStart(cfg, kernel);
    ExecConcat(cfg, kernel, s1, BeforeLast(2, FIRST_READING), FromLast(2, FIRST_READING));
    ExecConcat(cfg, kernel, BOTH_READY, BeforeLast(1, SECOND_READING), FillSteps(2, FIRST_READING));
    ExecConcat(cfg, kernel, START, BOTH_START, BeforeLast(1, SECOND_READING) + FillSteps(2, FIRST_READING));
    ExecConcat(cfg, kernel, START, FIRST_FILLS, FromLast(1, SECOND_READING));
  }
}
