/** Tick deltas between compared samples: fewer ticks than before can only come from the order in
    which overlapping calls measure, compare and store. */
module TickOrder {
  import opened CpuPercent
  import opened GoNumbers
  import opened Interleaving
  import opened ProcessState
  import opened ProcStat
  import opened SoloCalls
  import opened Tracker
  import TrackerRuns
  import opened Wrappers

  ghost predicate Counts(kernel: Kernel) {
    && (forall p, t :: kernel(p, t) < TWO_63)
    && (forall p, t0, t1 :: t0 <= t1 ==> kernel(p, t0) <= kernel(p, t1))
  }

  /** In every interleaving the tick delta of a comparison is the counter of its process when one
      sample was measured less the counter when the other was. */
  lemma TickDeltaExactly(cfg: Config, kernel: Kernel, events: seq<Event>)
    requires cfg.Valid() && Counts(kernel)
    ensures forall c :: c in Exec(cfg, kernel, START, events).log ==>
      TickDelta(c.last.state, c.current.state) == kernel(c.pid, c.current.readAt) - kernel(c.pid, c.last.readAt)
  {
    hide Exec;
    ExecKeepsInvariant(cfg, kernel, START, events);
    var s := Exec(cfg, kernel, START, events);
    forall c | c in s.log
      ensures TickDelta(c.last.state, c.current.state) == kernel(c.pid, c.current.readAt) - kernel(c.pid, c.last.readAt)
    {
      var i :| 0 <= i < |s.log| && s.log[i] == c;
      assert ComparisonOk(kernel, s.clock, s.log[i]);
    }
  }

  // ---------- the same schedule under two kernels ----------

  predicate Alike(a: ProcState, b: ProcState) {
    a.(cpu := NO_CPU) == b.(cpu := NO_CPU)
  }

  predicate AlikeSample(a: Sample, b: Sample) {
    a.readAt == b.readAt && Alike(a.state, b.state)
  }

  ghost predicate AlikeSamples(a: Samples, b: Samples) {
    && (forall p :: p in a <==> p in b)
    && (forall p :: p in a && p in b ==> AlikeSample(a[p], b[p]))
  }

  ghost predicate AlikeCalls(a: Call, b: Call) {
    match a
    case One(pid) => b == a
    case All(todo, procMap) => b.All? && b.todo == todo && AlikeSamples(procMap, b.procMap)
  }

  ghost predicate AlikeThreads(a: Thread, b: Thread) {
    match a
    case AtRest => b.AtRest?
    case Ready(call) => b.Ready? && AlikeCalls(call, b.call)
    case Basic(call, status) => b.Basic? && AlikeCalls(call, b.call) && Alike(status, b.status)
    case Cached(call, status) => b.Cached? && AlikeCalls(call, b.call) && Alike(status, b.status)
    case Measured(call, status, readAt) =>
      b.Measured? && AlikeCalls(call, b.call) && Alike(status, b.status) && b.readAt == readAt
    case Compared(call, status, readAt, last) =>
      && b.Compared? && AlikeCalls(call, b.call) && Alike(status, b.status) && b.readAt == readAt
      && b.last.Some? == last.Some? && (last.Some? ==> AlikeSample(last.value, b.last.value))
    case Finished(call, status, readAt) =>
      b.Finished? && AlikeCalls(call, b.call) && Alike(status, b.status) && b.readAt == readAt
  }

  predicate AlikeComparisons(a: Comparison, b: Comparison) {
    a.pid == b.pid && AlikeSample(a.last, b.last) && AlikeSample(a.current, b.current)
  }

  /** Two systems that differ in CPU times only. */
  ghost predicate SameButCPU(a: System, b: System) {
    && a.clock == b.clock && AlikeSamples(a.tracked, b.tracked)
    && (forall t :: t in a.threads <==> t in b.threads)
    && (forall t :: t in a.threads && t in b.threads ==> AlikeThreads(a.threads[t], b.threads[t]))
    && |a.log| == |b.log| && (forall i :: 0 <= i < |a.log| ==> AlikeComparisons(a.log[i], b.log[i]))
  }

  lemma FinishAlike(cfg: Config, a: ProcState, b: ProcState, last: Option<ProcState>, last': Option<ProcState>,
                    now: int)
    requires cfg.Valid() && Alike(a, b)
    ensures Alike(Finish(cfg, a, last, now), Finish(cfg, b, last', now))
  {
    hide Finish;
    TrackerRuns.FinishFacts(cfg, a, last, now);
    TrackerRuns.FinishFacts(cfg, b, last', now);
  }

  lemma SetAlike(a: System, b: System, t: int, x: Thread, y: Thread)
    requires SameButCPU(a, b) && AlikeThreads(x, y)
    ensures SameButCPU(SetThread(a, t, x), SetThread(b, t, y))
  {
    hide AlikeThreads;
    hide AlikeSamples;
    hide AlikeComparisons;
  }

  lemma CacheAlike(cfg: Config, a: ProcState, b: ProcState, last: Option<ProcState>, last': Option<ProcState>)
    requires Alike(a, b) && last.Some? == last'.Some? && (last.Some? ==> Alike(last.value, last'.value))
    ensures Alike(CacheCmdLine(cfg, a, last), CacheCmdLine(cfg, b, last'))
  {
  }

  lemma MetricsAlike(cfg: Config, a: ProcState, b: ProcState, r0: Reading, r1: Reading)
    requires Alike(a, b) && r0.(cpu := r1.cpu) == r1 && r0.cpu.Ok? == r1.cpu.Ok?
    ensures var x, y := FillPidMetrics(cfg, a, r0), FillPidMetrics(cfg, b, r1);
      x.Ok? == y.Ok? && (x.Ok? ==> Alike(JoinCmdline(x.value), JoinCmdline(y.value)))
  {
  }

  lemma StartAlike(cfg: Config, k0: Kernel, k1: Kernel, a: System, b: System, e: Event)
    requires cfg.Valid() && SameButCPU(a, b) && e.Start?
    ensures SameButCPU(Step(cfg, k0, a, e), Step(cfg, k1, b, e))
  {
    hide Alike;
    assert AlikeThreads(ThreadOf(a, e.t), ThreadOf(b, e.t));
    SetAlike(a, b, e.t, ThreadOf(Step(cfg, k0, a, e), e.t), ThreadOf(Step(cfg, k1, b, e), e.t));
  }

  lemma ReadInfoAlike(cfg: Config, k0: Kernel, k1: Kernel, a: System, b: System, e: Event)
    requires cfg.Valid() && SameButCPU(a, b) && e.ReadInfo?
    ensures SameButCPU(Step(cfg, k0, a, e), Step(cfg, k1, b, e))
  {
    hide AlikeSamples;
    assert AlikeThreads(ThreadOf(a, e.t), ThreadOf(b, e.t));
    SetAlike(a, b, e.t, ThreadOf(Step(cfg, k0, a, e), e.t), ThreadOf(Step(cfg, k1, b, e), e.t));
  }

  lemma ReadCacheAlike(cfg: Config, k0: Kernel, k1: Kernel, a: System, b: System, e: Event)
    requires cfg.Valid() && SameButCPU(a, b) && e.ReadCache?
    ensures SameButCPU(Step(cfg, k0, a, e), Step(cfg, k1, b, e))
  {
    hide JoinCmdline;
    var x, y := ThreadOf(a, e.t), ThreadOf(b, e.t);
    assert AlikeThreads(x, y);
    if x.Basic? && HasPidLeft(x.call) {
      var pid := PidOf(x.call);
      CacheAlike(cfg, x.status, y.status, RememberedState(a.tracked, pid), RememberedState(b.tracked, pid));
      hide CacheCmdLine;
      SetAlike(a, b, e.t, ThreadOf(Step(cfg, k0, a, e), e.t), ThreadOf(Step(cfg, k1, b, e), e.t));
    }
  }

  lemma ReadLastAlike(cfg: Config, k0: Kernel, k1: Kernel, a: System, b: System, e: Event)
    requires cfg.Valid() && SameButCPU(a, b) && e.ReadLast?
    ensures SameButCPU(Step(cfg, k0, a, e), Step(cfg, k1, b, e))
  {
    hide Alike;
    var x, y := ThreadOf(a, e.t), ThreadOf(b, e.t);
    assert AlikeThreads(x, y);
    if x.Measured? && HasPidLeft(x.call) {
      SetAlike(a, b, e.t, ThreadOf(Step(cfg, k0, a, e), e.t), ThreadOf(Step(cfg, k1, b, e), e.t));
    }
  }

  lemma MeasureAlike(cfg: Config, k0: Kernel, k1: Kernel, a: System, b: System, e: Event)
    requires cfg.Valid() && SameButCPU(a, b) && e.Measure?
    ensures SameButCPU(Step(cfg, k0, a, e), Step(cfg, k1, b, e))
  {
    hide AlikeSamples;
    hide FillPidMetrics;
    hide JoinCmdline;
    var x, y := ThreadOf(a, e.t), ThreadOf(b, e.t);
    if x.Cached? && HasPidLeft(x.call) {
      var r0 := AsCounted(k0, PidOf(x.call), a.clock, e.reading);
      var r1 := AsCounted(k1, PidOf(x.call), a.clock, e.reading);
      MetricsAlike(cfg, x.status, y.status, r0, r1);
      SetAlike(a, b, e.t, ThreadOf(Step(cfg, k0, a, e), e.t), ThreadOf(Step(cfg, k1, b, e), e.t));
    }
  }

  lemma StampAlike(cfg: Config, k0: Kernel, k1: Kernel, a: System, b: System, e: Event)
    requires cfg.Valid() && SameButCPU(a, b) && e.Stamp?
    ensures SameButCPU(Step(cfg, k0, a, e), Step(cfg, k1, b, e))
  {
    hide Finish;
    hide AlikeSamples;
    var x, y := ThreadOf(a, e.t), ThreadOf(b, e.t);
    if x.Compared? && HasPidLeft(x.call) {
      FinishAlike(cfg, x.status, y.status, SampleState(x.last), SampleState(y.last), a.clock);
      SetAlike(a, b, e.t, ThreadOf(Step(cfg, k0, a, e), e.t), ThreadOf(Step(cfg, k1, b, e), e.t));
    }
  }

  lemma StoreAlike(cfg: Config, k0: Kernel, k1: Kernel, a: System, b: System, e: Event)
    requires cfg.Valid() && SameButCPU(a, b) && (e.Store? || e.Publish?)
    ensures SameButCPU(Step(cfg, k0, a, e), Step(cfg, k1, b, e))
  {
    hide Alike;
    hide AlikeComparisons;
    var x, y := ThreadOf(a, e.t), ThreadOf(b, e.t);
    SetAlike(a, b, e.t, ThreadOf(Step(cfg, k0, a, e), e.t), ThreadOf(Step(cfg, k1, b, e), e.t));
  }

  lemma StepAlike(cfg: Config, k0: Kernel, k1: Kernel, a: System, b: System, e: Event)
    requires cfg.Valid() && SameButCPU(a, b)
    ensures SameButCPU(Step(cfg, k0, a, e), Step(cfg, k1, b, e))
  {
    if e.Advance? {
    } else {
      hide Step;
      hide SameButCPU;
      match e
      case Start(_, _) => StartAlike(cfg, k0, k1, a, b, e);
      case ReadInfo(_, _) => ReadInfoAlike(cfg, k0, k1, a, b, e);
      case ReadCache(_) => ReadCacheAlike(cfg, k0, k1, a, b, e);
      case Measure(_, _) => MeasureAlike(cfg, k0, k1, a, b, e);
      case ReadLast(_) => ReadLastAlike(cfg, k0, k1, a, b, e);
      case Stamp(_, _) => StampAlike(cfg, k0, k1, a, b, e);
      case Store(_) => StoreAlike(cfg, k0, k1, a, b, e);
      case Publish(_) => StoreAlike(cfg, k0, k1, a, b, e);
    }
  }

  lemma {:induction false} ExecAlike(cfg: Config, k0: Kernel, k1: Kernel, events: seq<Event>)
    requires cfg.Valid()
    ensures SameButCPU(Exec(cfg, k0, START, events), Exec(cfg, k1, START, events))
  {
    hide Step;
    if events != [] {
      var init := events[..|events| - 1];
      ExecAlike(cfg, k0, k1, init);
      StepAlike(cfg, k0, k1, Exec(cfg, k0, START, init), Exec(cfg, k1, START, init), events[|events| - 1]);
    }
  }

  // ---------- which schedules keep tick deltas from going negative ----------

  /** No process was compared with a sample measured after its own. */
  predicate ComparesInOrder(s: System) {
    forall i :: 0 <= i < |s.log| ==> s.log[i].last.readAt <= s.log[i].current.readAt
  }

  predicate TicksAdvance(s: System) {
    forall i :: 0 <= i < |s.log| ==> TickDelta(s.log[i].last.state, s.log[i].current.state) >= 0
  }

  /** A counter that moves once, at the given time. */
  function MovesAt(time: int): Kernel {
    (p, t) => if t >= time then 1 else 0
  }

  lemma InOrderAdvances(cfg: Config, k0: Kernel, kernel: Kernel, events: seq<Event>)
    requires cfg.Valid() && Counts(kernel) && ComparesInOrder(Exec(cfg, k0, START, events))
    ensures TicksAdvance(Exec(cfg, kernel, START, events))
  {
    hide Exec;
    ExecAlike(cfg, k0, kernel, events);
    TickDeltaExactly(cfg, kernel, events);
    var s0, s := Exec(cfg, k0, START, events), Exec(cfg, kernel, START, events);
    forall i | 0 <= i < |s.log|
      ensures TickDelta(s.log[i].last.state, s.log[i].current.state) >= 0
    {
      assert s.log[i] in s.log && AlikeComparisons(s0.log[i], s.log[i]);
    }
  }

  lemma OutOfOrderGoesBack(cfg: Config, k0: Kernel, events: seq<Event>, i: nat)
    requires cfg.Valid() && i < |Exec(cfg, k0, START, events).log|
    requires var c := Exec(cfg, k0, START, events).log[i]; c.last.readAt > c.current.readAt
    ensures var kernel := MovesAt(Exec(cfg, k0, START, events).log[i].last.readAt);
      Counts(kernel) && !TicksAdvance(Exec(cfg, kernel, START, events))
  {
    hide Exec;
    var s0 := Exec(cfg, k0, START, events);
    var kernel := MovesAt(s0.log[i].last.readAt);
    ExecAlike(cfg, k0, kernel, events);
    TickDeltaExactly(cfg, kernel, events);
    var s := Exec(cfg, kernel, START, events);
    assert s.log[i] in s.log && AlikeComparisons(s0.log[i], s.log[i]);
  }

  /** A run keeps all tick deltas from being negative, whatever the kernel counts, exactly when
      each of its comparisons is with a sample measured no later. Which samples those are does
      not depend on the counts. */
  lemma TicksAdvanceExactly(cfg: Config, k0: Kernel, events: seq<Event>)
    requires cfg.Valid()
    ensures (forall kernel: Kernel | Counts(kernel) :: TicksAdvance(Exec(cfg, kernel, START, events)))
      <==> ComparesInOrder(Exec(cfg, k0, START, events))
  {
    hide Exec;
    var s0 := Exec(cfg, k0, START, events);
    if ComparesInOrder(s0) {
      forall kernel: Kernel | Counts(kernel)
        ensures TicksAdvance(Exec(cfg, kernel, START, events))
      {
        InOrderAdvances(cfg, k0, kernel, events);
      }
    } else {
      var i :| 0 <= i < |s0.log| && s0.log[i].last.readAt > s0.log[i].current.readAt;
      OutOfOrderGoesBack(cfg, k0, events, i);
    }
  }

  // ---------- the condition on the calls ----------

  /** The samples a step puts into the tracked map. */
  function Writes(s: System, e: Event): Samples {
    if e.Advance? then map[]
    else
      var thread := ThreadOf(s, e.t);
      if e.Store? && thread.Finished? && thread.call.One? then
        map[thread.call.pid := Sample(thread.status, thread.readAt)]
      else if e.Publish? && thread.Ready? && thread.call.All? && thread.call.todo == [] then thread.call.procMap
      else map[]
  }

  /** The thread has measured a process and not yet looked up its last sample. */
  predicate Awaits(thread: Thread, pid: int) {
    thread.Measured? && HasPidLeft(thread.call) && PidOf(thread.call) == pid
  }

  predicate OvertakenIn(writes: Samples, thread: Thread) {
    exists p :: p in writes && Awaits(thread, p) && writes[p].readAt > thread.readAt
  }

  /** The step stores a sample measured later than one that has yet to be compared. */
  predicate Overtakes(s: System, e: Event) {
    exists t :: t in s.threads && OvertakenIn(Writes(s, e), s.threads[t])
  }

  /** No sample of a process measured after a call's own is stored between that call's
      measurement and its lookup. */
  ghost predicate Quiet(cfg: Config, kernel: Kernel, events: seq<Event>)
    requires cfg.Valid()
  {
    forall i :: 0 <= i < |events| ==> !Overtakes(Exec(cfg, kernel, START, events[..i]), events[i])
  }

  /** A measured process was measured no earlier than the tracked sample, and so were those
      compared. */
  predicate MeasuredLast(s: System, thread: Thread) {
    match thread
    case Measured(call, _, readAt) =>
      HasPidLeft(call) && PidOf(call) in s.tracked ==> s.tracked[PidOf(call)].readAt <= readAt
    case Compared(_, _, readAt, last) => last.Some? ==> last.value.readAt <= readAt
    case _ => true
  }

  predicate InOrder(s: System) {
    && (forall t :: t in s.threads ==> MeasuredLast(s, s.threads[t]))
    && ComparesInOrder(s)
  }

  lemma ThreadStaysOrdered(cfg: Config, kernel: Kernel, s: System, e: Event, t: int)
    requires cfg.Valid() && Invariant(kernel, s) && !Overtakes(s, e)
    requires t in s.threads ==> MeasuredLast(s, s.threads[t])
    ensures MeasuredLast(Step(cfg, kernel, s, e), ThreadOf(Step(cfg, kernel, s, e), t))
  {
    hide Finish;
    hide CacheCmdLine;
    hide FillPidMetrics;
    if t in s.threads {
      var writes, thread := Writes(s, e), s.threads[t];
      assert !OvertakenIn(writes, thread);
      if thread.Measured? && HasPidLeft(thread.call) {
        var p := PidOf(thread.call);
        assert Awaits(thread, p);
        assert p in writes ==> writes[p].readAt <= thread.readAt;
      }
    }
  }

  lemma LogStaysOrdered(cfg: Config, kernel: Kernel, s: System, e: Event)
    requires cfg.Valid() && InOrder(s)
    ensures ComparesInOrder(Step(cfg, kernel, s, e))
  {
    hide Finish;
    hide CacheCmdLine;
    hide FillPidMetrics;
    assert !e.Advance? ==> MeasuredLast(s, ThreadOf(s, e.t));
  }

  lemma StepKeepsOrder(cfg: Config, kernel: Kernel, s: System, e: Event)
    requires cfg.Valid() && Invariant(kernel, s) && InOrder(s) && !Overtakes(s, e)
    ensures InOrder(Step(cfg, kernel, s, e))
  {
    hide Step;
    hide Overtakes;
    hide MeasuredLast;
    hide Invariant;
    LogStaysOrdered(cfg, kernel, s, e);
    var s' := Step(cfg, kernel, s, e);
    forall t | t in s'.threads
      ensures MeasuredLast(s', s'.threads[t])
    {
      ThreadStaysOrdered(cfg, kernel, s, e, t);
    }
  }

  lemma QuietBefore(cfg: Config, kernel: Kernel, events: seq<Event>, n: nat)
    requires cfg.Valid() && Quiet(cfg, kernel, events) && n <= |events|
    ensures Quiet(cfg, kernel, events[..n])
  {
    hide Exec;
    hide Overtakes;
    var init := events[..n];
    forall i | 0 <= i < n
      ensures !Overtakes(Exec(cfg, kernel, START, init[..i]), init[i])
    {
      assert init[..i] == events[..i] && events[i] == init[i];
    }
  }

  lemma {:induction false} QuietKeepsOrder(cfg: Config, kernel: Kernel, events: seq<Event>)
    requires cfg.Valid() && Quiet(cfg, kernel, events)
    ensures InOrder(Exec(cfg, kernel, START, events))
  {
    hide Step;
    hide Overtakes;
    if events != [] {
      var n := |events| - 1;
      var init := events[..n];
      QuietBefore(cfg, kernel, events, n);
      QuietKeepsOrder(cfg, kernel, init);
      ExecKeepsInvariant(cfg, kernel, START, init);
      StepKeepsOrder(cfg, kernel, Exec(cfg, kernel, START, init), events[n]);
    }
  }

  /** The run up to a moment at which the thread goes on to compare what it measured. */
  function GoingOn(events: seq<Event>, i: nat, t: int): seq<Event>
    requires i <= |events|
  {
    events[..i] + [ReadLast(t), Stamp(t, true)]
  }

  lemma GoesOn(cfg: Config, kernel: Kernel, events: seq<Event>, i: nat, t: int)
    requires cfg.Valid() && i <= |events|
    ensures var s := Exec(cfg, kernel, START, events[..i]);
      Exec(cfg, kernel, START, GoingOn(events, i, t))
      == Step(cfg, kernel, Step(cfg, kernel, s, ReadLast(t)), Stamp(t, true))
  {
    hide Exec;
    hide Step;
    var s := Exec(cfg, kernel, START, events[..i]);
    ExecConcat(cfg, kernel, START, events[..i], [ReadLast(t), Stamp(t, true)]);
    assert [ReadLast(t), Stamp(t, true)] == [ReadLast(t)] + [Stamp(t, true)];
    ExecFirst(cfg, kernel, s, ReadLast(t), [Stamp(t, true)]);
    ExecOne(cfg, kernel, Step(cfg, kernel, s, ReadLast(t)), Stamp(t, true));
  }

  lemma QuietGoesOn(cfg: Config, kernel: Kernel, events: seq<Event>, i: nat, t: int)
    requires cfg.Valid() && i <= |events| && Quiet(cfg, kernel, events)
    ensures ComparesInOrder(Exec(cfg, kernel, START, GoingOn(events, i, t)))
  {
    hide Exec;
    hide Step;
    var s := Exec(cfg, kernel, START, events[..i]);
    QuietBefore(cfg, kernel, events, i);
    QuietKeepsOrder(cfg, kernel, events[..i]);
    ExecKeepsInvariant(cfg, kernel, START, events[..i]);
    GoesOn(cfg, kernel, events, i, t);
    StepKeepsOrder(cfg, kernel, s, ReadLast(t));
    StepKeepsInvariant(cfg, kernel, s, ReadLast(t));
    StepKeepsOrder(cfg, kernel, Step(cfg, kernel, s, ReadLast(t)), Stamp(t, true));
  }

  /** A thread that goes on compares what it measured with what is tracked. */
  lemma ComparesWithTracked(cfg: Config, kernel: Kernel, s: System, t: int, pid: int)
    requires cfg.Valid() && Awaits(ThreadOf(s, t), pid) && pid in s.tracked
    ensures var s' := Step(cfg, kernel, Step(cfg, kernel, s, ReadLast(t)), Stamp(t, true));
      && |s'.log| == |s.log| + 1
      && s'.log[|s.log|].last == s.tracked[pid] && s'.log[|s.log|].current.readAt == ThreadOf(s, t).readAt
  {
    hide Finish;
  }

  lemma OvertakenStays(cfg: Config, kernel: Kernel, s: System, e: Event, t: int, pid: int)
    requires cfg.Valid() && pid in Writes(s, e) && Awaits(ThreadOf(s, t), pid)
    ensures var s' := Step(cfg, kernel, s, e);
      ThreadOf(s', t) == ThreadOf(s, t) && pid in s'.tracked && s'.tracked[pid] == Writes(s, e)[pid]
  {
  }

  lemma OvertakenComparesOutOfOrder(cfg: Config, kernel: Kernel, events: seq<Event>, i: nat) returns (t: int)
    requires cfg.Valid() && i < |events|
    requires Overtakes(Exec(cfg, kernel, START, events[..i]), events[i])
    ensures !ComparesInOrder(Exec(cfg, kernel, START, GoingOn(events, i + 1, t)))
  {
    hide Step;
    var s := Exec(cfg, kernel, START, events[..i]);
    t :| t in s.threads && OvertakenIn(Writes(s, events[i]), s.threads[t]);
    var writes := Writes(s, events[i]);
    var pid :| pid in writes && Awaits(s.threads[t], pid) && writes[pid].readAt > s.threads[t].readAt;
    assert events[..i + 1][..i] == events[..i];
    OvertakenStays(cfg, kernel, s, events[i], t, pid);
    var s' := Exec(cfg, kernel, START, events[..i + 1]);
    GoesOn(cfg, kernel, events, i + 1, t);
    ComparesWithTracked(cfg, kernel, s', t, pid);
  }

  /** Such a schedule is exactly one in which no thread, going on at any moment, could see its
      process's ticks go back. */
  lemma QuietExactly(cfg: Config, k0: Kernel, events: seq<Event>)
    requires cfg.Valid()
    ensures Quiet(cfg, k0, events) <==>
      forall kernel: Kernel, i: nat, t | Counts(kernel) && i <= |events| ::
        TicksAdvance(Exec(cfg, kernel, START, GoingOn(events, i, t)))
  {
    hide Exec;
    hide GoingOn;
    if Quiet(cfg, k0, events) {
      forall kernel: Kernel, i: nat, t | Counts(kernel) && i <= |events|
        ensures TicksAdvance(Exec(cfg, kernel, START, GoingOn(events, i, t)))
      {
        QuietGoesOn(cfg, k0, events, i, t);
        InOrderAdvances(cfg, k0, kernel, GoingOn(events, i, t));
      }
    } else {
      var i :| 0 <= i < |events| && Overtakes(Exec(cfg, k0, START, events[..i]), events[i]);
      var t := OvertakenComparesOutOfOrder(cfg, k0, events, i);
      TicksAdvanceExactly(cfg, k0, GoingOn(events, i + 1, t));
    }
  }

  /** And what such a run has compared never shows fewer ticks. */
  lemma QuietTicksAdvance(cfg: Config, kernel: Kernel, events: seq<Event>)
    requires cfg.Valid() && Counts(kernel) && Quiet(cfg, kernel, events)
    ensures TicksAdvance(Exec(cfg, kernel, START, events))
  {
    hide Exec;
    QuietKeepsOrder(cfg, kernel, events);
    InOrderAdvances(cfg, kernel, kernel, events);
  }

  // ---------- calls that share no process ----------

  /** The thread is in a call that fills the pid, or has filled it. */
  predicate Concerns(thread: Thread, pid: int) {
    !thread.AtRest? &&
    match thread.call
    case One(p) => p == pid
    case All(todo, procMap) => pid in todo || pid in procMap
  }

  /** No process concerns two threads. */
  ghost predicate Apart(s: System) {
    forall t0, t1, p :: t0 in s.threads && t1 in s.threads && t0 != t1 && Concerns(s.threads[t0], p) ==>
      !Concerns(s.threads[t1], p)
  }

  /** No process of the starting call concerns another thread. */
  ghost predicate StartsApart(s: System, e: Event) {
    e.Start? ==> forall t, p :: t in s.threads && t != e.t && Concerns(s.threads[t], p) ==> !Concerns(Ready(e.call), p)
  }

  /** Every call starts when none of its processes concerns a call under way. */
  ghost predicate Disjoint(cfg: Config, kernel: Kernel, events: seq<Event>)
    requires cfg.Valid()
  {
    forall i :: 0 <= i < |events| ==> StartsApart(Exec(cfg, kernel, START, events[..i]), events[i])
  }

  lemma ThreadKeepsConcerns(cfg: Config, kernel: Kernel, s: System, e: Event, t: int, p: int)
    requires cfg.Valid() && Concerns(ThreadOf(Step(cfg, kernel, s, e), t), p)
    ensures (t in s.threads && Concerns(s.threads[t], p)) || (e.Start? && e.t == t && Concerns(Ready(e.call), p))
  {
    hide Finish;
    hide CacheCmdLine;
    hide FillPidMetrics;
  }

  lemma StepStaysApart(cfg: Config, kernel: Kernel, s: System, e: Event)
    requires cfg.Valid() && Apart(s) && StartsApart(s, e)
    ensures Apart(Step(cfg, kernel, s, e))
  {
    hide Step;
    hide Concerns;
    var s' := Step(cfg, kernel, s, e);
    forall t0, t1, p | t0 in s'.threads && t1 in s'.threads && t0 != t1 && Concerns(s'.threads[t0], p)
      ensures !Concerns(s'.threads[t1], p)
    {
      ThreadKeepsConcerns(cfg, kernel, s, e, t0, p);
      if Concerns(s'.threads[t1], p) {
        ThreadKeepsConcerns(cfg, kernel, s, e, t1, p);
      }
    }
  }

  /** A step writes only samples of its own thread's processes. */
  lemma WritesConcern(s: System, e: Event, p: int)
    requires p in Writes(s, e)
    ensures !e.Advance? && e.t in s.threads && Concerns(s.threads[e.t], p) && !s.threads[e.t].Measured?
  {
  }

  lemma ApartIsQuiet(s: System, e: Event)
    requires Apart(s)
    ensures !Overtakes(s, e)
  {
    if Overtakes(s, e) {
      var t :| t in s.threads && OvertakenIn(Writes(s, e), s.threads[t]);
      var p :| p in Writes(s, e) && Awaits(s.threads[t], p);
      assert Concerns(s.threads[t], p);
      WritesConcern(s, e, p);
    }
  }

  lemma {:induction false} DisjointStaysApart(cfg: Config, kernel: Kernel, events: seq<Event>, n: nat)
    requires cfg.Valid() && Disjoint(cfg, kernel, events) && n <= |events|
    ensures Apart(Exec(cfg, kernel, START, events[..n]))
  {
    hide Step;
    hide StartsApart;
    if n > 0 {
      assert events[..n][..n - 1] == events[..n - 1];
      DisjointStaysApart(cfg, kernel, events, n - 1);
      StepStaysApart(cfg, kernel, Exec(cfg, kernel, START, events[..n - 1]), events[n - 1]);
    }
  }

  /** Calls that overlap only when they share no process never overtake each other. */
  lemma DisjointIsQuiet(cfg: Config, kernel: Kernel, events: seq<Event>)
    requires cfg.Valid() && Disjoint(cfg, kernel, events)
    ensures Quiet(cfg, kernel, events)
  {
    hide Exec;
    hide Disjoint;
    forall i | 0 <= i < |events|
      ensures !Overtakes(Exec(cfg, kernel, START, events[..i]), events[i])
    {
      DisjointStaysApart(cfg, kernel, events, i);
      ApartIsQuiet(Exec(cfg, kernel, START, events[..i]), events[i]);
    }
  }

  predicate AllAtRest(s: System) {
    forall t :: t in s.threads ==> s.threads[t].AtRest?
  }

  /** Every call of the run starts when no other is under way. */
  ghost predicate Sequential(cfg: Config, kernel: Kernel, events: seq<Event>)
    requires cfg.Valid()
  {
    forall i :: 0 <= i < |events| && events[i].Start? ==> AllAtRest(Exec(cfg, kernel, START, events[..i]))
  }

  /** When calls do not overlap, tick deltas are never negative either. */
  lemma SequentialTicksNeverNegative(cfg: Config, kernel: Kernel, events: seq<Event>)
    requires cfg.Valid() && Counts(kernel) && Sequential(cfg, kernel, events)
    ensures TicksAdvance(Exec(cfg, kernel, START, events))
  {
    hide Exec;
    DisjointIsQuiet(cfg, kernel, events);
    QuietTicksAdvance(cfg, kernel, events);
  }

  // ---------- an overlap that goes wrong ----------

  const PLAIN_READING := Reading(
    Ok(Info("beat", Running, 1, 1)), Ok(0), Ok(CPUTime(0, 0, 0, 0)), Ok([]), None, true, true, true, true)

  const TEN_MS: nat := 10_000_000

  function LateTicks(pid: int, time: int): uint64 {
    if time >= TEN_MS then 10 else 0
  }

  const BOTH_START: seq<Event> := [Start(1, One(7)), Start(2, One(7))]

  const BOTH_READY: System := SetThread(SetThread(START, 1, Ready(One(7))), 2, Ready(One(7)))

  lemma BothStart(cfg: Config, kernel: Kernel)
    requires cfg.Valid()
    ensures Exec(cfg, kernel, START, BOTH_START) == BOTH_READY
  {
    hide Exec;
    assert BOTH_START == [BOTH_START[0]] + [BOTH_START[1]];
    ExecFirst(cfg, kernel, START, BOTH_START[0], [BOTH_START[1]]);
    ExecOne(cfg, kernel, Step(cfg, kernel, START, BOTH_START[0]), BOTH_START[1]);
  }

  /** One call measures a process; a second one runs from start to end ten milliseconds later;
      then the first goes on. */
  const OVERLAP: seq<Event> :=
    BOTH_START + (BeforeLast(1, PLAIN_READING)
    + ([Advance(TEN_MS)] + (FillSteps(2, PLAIN_READING)
    + ([Advance(TEN_MS)] + FromLast(1, PLAIN_READING)))))

  /** Time passed from the compared sample to the new one, but its ticks are fewer. */
  predicate TicksGoBack(c: Comparison) {
    ElapsedMs(c.last.state, c.current.state) > 0 && TickDelta(c.last.state, c.current.state) < 0
  }

  /** Whatever the configuration, that run compares the first call's older ticks with the second
      call's newer ones, over an interval of positive length. */
  lemma OverlapGivesNegativeTicks(cfg: Config)
    requires cfg.Valid()
    ensures Counts(LateTicks)
    ensures exists c :: c in Exec(cfg, LateTicks, START, OVERLAP).log && TicksGoBack(c)
  {
    hide Exec;
    hide Finish;
    hide BeforeLast;
    hide FromLast;
    var s0 := BOTH_READY;
    var s1 := Exec(cfg, LateTicks, s0, BeforeLast(1, PLAIN_READING));
    SoloMeasures(cfg, LateTicks, s0, 1, One(7), PLAIN_READING);
    var s2 := Step(cfg, LateTicks, s1, Advance(TEN_MS));
    var s3 := Exec(cfg, LateTicks, s2, BeforeLast(2, PLAIN_READING));
    SoloMeasures(cfg, LateTicks, s2, 2, One(7), PLAIN_READING);
    var s4 := Exec(cfg, LateTicks, s3, FromLast(2, PLAIN_READING));
    SoloStores(cfg, LateTicks, s3, 2, PLAIN_READING);
    var s5 := Step(cfg, LateTicks, s4, Advance(TEN_MS));
    var s6 := Exec(cfg, LateTicks, s5, FromLast(1, PLAIN_READING));
    SoloStores(cfg, LateTicks, s5, 1, PLAIN_READING);
    OverlapSteps(cfg, s0, s1, s2, s3, s4, s5);
    var t1, t2 := ThreadOf(s1, 1), ThreadOf(s3, 2);
    assert t1.Measured? && t1.status.cpu.total.ticks == Some(0);
    assert t2.Measured? && t2.status.cpu.total.ticks == Some(10);
    TrackerRuns.FinishFacts(cfg, t2.status, None, TEN_MS);
    TrackerRuns.FinishFacts(cfg, t1.status, Some(s4.tracked[7].state), 2 * TEN_MS);
    var c := s6.log[|s6.log| - 1];
    assert c in s6.log;
    assert c.last.state.sampleTime == TEN_MS && c.current.state.sampleTime == 2 * TEN_MS;
  }

  lemma OverlapSteps(cfg: Config, s0: System, s1: System, s2: System, s3: System, s4: System, s5: System)
    requires cfg.Valid()
    requires s0 == BOTH_READY
    requires s1 == Exec(cfg, LateTicks, s0, BeforeLast(1, PLAIN_READING))
    requires s2 == Step(cfg, LateTicks, s1, Advance(TEN_MS))
    requires s3 == Exec(cfg, LateTicks, s2, BeforeLast(2, PLAIN_READING))
    requires s4 == Exec(cfg, LateTicks, s3, FromLast(2, PLAIN_READING))
    requires s5 == Step(cfg, LateTicks, s4, Advance(TEN_MS))
    ensures Exec(cfg, LateTicks, START, OVERLAP) == Exec(cfg, LateTicks, s5, FromLast(1, PLAIN_READING))
  {
    hide Exec;
    hide BeforeLast;
    hide FromLast;
    var e4 := [Advance(TEN_MS)] + FromLast(1, PLAIN_READING);
    var e3 := FillSteps(2, PLAIN_READING) + e4;
    var e2 := [Advance(TEN_MS)] + e3;
    ExecConcat(cfg, LateTicks, START, BOTH_START, BeforeLast(1, PLAIN_READING) + e2);
    BothStart(cfg, LateTicks);
    ExecConcat(cfg, LateTicks, s0, BeforeLast(1, PLAIN_READING), e2);
    ExecFirst(cfg, LateTicks, s1, Advance(TEN_MS), e3);
    ExecConcat(cfg, LateTicks, s2, FillSteps(2, PLAIN_READING), e4);
    ExecConcat(cfg, LateTicks, s2, BeforeLast(2, PLAIN_READING), FromLast(2, PLAIN_READING));
    ExecFirst(cfg, LateTicks, s4, Advance(TEN_MS), FromLast(1, PLAIN_READING));
  }
}
