/** The percentages concurrent calls publish: each is computed from one logged comparison. */
module PublishedPct {
  import opened CallEnds
  import opened CpuPercent
  import opened GoNumbers
  import opened Interleaving
  import opened ProcessState
  import opened TickOrder
  import opened Tracker
  import TrackerRuns
  import opened Wrappers

  predicate Unpriced(status: ProcState) {
    Blank(status) == status
  }

  ghost predicate Logged(log: seq<Comparison>, pid: int, sample: Sample) {
    exists last :: Comparison(pid, last, sample) in log
  }

  /** A sample has no percentages, or is the current one of a logged comparison. */
  ghost predicate Explained(log: seq<Comparison>, pid: int, sample: Sample) {
    Unpriced(sample.state) || Logged(log, pid, sample)
  }

  ghost predicate AllExplained(log: seq<Comparison>, samples: Samples) {
    forall p :: p in samples ==> Explained(log, p, samples[p])
  }

  /** The current sample of a comparison carries the percentages computed against its last one. */
  predicate Priced(cfg: Config, c: Comparison)
    requires cfg.Valid()
  {
    c.current.state == GetProcCPUPercentage(c.last.state, Blank(c.current.state), cfg.numCPU)
  }

  ghost predicate ThreadExplained(log: seq<Comparison>, thread: Thread) {
    && AllExplained(log, Holds(thread))
    && (thread.Measured? || thread.Compared? ==> Unpriced(thread.status))
  }

  ghost predicate PricedSystem(cfg: Config, s: System)
    requires cfg.Valid()
  {
    && AllExplained(s.log, s.tracked)
    && (forall t :: t in s.threads ==> ThreadExplained(s.log, s.threads[t]))
    && (forall c :: c in s.log ==> Priced(cfg, c))
  }

  lemma LongerLogExplains(log: seq<Comparison>, c: Comparison, samples: Samples)
    requires AllExplained(log, samples)
    ensures AllExplained(log + [c], samples)
  {
    forall p | p in samples
      ensures Explained(log + [c], p, samples[p])
    {
      if last :| Comparison(p, last, samples[p]) in log {
        assert Comparison(p, last, samples[p]) in log + [c];
      }
    }
  }

  lemma FinishPriced(cfg: Config, status: ProcState, last: Option<ProcState>, now: int)
    requires cfg.Valid() && Unpriced(status)
    ensures var r := Finish(cfg, status, last, now);
      if last.None? then Unpriced(r) else r == GetProcCPUPercentage(last.value, Blank(r), cfg.numCPU)
  {
    hide Rounding.Round;
  }

  lemma MetricsUnpriced(cfg: Config, status: ProcState, reading: Reading)
    requires FillPidMetrics(cfg, status, reading).Ok?
    ensures Unpriced(JoinCmdline(FillPidMetrics(cfg, status, reading).value))
  {
  }

  lemma StampStaysPriced(cfg: Config, kernel: Kernel, s: System, e: Event)
    requires cfg.Valid() && PricedSystem(cfg, s) && e.Stamp?
    ensures PricedSystem(cfg, Step(cfg, kernel, s, e))
  {
    hide Finish;
    hide Unpriced;
    hide Holds;
    hide Priced;
    hide AllExplained;
    var s' := Step(cfg, kernel, s, e);
    var thread := ThreadOf(s, e.t);
    if thread.Compared? && HasPidLeft(thread.call) {
      StampedIsExplained(cfg, kernel, s, e);
      if |s'.log| > |s.log| {
        var c := s'.log[|s.log|];
        LongerLogExplains(s.log, c, s.tracked);
        forall t | t in s.threads
          ensures AllExplained(s'.log, Holds(s.threads[t]))
        {
          LongerLogExplains(s.log, c, Holds(s.threads[t]));
        }
      }
    }
  }

  /** The stamped sample is unpriced, or logged and priced. */
  lemma StampedIsExplained(cfg: Config, kernel: Kernel, s: System, e: Event)
    requires cfg.Valid() && PricedSystem(cfg, s) && e.Stamp?
    requires ThreadOf(s, e.t).Compared? && HasPidLeft(ThreadOf(s, e.t).call)
    ensures var s' := Step(cfg, kernel, s, e);
      && ThreadExplained(s'.log, ThreadOf(s', e.t))
      && (s'.log == s.log || exists c :: s'.log == s.log + [c] && Priced(cfg, c))
  {
    hide Finish;
    hide Blank;
    hide GetProcCPUPercentage;
    var s' := Step(cfg, kernel, s, e);
    var thread := ThreadOf(s, e.t);
    assert ThreadExplained(s.log, thread);
    FinishPriced(cfg, thread.status, SampleState(thread.last), s.clock);
    if |s'.log| > |s.log| {
      var c := s'.log[|s.log|];
      LongerLogExplains(s.log, c, Holds(thread));
      assert c in s'.log && c == Comparison(c.pid, c.last, c.current);
      assert s'.log == s.log + [c] && Priced(cfg, c);
    }
  }

  /** Only a stamp adds samples; the others pass on what their own call held. */
  lemma OtherAddsNone(cfg: Config, kernel: Kernel, s: System, e: Event, p: int)
    requires cfg.Valid() && !e.Stamp? && !e.Advance?
    ensures var s' := Step(cfg, kernel, s, e);
      var held, held' := Holds(ThreadOf(s, e.t)), Holds(ThreadOf(s', e.t));
      && s'.log == s.log
      && (p in held' ==> p in held && held'[p] == held[p])
      && (p in s'.tracked ==>
            (p in held && s'.tracked[p] == held[p]) || (p in s.tracked && s'.tracked[p] == s.tracked[p]))
  {
    hide CacheCmdLine;
    hide FillPidMetrics;
    hide JoinCmdline;
  }

  lemma OtherStaysUnpriced(cfg: Config, kernel: Kernel, s: System, e: Event)
    requires cfg.Valid() && !e.Stamp? && !e.Advance? && ThreadExplained(s.log, ThreadOf(s, e.t))
    ensures var thread := ThreadOf(Step(cfg, kernel, s, e), e.t);
      thread.Measured? || thread.Compared? ==> Unpriced(thread.status)
  {
    hide CacheCmdLine;
    hide FillPidMetrics;
    hide JoinCmdline;
    hide AllExplained;
    hide Blank;
    var thread := ThreadOf(s, e.t);
    if e.Measure? && thread.Cached? && HasPidLeft(thread.call) {
      var reading := AsCounted(kernel, PidOf(thread.call), s.clock, e.reading);
      if FillPidMetrics(cfg, thread.status, reading).Ok? {
        MetricsUnpriced(cfg, thread.status, reading);
      }
    }
  }

  lemma OtherThreadsStay(cfg: Config, kernel: Kernel, s: System, e: Event, t: int)
    requires cfg.Valid() && (e.Advance? || e.t != t)
    ensures var s' := Step(cfg, kernel, s, e);
      (t in s'.threads <==> t in s.threads) && ThreadOf(s', t) == ThreadOf(s, t)
  {
    hide CacheCmdLine;
    hide FillPidMetrics;
    hide JoinCmdline;
    hide Finish;
  }

  lemma OtherStaysPriced(cfg: Config, kernel: Kernel, s: System, e: Event)
    requires cfg.Valid() && PricedSystem(cfg, s) && !e.Stamp? && !e.Advance?
    ensures PricedSystem(cfg, Step(cfg, kernel, s, e))
  {
    hide Step;
    hide Holds;
    hide Priced;
    hide Explained;
    hide Unpriced;
    var s' := Step(cfg, kernel, s, e);
    assert ThreadExplained(s.log, ThreadOf(s, e.t)) by {
      NothingHeld(s.log);
    }
    OtherStaysUnpriced(cfg, kernel, s, e);
    forall p
      ensures p in s'.tracked ==> Explained(s'.log, p, s'.tracked[p])
      ensures p in Holds(ThreadOf(s', e.t)) ==> Explained(s'.log, p, Holds(ThreadOf(s', e.t))[p])
    {
      OtherAddsNone(cfg, kernel, s, e, p);
    }
    OtherAddsNone(cfg, kernel, s, e, 0);
    forall t | t in s'.threads
      ensures ThreadExplained(s'.log, s'.threads[t])
    {
      if t != e.t {
        OtherThreadsStay(cfg, kernel, s, e, t);
      }
    }
  }

  lemma NothingHeld(log: seq<Comparison>)
    ensures ThreadExplained(log, AtRest)
  {
  }

  lemma TimePasses(cfg: Config, kernel: Kernel, s: System, e: Event)
    requires cfg.Valid() && e.Advance?
    ensures Step(cfg, kernel, s, e) == s.(clock := s.clock + e.elapsed)
  {
  }

  lemma {:induction false} RunIsPriced(cfg: Config, kernel: Kernel, events: seq<Event>)
    requires cfg.Valid()
    ensures PricedSystem(cfg, Exec(cfg, kernel, START, events))
  {
    hide Step;
    if events != [] {
      var init, e := events[..|events| - 1], events[|events| - 1];
      RunIsPriced(cfg, kernel, init);
      if e.Stamp? {
        StampStaysPriced(cfg, kernel, Exec(cfg, kernel, START, init), e);
      } else if e.Advance? {
        TimePasses(cfg, kernel, Exec(cfg, kernel, START, init), e);
      } else {
        OtherStaysPriced(cfg, kernel, Exec(cfg, kernel, START, init), e);
      }
    }
  }

  // ---------- what is published ----------

  /** In every interleaving the percentages of a compared sample are the kernel's count when it
      was measured less the count when the other was, over the milliseconds between their stamps. */
  lemma PublishedExactly(cfg: Config, kernel: Kernel, events: seq<Event>)
    requires cfg.Valid() && Counts(kernel)
    ensures forall c :: c in Exec(cfg, kernel, START, events).log ==>
      && c.last.state.sampleTime <= c.current.state.sampleTime
      && PercentagesOf(c.current.state.cpu.total, kernel(c.pid, c.current.readAt) - kernel(c.pid, c.last.readAt),
                       c.current.state.sampleTime - c.last.state.sampleTime, cfg.numCPU)
  {
    hide Exec;
    hide PercentagesOf;
    ExecKeepsInvariant(cfg, kernel, START, events);
    RunIsPriced(cfg, kernel, events);
    var s := Exec(cfg, kernel, START, events);
    forall c | c in s.log
      ensures c.last.state.sampleTime <= c.current.state.sampleTime
      ensures PercentagesOf(c.current.state.cpu.total, kernel(c.pid, c.current.readAt) - kernel(c.pid, c.last.readAt),
                            c.current.state.sampleTime - c.last.state.sampleTime, cfg.numCPU)
    {
      var i :| 0 <= i < |s.log| && s.log[i] == c;
      assert ComparisonOk(kernel, s.clock, s.log[i]) && Priced(cfg, c);
      hide GetProcCPUPercentage;
      PercentagesFromTicks(c.last.state, c.current.state, cfg.numCPU);
    }
  }

  /** And no other sample has percentages: those tracked, and those a call is still to store, are
      the current sample of a logged comparison or have none. */
  lemma EveryPercentageIsLogged(cfg: Config, kernel: Kernel, events: seq<Event>)
    requires cfg.Valid()
    ensures var s := Exec(cfg, kernel, START, events);
      && AllExplained(s.log, s.tracked)
      && forall t :: t in s.threads ==> AllExplained(s.log, Holds(s.threads[t]))
  {
    hide Exec;
    RunIsPriced(cfg, kernel, events);
  }

  // ---------- negative percentages ----------

  function PctOf(sample: Sample): real {
    sample.state.cpu.total.pct.GetOr(0.0)
  }

  predicate NoNegativePct(s: System) {
    forall i :: 0 <= i < |s.log| ==> PctOf(s.log[i].current) >= 0.0
  }

  /** A whole millisecond lies between the two stamps, so that percentages are published. */
  predicate Apart1ms(c: Comparison) {
    c.current.state.sampleTime - c.last.state.sampleTime >= 1_000_000
  }

  /** Every comparison over a whole millisecond is with a sample measured no later. */
  predicate PricesInOrder(s: System) {
    forall i :: 0 <= i < |s.log| && Apart1ms(s.log[i]) ==> s.log[i].last.readAt <= s.log[i].current.readAt
  }

  /** The sign of a percentage is that of its ticks. */
  lemma PctSign(total: CPUTotal, used: int, elapsedNs: int, numCPU: int)
    requires elapsedNs >= 0 && numCPU > 0 && PercentagesOf(total, used, elapsedNs, numCPU)
    ensures total.pct.GetOr(0.0) >= 0.0 <==> used >= 0 || elapsedNs < 1_000_000
  {
    hide Rounding.Round;
    var ms := elapsedNs / 1_000_000;
    if ms > 0 {
      QuotientSign(used as real, ms as real);
      RoundedSign(used as real / ms as real);
    }
  }

  lemma QuotientSign(n: real, d: real)
    requires d > 0.0
    ensures n >= 0.0 <==> n / d >= 0.0
  {
  }

  lemma RoundedSign(x: real)
    ensures x >= 0.0 <==> Rounding.Round(x) >= 0.0
  {
    hide Rounding.Round;
    if x >= 0.0 {
      Rounding.RoundNear(x);
    } else {
      Rounding.RoundNegative(x);
    }
  }

  lemma LoggedPctSign(cfg: Config, kernel: Kernel, events: seq<Event>, i: nat)
    requires cfg.Valid() && Counts(kernel) && i < |Exec(cfg, kernel, START, events).log|
    ensures var c := Exec(cfg, kernel, START, events).log[i];
      PctOf(c.current) < 0.0 <==> Apart1ms(c) && kernel(c.pid, c.current.readAt) < kernel(c.pid, c.last.readAt)
  {
    hide Exec;
    PublishedExactly(cfg, kernel, events);
    var log := Exec(cfg, kernel, START, events).log;
    var c := log[i];
    assert c in log;
    PctSign(c.current.state.cpu.total, kernel(c.pid, c.current.readAt) - kernel(c.pid, c.last.readAt),
            c.current.state.sampleTime - c.last.state.sampleTime, cfg.numCPU);
  }

  /** A schedule publishes no negative percentage, whatever the kernel counts, exactly when each
      comparison over a whole millisecond is with a sample measured no later. */
  lemma PercentagesAdvanceExactly(cfg: Config, k0: Kernel, events: seq<Event>)
    requires cfg.Valid()
    ensures (forall kernel: Kernel | Counts(kernel) :: NoNegativePct(Exec(cfg, kernel, START, events)))
      <==> PricesInOrder(Exec(cfg, k0, START, events))
  {
    hide Exec;
    hide PctOf;
    var s0 := Exec(cfg, k0, START, events);
    if PricesInOrder(s0) {
      forall kernel: Kernel | Counts(kernel)
        ensures NoNegativePct(Exec(cfg, kernel, START, events))
      {
        ExecAlike(cfg, k0, kernel, events);
        var s := Exec(cfg, kernel, START, events);
        forall i | 0 <= i < |s.log|
          ensures PctOf(s.log[i].current) >= 0.0
        {
          assert AlikeComparisons(s0.log[i], s.log[i]);
          LoggedPctSign(cfg, kernel, events, i);
        }
      }
    } else {
      var i :| 0 <= i < |s0.log| && Apart1ms(s0.log[i]) && s0.log[i].last.readAt > s0.log[i].current.readAt;
      var kernel := MovesAt(s0.log[i].last.readAt);
      ExecAlike(cfg, k0, kernel, events);
      var s := Exec(cfg, kernel, START, events);
      assert AlikeComparisons(s0.log[i], s.log[i]);
      LoggedPctSign(cfg, kernel, events, i);
      assert Counts(kernel) && PctOf(s.log[i].current) < 0.0;
    }
  }

  /** When no later-measured sample is stored between a call's measurement and its lookup, no
      sample that is tracked, or still to be stored, has a negative percentage. */
  lemma QuietPublishesNoNegative(cfg: Config, kernel: Kernel, events: seq<Event>)
    requires cfg.Valid() && Counts(kernel) && Quiet(cfg, kernel, events)
    ensures var s := Exec(cfg, kernel, START, events);
      && (forall p :: p in s.tracked ==> PctOf(s.tracked[p]) >= 0.0)
      && (forall t, p :: t in s.threads && p in Holds(s.threads[t]) ==> PctOf(Holds(s.threads[t])[p]) >= 0.0)
  {
    hide Exec;
    hide Holds;
    EveryPercentageIsLogged(cfg, kernel, events);
    QuietKeepsOrder(cfg, kernel, events);
    var s := Exec(cfg, kernel, START, events);
    forall p, sample | Explained(s.log, p, sample)
      ensures PctOf(sample) >= 0.0
    {
      if last :| Comparison(p, last, sample) in s.log {
        var i :| 0 <= i < |s.log| && s.log[i] == Comparison(p, last, sample);
        LoggedPctSign(cfg, kernel, events, i);
      }
    }
  }

  /** The overlap of two calls publishes a negative percentage under every configuration. */
  lemma OverlapPublishesNegative(cfg: Config)
    requires cfg.Valid()
    ensures Counts(LateTicks) && !NoNegativePct(Exec(cfg, LateTicks, START, OVERLAP))
  {
    hide Exec;
    hide PctOf;
    hide LateTicks;
    OverlapGivesNegativeTicks(cfg);
    TickDeltaExactly(cfg, LateTicks, OVERLAP);
    var log := Exec(cfg, LateTicks, START, OVERLAP).log;
    var c :| c in log && TicksGoBack(c);
    var i :| 0 <= i < |log| && log[i] == c;
    LoggedPctSign(cfg, LateTicks, OVERLAP, i);
  }

  // ---------- where the compared samples come from ----------

  ghost predicate EverTracked(cfg: Config, kernel: Kernel, events: seq<Event>, pid: int, sample: Sample)
    requires cfg.Valid()
  {
    exists i :: 0 <= i <= |events| && TrackedAt(cfg, kernel, events[..i], pid, sample)
  }

  ghost predicate TrackedAt(cfg: Config, kernel: Kernel, events: seq<Event>, pid: int, sample: Sample)
    requires cfg.Valid()
  {
    var tracked := Exec(cfg, kernel, START, events).tracked;
    pid in tracked && tracked[pid] == sample
  }

  ghost predicate Sourced(cfg: Config, kernel: Kernel, events: seq<Event>, thread: Thread)
    requires cfg.Valid()
  {
    thread.Compared? && HasPidLeft(thread.call) && thread.last.Some? ==>
      EverTracked(cfg, kernel, events, PidOf(thread.call), thread.last.value)
  }

  ghost predicate AllSourced(cfg: Config, kernel: Kernel, events: seq<Event>, s: System)
    requires cfg.Valid()
  {
    forall t :: t in s.threads ==> Sourced(cfg, kernel, events, s.threads[t])
  }

  lemma LongerRun(cfg: Config, kernel: Kernel, events: seq<Event>, pid: int, sample: Sample)
    requires cfg.Valid() && events != [] && EverTracked(cfg, kernel, events[..|events| - 1], pid, sample)
    ensures EverTracked(cfg, kernel, events, pid, sample)
  {
    hide TrackedAt;
    var init := events[..|events| - 1];
    var i :| 0 <= i <= |init| && TrackedAt(cfg, kernel, init[..i], pid, sample);
    assert init[..i] == events[..i];
  }

  /** The sample a fill is compared with was the tracked one of its process at some moment. */
  lemma {:induction false} ComparedWereTracked(cfg: Config, kernel: Kernel, events: seq<Event>)
    requires cfg.Valid()
    ensures forall c :: c in Exec(cfg, kernel, START, events).log ==> EverTracked(cfg, kernel, events, c.pid, c.last)
    ensures AllSourced(cfg, kernel, events, Exec(cfg, kernel, START, events))
  {
    hide Step;
    hide EverTracked;
    if events != [] {
      var n := |events| - 1;
      var init := events[..n];
      var s, s' := Exec(cfg, kernel, START, init), Exec(cfg, kernel, START, events);
      assert s' == Step(cfg, kernel, s, events[n]);
      hide Exec;
      ComparedWereTracked(cfg, kernel, init);
      forall c | c in s'.log
        ensures EverTracked(cfg, kernel, events, c.pid, c.last)
      {
        NewComparison(cfg, kernel, s, events[n], c);
        LongerRun(cfg, kernel, events, c.pid, c.last);
      }
      forall t | t in s'.threads
        ensures Sourced(cfg, kernel, events, s'.threads[t])
      {
        var thread := s'.threads[t];
        if thread.Compared? && HasPidLeft(thread.call) && thread.last.Some? {
          var pid, sample := PidOf(thread.call), thread.last.value;
          NewLookup(cfg, kernel, s, events[n], t);
          if t in s.threads && s.threads[t] == thread {
            assert Sourced(cfg, kernel, init, s.threads[t]);
            LongerRun(cfg, kernel, events, pid, sample);
          } else {
            assert events[..n] == init && TrackedAt(cfg, kernel, events[..n], pid, sample);
            NowTracked(cfg, kernel, events, n, pid, sample);
          }
        }
      }
    }
  }

  lemma NowTracked(cfg: Config, kernel: Kernel, events: seq<Event>, n: nat, pid: int, sample: Sample)
    requires cfg.Valid() && n <= |events| && TrackedAt(cfg, kernel, events[..n], pid, sample)
    ensures EverTracked(cfg, kernel, events, pid, sample)
  {
  }

  lemma NewComparison(cfg: Config, kernel: Kernel, s: System, e: Event, c: Comparison)
    requires cfg.Valid() && c in Step(cfg, kernel, s, e).log
    ensures c in s.log || (
      && !e.Advance? && e.t in s.threads && s.threads[e.t].Compared? && HasPidLeft(s.threads[e.t].call)
      && PidOf(s.threads[e.t].call) == c.pid && s.threads[e.t].last == Some(c.last))
  {
    hide Finish;
  }

  lemma NewLookup(cfg: Config, kernel: Kernel, s: System, e: Event, t: int)
    requires cfg.Valid() && ThreadOf(Step(cfg, kernel, s, e), t).Compared?
    requires HasPidLeft(ThreadOf(Step(cfg, kernel, s, e), t).call)
    ensures var thread := ThreadOf(Step(cfg, kernel, s, e), t);
      || (t in s.threads && s.threads[t] == thread)
      || thread.last == RememberedSample(s.tracked, PidOf(thread.call))
  {
    hide Finish;
    hide CacheCmdLine;
    hide FillPidMetrics;
  }
}
