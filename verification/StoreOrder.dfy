/** What overlapping calls may do to the tracked samples: put an older one over a newer one, or
    replace cached arguments; and the schedules under which they do not. */
module StoreOrder {
  import opened CallEnds
  import opened Interleaving
  import opened SoloCalls
  import opened TickOrder
  import opened Tracker
  import opened Wrappers

  // ---------- the time of the tracked sample ----------

  predicate OutdatedBy(writes: Samples, held: Samples) {
    exists p :: p in writes && p in held && writes[p].state.sampleTime > held[p].state.sampleTime
  }

  /** The step stores a sample stamped later than one another call has yet to store. */
  predicate Outdates(s: System, e: Event) {
    !e.Advance? && exists t :: t in s.threads && t != e.t && OutdatedBy(Writes(s, e), Holds(s.threads[t]))
  }

  /** Samples of a process are stored in the order they are stamped. */
  ghost predicate Timely(cfg: Config, kernel: Kernel, events: seq<Event>)
    requires cfg.Valid()
  {
    forall i :: 0 <= i < |events| ==> !Outdates(Exec(cfg, kernel, START, events[..i]), events[i])
  }

  predicate UpToDate(tracked: Samples, held: Samples) {
    forall p :: p in held && p in tracked ==> tracked[p].state.sampleTime <= held[p].state.sampleTime
  }

  /** No call has yet to store a sample older than the tracked one. */
  predicate NothingStale(s: System) {
    forall t :: t in s.threads ==> UpToDate(s.tracked, Holds(s.threads[t]))
  }

  /** The tracked sample of a process was not replaced by an older one. */
  predicate Forward(before: Samples, after: Samples) {
    forall p :: p in before && p in after ==> before[p].state.sampleTime <= after[p].state.sampleTime
  }

  /** Every held sample was held before the step, by a call that does not store now, or is
      stamped now. */
  lemma HoldsAfter(cfg: Config, kernel: Kernel, s: System, e: Event, t: int, p: int)
    requires cfg.Valid() && p in Holds(ThreadOf(Step(cfg, kernel, s, e), t))
    ensures var s' := Step(cfg, kernel, s, e);
      var held := Holds(ThreadOf(s', t));
      || (t in s.threads && p in Holds(s.threads[t]) && held[p] == Holds(s.threads[t])[p])
      || held[p].state.sampleTime == s'.clock
    ensures e.Advance? || e.t != t || Writes(s, e) == map[]
  {
    hide CacheCmdLine;
    hide FillPidMetrics;
    hide Finish;
    if e.Stamp? && ThreadOf(s, t).Compared? {
      var thread := ThreadOf(s, t);
      TrackerRuns.FinishFacts(cfg, thread.status, SampleState(thread.last), s.clock);
    }
  }

  lemma TrackedAfter(cfg: Config, kernel: Kernel, s: System, e: Event, p: int)
    requires cfg.Valid() && p in Step(cfg, kernel, s, e).tracked
    ensures var s' := Step(cfg, kernel, s, e);
      if p in Writes(s, e) then s'.tracked[p] == Writes(s, e)[p]
      else p in s.tracked && s'.tracked[p] == s.tracked[p]
  {
    hide CacheCmdLine;
    hide FillPidMetrics;
    hide Finish;
  }

  /** What a step writes, its own call held. */
  lemma WritesWereHeld(s: System, e: Event, p: int)
    requires p in Writes(s, e)
    ensures !e.Advance? && e.t in s.threads && p in Holds(s.threads[e.t])
    ensures Writes(s, e)[p] == Holds(s.threads[e.t])[p]
  {
  }

  lemma StepLeavesNothingStale(cfg: Config, kernel: Kernel, s: System, e: Event)
    requires cfg.Valid() && Invariant(kernel, s) && NothingStale(s) && !Outdates(s, e)
    ensures NothingStale(Step(cfg, kernel, s, e))
  {
    hide Step;
    hide Writes;
    hide Holds;
    var s' := Step(cfg, kernel, s, e);
    StepKeepsInvariant(cfg, kernel, s, e);
    forall t | t in s'.threads
      ensures UpToDate(s'.tracked, Holds(s'.threads[t]))
    {
      var held := Holds(s'.threads[t]);
      forall p | p in held && p in s'.tracked
        ensures s'.tracked[p].state.sampleTime <= held[p].state.sampleTime
      {
        HoldsAfter(cfg, kernel, s, e, t, p);
        TrackedAfter(cfg, kernel, s, e, p);
        assert SampleOk(kernel, s'.clock, p, s'.tracked[p]);
        if t in s.threads && p in Writes(s, e) && p in Holds(s.threads[t]) {
          WritesWereHeld(s, e, p);
          assert t != e.t && !OutdatedBy(Writes(s, e), Holds(s.threads[t]));
        }
      }
    }
  }

  lemma TimelyBefore(cfg: Config, kernel: Kernel, events: seq<Event>, n: nat)
    requires cfg.Valid() && Timely(cfg, kernel, events) && n <= |events|
    ensures NothingStale(Exec(cfg, kernel, START, events[..n]))
  {
    hide Step;
    hide Outdates;
    if n > 0 {
      assert events[..n][..n - 1] == events[..n - 1];
      TimelyBefore(cfg, kernel, events, n - 1);
      ExecKeepsInvariant(cfg, kernel, START, events[..n - 1]);
      StepLeavesNothingStale(cfg, kernel, Exec(cfg, kernel, START, events[..n - 1]), events[n - 1]);
    }
  }

  /** A step that outdates a sample leaves it stale. */
  lemma OutdatedIsStale(cfg: Config, kernel: Kernel, s: System, e: Event)
    requires cfg.Valid() && Outdates(s, e)
    ensures !NothingStale(Step(cfg, kernel, s, e))
  {
    var s' := Step(cfg, kernel, s, e);
    var t :| t in s.threads && t != e.t && OutdatedBy(Writes(s, e), Holds(s.threads[t]));
    var writes, held := Writes(s, e), Holds(s.threads[t]);
    var p :| p in writes && p in held && writes[p].state.sampleTime > held[p].state.sampleTime;
    assert t in s'.threads && s'.threads[t] == s.threads[t];
    assert p in s'.tracked && s'.tracked[p] == writes[p];
    assert !UpToDate(s'.tracked, Holds(s'.threads[t]));
  }

  /** Samples are stored in the order they were stamped exactly when at no moment a call has yet
      to store a sample older than the tracked one. */
  lemma TimelyExactly(cfg: Config, kernel: Kernel, events: seq<Event>)
    requires cfg.Valid()
    ensures Timely(cfg, kernel, events) <==>
      forall i :: 0 <= i <= |events| ==> NothingStale(Exec(cfg, kernel, START, events[..i]))
  {
    hide Step;
    hide Outdates;
    hide NothingStale;
    if Timely(cfg, kernel, events) {
      forall i | 0 <= i <= |events|
        ensures NothingStale(Exec(cfg, kernel, START, events[..i]))
      {
        TimelyBefore(cfg, kernel, events, i);
      }
    } else {
      var i :| 0 <= i < |events| && Outdates(Exec(cfg, kernel, START, events[..i]), events[i]);
      assert events[..i + 1][..i] == events[..i];
      OutdatedIsStale(cfg, kernel, Exec(cfg, kernel, START, events[..i]), events[i]);
      assert !NothingStale(Exec(cfg, kernel, START, events[..i + 1]));
    }
  }

  lemma FreshStepGoesForward(cfg: Config, kernel: Kernel, s: System, e: Event)
    requires cfg.Valid() && NothingStale(s)
    ensures Forward(s.tracked, Step(cfg, kernel, s, e).tracked)
  {
    hide Step;
    hide Writes;
    hide Holds;
    var after := Step(cfg, kernel, s, e).tracked;
    forall p | p in s.tracked && p in after
      ensures s.tracked[p].state.sampleTime <= after[p].state.sampleTime
    {
      TrackedAfter(cfg, kernel, s, e, p);
      if p in Writes(s, e) {
        WritesWereHeld(s, e, p);
        assert UpToDate(s.tracked, Holds(s.threads[e.t]));
      }
    }
  }

  /** Then the tracked sample of a process never goes back in time. */
  lemma TimelyGoesForward(cfg: Config, kernel: Kernel, events: seq<Event>, i: nat)
    requires cfg.Valid() && Timely(cfg, kernel, events) && i < |events|
    ensures Forward(Exec(cfg, kernel, START, events[..i]).tracked, Exec(cfg, kernel, START, events[..i + 1]).tracked)
  {
    hide Step;
    hide NothingStale;
    hide Forward;
    assert events[..i + 1][..i] == events[..i];
    TimelyBefore(cfg, kernel, events, i);
    FreshStepGoesForward(cfg, kernel, Exec(cfg, kernel, START, events[..i]), events[i]);
  }

  // ---------- calls brought to their end ----------

  /** No step of the run takes a tracked sample back in time. */
  ghost predicate GoesForward(cfg: Config, kernel: Kernel, s: System, events: seq<Event>)
    requires cfg.Valid()
  {
    forall i :: 0 <= i < |events| ==>
      Forward(Exec(cfg, kernel, s, events[..i]).tracked, Exec(cfg, kernel, s, events[..i + 1]).tracked)
  }

  /** The call can be brought to its end without taking a tracked sample back. */
  ghost predicate ClosesForward(cfg: Config, kernel: Kernel, s: System, t: int)
    requires cfg.Valid()
  {
    forall n: nat :: GoesForward(cfg, kernel, s, Closing(t, n))
  }

  predicate IsOwnStep(e: Event, t: int) {
    !e.Advance? && e.t == t
  }

  lemma OwnStepGoesForward(cfg: Config, kernel: Kernel, s: System, e: Event, t: int)
    requires cfg.Valid() && Invariant(kernel, s) && IsOwnStep(e, t) && UpToDate(s.tracked, Holds(ThreadOf(s, t)))
    ensures var s' := Step(cfg, kernel, s, e);
      Forward(s.tracked, s'.tracked) && UpToDate(s'.tracked, Holds(ThreadOf(s', t)))
  {
    hide Step;
    hide Writes;
    hide Holds;
    var s' := Step(cfg, kernel, s, e);
    StepKeepsInvariant(cfg, kernel, s, e);
    forall p | p in s.tracked && p in s'.tracked
      ensures s.tracked[p].state.sampleTime <= s'.tracked[p].state.sampleTime
    {
      TrackedAfter(cfg, kernel, s, e, p);
      if p in Writes(s, e) {
        WritesWereHeld(s, e, p);
      }
    }
    var held := Holds(ThreadOf(s', t));
    forall p | p in held && p in s'.tracked
      ensures s'.tracked[p].state.sampleTime <= held[p].state.sampleTime
    {
      HoldsAfter(cfg, kernel, s, e, t, p);
      TrackedAfter(cfg, kernel, s, e, p);
      assert SampleOk(kernel, s'.clock, p, s'.tracked[p]);
    }
  }

  lemma {:induction false} OwnRunGoesForward(cfg: Config, kernel: Kernel, s: System, events: seq<Event>, t: int, n: nat)
    requires cfg.Valid() && Invariant(kernel, s) && UpToDate(s.tracked, Holds(ThreadOf(s, t)))
    requires n <= |events| && forall e :: e in events ==> IsOwnStep(e, t)
    ensures var s' := Exec(cfg, kernel, s, events[..n]);
      UpToDate(s'.tracked, Holds(ThreadOf(s', t)))
    ensures n > 0 ==>
      Forward(Exec(cfg, kernel, s, events[..n - 1]).tracked, Exec(cfg, kernel, s, events[..n]).tracked)
  {
    hide Step;
    hide Holds;
    hide UpToDate;
    hide Forward;
    hide Invariant;
    if n > 0 {
      OwnRunGoesForward(cfg, kernel, s, events, t, n - 1);
      ExecKeepsInvariant(cfg, kernel, s, events[..n - 1]);
      assert events[..n][..n - 1] == events[..n - 1];
      OwnStepGoesForward(cfg, kernel, Exec(cfg, kernel, s, events[..n - 1]), events[n - 1], t);
    }
  }

  lemma {:induction false} ClosingIsOwn(t: int, n: nat)
    ensures forall e :: e in Drops(t, n) ==> IsOwnStep(e, t)
    ensures forall e :: e in Closing(t, n) ==> IsOwnStep(e, t)
  {
    if n > 0 {
      ClosingIsOwn(t, n - 1);
    }
  }

  lemma StoreGoesBack(cfg: Config, kernel: Kernel, s: System, t: int)
    requires cfg.Valid() && Invariant(kernel, s)
    requires !UpToDate(s.tracked, Holds(ThreadOf(s, t))) && !InScan(ThreadOf(s, t))
    ensures !GoesForward(cfg, kernel, s, Closing(t, 0))
  {
    hide Exec;
    var events := Closing(t, 0);
    assert events[..0] == [] && events[..1] == [Store(t)];
    NothingDone(cfg, kernel, s);
    ExecOne(cfg, kernel, s, Store(t));
    assert !Forward(Exec(cfg, kernel, s, events[..0]).tracked, Exec(cfg, kernel, s, events[..0 + 1]).tracked);
  }

  lemma PublishGoesBack(cfg: Config, kernel: Kernel, s: System, t: int)
    requires cfg.Valid() && Invariant(kernel, s) && ListedOnce(ThreadOf(s, t))
    requires !UpToDate(s.tracked, Holds(ThreadOf(s, t))) && InScan(ThreadOf(s, t))
    ensures !GoesForward(cfg, kernel, s, Closing(t, |ThreadOf(s, t).call.todo|))
  {
    hide Exec;
    hide Drops;
    hide ListedOnce;
    var drops := Drops(t, |ThreadOf(s, t).call.todo|);
    var events, i := drops + [Store(t), Publish(t)], |drops| + 1;
    assert events[..i] == drops + [Store(t)] && events[..i + 1] == drops + ([Store(t)] + [Publish(t)]);
    assert t in s.threads && ThreadOk(kernel, s.clock, s.threads[t]);
    DropAll(cfg, kernel, s, t);
    var s1 := Exec(cfg, kernel, s, drops);
    ExecConcat(cfg, kernel, s, drops, [Store(t)]);
    ExecConcat(cfg, kernel, s, drops, [Store(t)] + [Publish(t)]);
    ExecFirst(cfg, kernel, s1, Store(t), [Publish(t)]);
    ExecOne(cfg, kernel, s1, Store(t));
    ExecOne(cfg, kernel, s1, Publish(t));
    assert !Forward(Exec(cfg, kernel, s, events[..i]).tracked, Exec(cfg, kernel, s, events[..i + 1]).tracked);
  }

  /** A call that holds an older sample than the tracked one takes it back when it ends; a call
      that holds none does not. */
  lemma ClosingGoesForward(cfg: Config, kernel: Kernel, s: System, t: int)
    requires cfg.Valid() && Invariant(kernel, s) && ListedOnce(ThreadOf(s, t))
    ensures UpToDate(s.tracked, Holds(ThreadOf(s, t))) <==> ClosesForward(cfg, kernel, s, t)
  {
    hide Exec;
    hide Closing;
    hide Holds;
    hide UpToDate;
    hide Invariant;
    hide ListedOnce;
    if UpToDate(s.tracked, Holds(ThreadOf(s, t))) {
      forall n: nat
        ensures GoesForward(cfg, kernel, s, Closing(t, n))
      {
        ClosingIsOwn(t, n);
        var events := Closing(t, n);
        forall i | 0 <= i < |events|
          ensures Forward(Exec(cfg, kernel, s, events[..i]).tracked, Exec(cfg, kernel, s, events[..i + 1]).tracked)
        {
          OwnRunGoesForward(cfg, kernel, s, events, t, i + 1);
        }
      }
    } else if InScan(ThreadOf(s, t)) {
      PublishGoesBack(cfg, kernel, s, t);
    } else {
      StoreGoesBack(cfg, kernel, s, t);
    }
  }

  lemma NothingStaleCloses(cfg: Config, kernel: Kernel, s: System)
    requires cfg.Valid() && Invariant(kernel, s) && AllListedOnce(s)
    ensures NothingStale(s) <==> forall t :: ClosesForward(cfg, kernel, s, t)
  {
    hide ClosesForward;
    hide UpToDate;
    hide Invariant;
    NoneHeld(s.tracked);
    forall t
      ensures UpToDate(s.tracked, Holds(ThreadOf(s, t))) <==> ClosesForward(cfg, kernel, s, t)
    {
      assert ListedOnce(ThreadOf(s, t));
      ClosingGoesForward(cfg, kernel, s, t);
    }
    if forall t :: ClosesForward(cfg, kernel, s, t) {
      forall t | t in s.threads
        ensures UpToDate(s.tracked, Holds(s.threads[t]))
      {
        assert ClosesForward(cfg, kernel, s, t);
      }
    }
  }

  /** When no directory is listed twice, samples are stored in the order they were stamped
      exactly when no call, brought to its end at any moment, could take a tracked sample back. */
  lemma TimelyMeansForward(cfg: Config, kernel: Kernel, events: seq<Event>)
    requires cfg.Valid() && forall e :: e in events ==> StartsListedOnce(e)
    ensures Timely(cfg, kernel, events) <==>
      forall i, t | 0 <= i <= |events| :: ClosesForward(cfg, kernel, Exec(cfg, kernel, START, events[..i]), t)
  {
    hide Exec;
    hide ClosesForward;
    hide Timely;
    hide StartsListedOnce;
    hide NothingStale;
    TimelyExactly(cfg, kernel, events);
    forall i | 0 <= i <= |events|
      ensures NothingStale(Exec(cfg, kernel, START, events[..i])) <==>
        forall t :: ClosesForward(cfg, kernel, Exec(cfg, kernel, START, events[..i]), t)
    {
      RunKeepsListedOnce(cfg, kernel, events[..i]);
      ExecKeepsInvariant(cfg, kernel, START, events[..i]);
      NothingStaleCloses(cfg, kernel, Exec(cfg, kernel, START, events[..i]));
    }
  }

  lemma NoneHeld(tracked: Samples)
    ensures UpToDate(tracked, Holds(AtRest))
  {
  }

  // ---------- calls that share no process ----------

  lemma HeldConcerns(thread: Thread, p: int)
    requires p in Holds(thread)
    ensures Concerns(thread, p)
  {
  }

  lemma ApartIsTimely(s: System, e: Event)
    requires Apart(s)
    ensures !Outdates(s, e)
  {
    hide Writes;
    hide Holds;
    hide Concerns;
    if Outdates(s, e) {
      var t :| t in s.threads && t != e.t && OutdatedBy(Writes(s, e), Holds(s.threads[t]));
      var p :| p in Writes(s, e) && p in Holds(s.threads[t]);
      HeldConcerns(s.threads[t], p);
      WritesConcern(s, e, p);
    }
  }

  /** Calls that overlap only when they share no process store in order. */
  lemma DisjointIsTimely(cfg: Config, kernel: Kernel, events: seq<Event>)
    requires cfg.Valid() && Disjoint(cfg, kernel, events)
    ensures Timely(cfg, kernel, events)
  {
    hide Exec;
    hide Disjoint;
    forall i | 0 <= i < |events|
      ensures !Outdates(Exec(cfg, kernel, START, events[..i]), events[i])
    {
      DisjointStaysApart(cfg, kernel, events, i);
      ApartIsTimely(Exec(cfg, kernel, START, events[..i]), events[i]);
    }
  }

  /** One call stamps its sample; a second one runs from start to end ten milliseconds later;
      then the first stores. */
  const LATE_STORE: seq<Event> :=
    BOTH_START + (BeforeLast(1, PLAIN_READING) + ([ReadLast(1)] + ([Stamp(1, true)]
    + ([Advance(TEN_MS)] + FillSteps(2, PLAIN_READING)))))

  /** The last step of that run, whatever the configuration, takes the tracked sample back. */
  lemma OlderSampleStored(cfg: Config, kernel: Kernel)
    requires cfg.Valid()
    ensures var before := Exec(cfg, kernel, START, LATE_STORE);
      !Forward(before.tracked, Step(cfg, kernel, before, Store(1)).tracked)
  {
    hide Exec;
    hide Finish;
    hide BeforeLast;
    hide FromLast;
    var s1 := Exec(cfg, kernel, BOTH_READY, BeforeLast(1, PLAIN_READING));
    SoloMeasures(cfg, kernel, BOTH_READY, 1, One(7), PLAIN_READING);
    var s2 := Step(cfg, kernel, s1, ReadLast(1));
    var s3 := Step(cfg, kernel, s2, Stamp(1, true));
    TrackerRuns.FinishFacts(cfg, ThreadOf(s1, 1).status, None, 0);
    var s4 := Step(cfg, kernel, s3, Advance(TEN_MS));
    var s5 := Exec(cfg, kernel, s4, BeforeLast(2, PLAIN_READING));
    SoloMeasures(cfg, kernel, s4, 2, One(7), PLAIN_READING);
    TrackerRuns.FinishFacts(cfg, ThreadOf(s5, 2).status, None, TEN_MS);
    SoloStores(cfg, kernel, s5, 2, PLAIN_READING);
    LateStoreSteps(cfg, kernel);
    var s6 := Exec(cfg, kernel, s5, FromLast(2, PLAIN_READING));
    assert s6.tracked[7].state.sampleTime == TEN_MS;
    assert Step(cfg, kernel, s6, Store(1)).tracked[7].state.sampleTime == 0;
  }

  lemma LateStoreSteps(cfg: Config, kernel: Kernel)
    requires cfg.Valid()
    ensures var s1 := Exec(cfg, kernel, BOTH_READY, BeforeLast(1, PLAIN_READING));
      var s3 := Step(cfg, kernel, Step(cfg, kernel, s1, ReadLast(1)), Stamp(1, true));
      var s5 := Exec(cfg, kernel, Step(cfg, kernel, s3, Advance(TEN_MS)), BeforeLast(2, PLAIN_READING));
      Exec(cfg, kernel, START, LATE_STORE) == Exec(cfg, kernel, s5, FromLast(2, PLAIN_READING))
  {
    hide Exec;
    hide Step;
    hide BeforeLast;
    hide FromLast;
    var e3 := [Advance(TEN_MS)] + FillSteps(2, PLAIN_READING);
    var e2 := [Stamp(1, true)] + e3;
    var e1 := [ReadLast(1)] + e2;
    var s1 := Exec(cfg, kernel, BOTH_READY, BeforeLast(1, PLAIN_READING));
    var s2 := Step(cfg, kernel, s1, ReadLast(1));
    var s3 := Step(cfg, kernel, s2, Stamp(1, true));
    var s4 := Step(cfg, kernel, s3, Advance(TEN_MS));
    BothStart(cfg, kernel);
    ExecConcat(cfg, kernel, START, BOTH_START, BeforeLast(1, PLAIN_READING) + e1);
    ExecConcat(cfg, kernel, BOTH_READY, BeforeLast(1, PLAIN_READING), e1);
    ExecFirst(cfg, kernel, s1, ReadLast(1), e2);
    ExecFirst(cfg, kernel, s2, Stamp(1, true), e3);
    ExecFirst(cfg, kernel, s3, Advance(TEN_MS), FillSteps(2, PLAIN_READING));
    ExecConcat(cfg, kernel, s4, BeforeLast(2, PLAIN_READING), FromLast(2, PLAIN_READING));
  }
}
