/** What a call still holds back, and how it comes to its end when every further reading fails. */
module CallEnds {
  import opened Collections
  import opened Interleaving
  import opened Tracker
  import opened Wrappers

  function LocalMap(call: Call): Samples {
    if call.All? then call.procMap else map[]
  }

  /** The samples a call has stamped and has yet to store. */
  function Holds(thread: Thread): Samples {
    if thread.AtRest? then map[]
    else if thread.Finished? && HasPidLeft(thread.call) then
      LocalMap(thread.call)[PidOf(thread.call) := Sample(thread.status, thread.readAt)]
    else LocalMap(thread.call)
  }

  const NO_READING := Reading(Err("gone"), Err("gone"), Err("gone"), Err("gone"), None, false, false, false, false)

  /** The rest of a fill, or a whole one, of which every reading fails. */
  function Drop(t: int): seq<Event> {
    [ReadInfo(t, Err("gone")), ReadCache(t), Measure(t, NO_READING), ReadLast(t), Stamp(t, false), Store(t)]
  }

  function Drops(t: int, n: nat): seq<Event> {
    if n == 0 then [] else Drop(t) + Drops(t, n - 1)
  }

  /** A call brought to its end: its other pids dropped, then what it holds is stored. */
  function Closing(t: int, n: nat): seq<Event> {
    Drops(t, n) + [Store(t), Publish(t)]
  }

  // ---------- directories listed once ----------

  /** No directory left is one already filled, and none is left twice. */
  predicate ListedOnce(thread: Thread) {
    !thread.AtRest? && thread.call.All? ==>
      Distinct(thread.call.todo) && forall p :: p in thread.call.todo ==> p !in thread.call.procMap
  }

  predicate AllListedOnce(s: System) {
    forall t :: t in s.threads ==> ListedOnce(s.threads[t])
  }

  predicate StartsListedOnce(e: Event) {
    e.Start? && e.call.All? ==> Distinct(e.call.todo)
  }

  lemma StepKeepsListedOnce(cfg: Config, kernel: Kernel, s: System, e: Event)
    requires cfg.Valid() && AllListedOnce(s) && StartsListedOnce(e)
    ensures AllListedOnce(Step(cfg, kernel, s, e))
  {
    hide Finish;
    hide CacheCmdLine;
    hide FillPidMetrics;
    assert !e.Advance? ==> ListedOnce(ThreadOf(s, e.t));
  }

  lemma {:induction false} RunKeepsListedOnce(cfg: Config, kernel: Kernel, events: seq<Event>)
    requires cfg.Valid() && forall e :: e in events ==> StartsListedOnce(e)
    ensures AllListedOnce(Exec(cfg, kernel, START, events))
  {
    hide Step;
    if events != [] {
      var init := events[..|events| - 1];
      RunKeepsListedOnce(cfg, kernel, init);
      StepKeepsListedOnce(cfg, kernel, Exec(cfg, kernel, START, init), events[|events| - 1]);
    }
  }

  // ---------- dropping what is left ----------

  predicate InScan(thread: Thread) {
    !thread.AtRest? && thread.call.All?
  }

  predicate IsFillStep(e: Event, t: int) {
    !e.Advance? && !e.Start? && !e.Publish? && e.t == t
  }

  predicate Includes(held: Samples, before: Samples) {
    forall p :: p in before ==> p in held && held[p] == before[p]
  }

  /** A step of a scan's own fill stores nothing and gives up nothing it holds. */
  lemma ScanStepKeeps(cfg: Config, kernel: Kernel, s: System, e: Event, t: int)
    requires cfg.Valid() && InScan(ThreadOf(s, t)) && ListedOnce(ThreadOf(s, t)) && IsFillStep(e, t)
    ensures var s' := Step(cfg, kernel, s, e);
      && s'.tracked == s.tracked
      && InScan(ThreadOf(s', t)) && ListedOnce(ThreadOf(s', t))
      && Includes(Holds(ThreadOf(s', t)), Holds(ThreadOf(s, t)))
  {
    hide Finish;
    hide CacheCmdLine;
    hide FillPidMetrics;
  }

  lemma {:induction false} ScanStepsKeep(cfg: Config, kernel: Kernel, s: System, events: seq<Event>, t: int)
    requires cfg.Valid() && InScan(ThreadOf(s, t)) && ListedOnce(ThreadOf(s, t))
    requires forall e :: e in events ==> IsFillStep(e, t)
    ensures var s' := Exec(cfg, kernel, s, events);
      && s'.tracked == s.tracked
      && InScan(ThreadOf(s', t)) && ListedOnce(ThreadOf(s', t))
      && Includes(Holds(ThreadOf(s', t)), Holds(ThreadOf(s, t)))
  {
    hide Step;
    hide Holds;
    hide ListedOnce;
    if events != [] {
      var init := events[..|events| - 1];
      ScanStepsKeep(cfg, kernel, s, init, t);
      ScanStepKeeps(cfg, kernel, Exec(cfg, kernel, s, init), events[|events| - 1], t);
    }
  }

  function Stage(thread: Thread): nat {
    match thread
    case AtRest => 0
    case Ready(_) => 0
    case Basic(_, _) => 1
    case Cached(_, _) => 2
    case Measured(_, _, _) => 3
    case Compared(_, _, _, _) => 4
    case Finished(_, _, _) => 5
  }

  /** After k steps of a drop the pid is given up, or the fill is at least k steps along. */
  predicate Dropping(thread: Thread, todo: seq<int>, k: nat) {
    InScan(thread) && todo != [] &&
    ((thread.Ready? && k > 0 && thread.call.todo == todo[1..]) || (Stage(thread) >= k && thread.call.todo == todo))
  }

  lemma DropStep(cfg: Config, kernel: Kernel, s: System, t: int, todo: seq<int>, k: nat)
    requires cfg.Valid() && k < 6 && Dropping(ThreadOf(s, t), todo, k)
    ensures Dropping(ThreadOf(Step(cfg, kernel, s, Drop(t)[k]), t), todo, k + 1)
  {
    hide Finish;
    hide CacheCmdLine;
  }

  lemma {:induction false} DropSteps(cfg: Config, kernel: Kernel, s: System, t: int, todo: seq<int>, k: nat)
    requires cfg.Valid() && k <= 6 && Dropping(ThreadOf(s, t), todo, 0)
    ensures Dropping(ThreadOf(Exec(cfg, kernel, s, Drop(t)[..k]), t), todo, k)
  {
    hide Step;
    hide Drop;
    hide Dropping;
    if k > 0 {
      DropSteps(cfg, kernel, s, t, todo, k - 1);
      DropPrefix(t, k);
      DropStep(cfg, kernel, Exec(cfg, kernel, s, Drop(t)[..k - 1]), t, todo, k - 1);
    }
  }

  lemma DropPrefix(t: int, k: nat)
    requires 0 < k <= 6
    ensures Drop(t)[..k][|Drop(t)[..k]| - 1] == Drop(t)[k - 1] && |Drop(t)| == 6
    ensures Drop(t)[..k][..k - 1] == Drop(t)[..k - 1]
  {
  }

  /** A whole drop takes one pid off the scan. */
  lemma DropOne(cfg: Config, kernel: Kernel, s: System, t: int)
    requires cfg.Valid() && InScan(ThreadOf(s, t)) && ThreadOf(s, t).call.todo != []
    ensures var thread := ThreadOf(Exec(cfg, kernel, s, Drop(t)), t);
      InScan(thread) && thread.Ready? && thread.call.todo == ThreadOf(s, t).call.todo[1..]
  {
    hide Exec;
    DropSteps(cfg, kernel, s, t, ThreadOf(s, t).call.todo, 6);
    assert Drop(t)[..6] == Drop(t);
  }

  lemma {:induction false} DropAll(cfg: Config, kernel: Kernel, s: System, t: int)
    requires cfg.Valid() && InScan(ThreadOf(s, t)) && ListedOnce(ThreadOf(s, t))
    requires ThreadOf(s, t).call.todo == [] ==> ThreadOf(s, t).Ready?
    ensures var s' := Exec(cfg, kernel, s, Drops(t, |ThreadOf(s, t).call.todo|));
      var thread := ThreadOf(s', t);
      && s'.tracked == s.tracked
      && InScan(thread) && thread.Ready? && thread.call.todo == []
      && Includes(thread.call.procMap, Holds(ThreadOf(s, t)))
    decreases |ThreadOf(s, t).call.todo|
  {
    hide Exec;
    hide Drop;
    hide ListedOnce;
    var n := |ThreadOf(s, t).call.todo|;
    if n == 0 {
      NothingDone(cfg, kernel, s);
    } else {
      var s1 := Exec(cfg, kernel, s, Drop(t));
      DropOne(cfg, kernel, s, t);
      DropIsFill(t);
      ScanStepsKeep(cfg, kernel, s, Drop(t), t);
      ExecConcat(cfg, kernel, s, Drop(t), Drops(t, n - 1));
      DropAll(cfg, kernel, s1, t);
    }
  }

  /** A scan brought to its end tracks everything it held. */
  lemma ScanCloses(cfg: Config, kernel: Kernel, s: System, t: int)
    requires cfg.Valid() && InScan(ThreadOf(s, t)) && ListedOnce(ThreadOf(s, t))
    requires ThreadOf(s, t).call.todo == [] ==> ThreadOf(s, t).Ready?
    ensures var n := |ThreadOf(s, t).call.todo|;
      Includes(Exec(cfg, kernel, s, Closing(t, n)).tracked, Holds(ThreadOf(s, t)))
  {
    hide Exec;
    hide Drops;
    hide ListedOnce;
    var drops := Drops(t, |ThreadOf(s, t).call.todo|);
    DropAll(cfg, kernel, s, t);
    var s1 := Exec(cfg, kernel, s, drops);
    assert [Store(t), Publish(t)] == [Store(t)] + [Publish(t)];
    ExecConcat(cfg, kernel, s, drops, [Store(t), Publish(t)]);
    ExecFirst(cfg, kernel, s1, Store(t), [Publish(t)]);
    ExecOne(cfg, kernel, s1, Publish(t));
  }

  lemma DropIsFill(t: int)
    ensures forall e :: e in Drop(t) ==> IsFillStep(e, t)
  {
  }
}
