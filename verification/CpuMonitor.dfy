/** metric/cpu/metrics.go: CPU samples, the monitor that remembers the last one, and percentages. */
module CpuMonitor {
  import opened GoNumbers
  import opened RealArithmetic
  import opened Rounding
  import opened Wrappers

  datatype CPU = CPU(
    user: Option<uint64>, sys: Option<uint64>, idle: Option<uint64>, nice: Option<uint64>,
    irq: Option<uint64>, wait: Option<uint64>, softIrq: Option<uint64>, stolen: Option<uint64>)

  const NO_CPU := CPU(None, None, None, None, None, None, None, None)

  datatype State = User | Sys | Idle | Nice | Irq | Wait | SoftIrq | Stolen

  function Field(cpu: CPU, s: State): Option<uint64> {
    match s
    case User => cpu.user
    case Sys => cpu.sys
    case Idle => cpu.idle
    case Nice => cpu.nice
    case Irq => cpu.irq
    case Wait => cpu.wait
    case SoftIrq => cpu.softIrq
    case Stolen => cpu.stolen
  }

  const STATES: seq<State> := [User, Nice, Sys, Idle, Wait, Irq, SoftIrq, Stolen]

  function SumFields(cpu: CPU, states: seq<State>): nat {
    if states == [] then 0
    else SumFields(cpu, states[..|states| - 1]) + Field(cpu, states[|states| - 1]).GetOr(0)
  }

  /** All ticks of a sample, each counter named; an absent one counts as zero. */
  function AllTicks(cpu: CPU): nat {
    cpu.user.GetOr(0) + cpu.nice.GetOr(0) + cpu.sys.GetOr(0) + cpu.idle.GetOr(0)
    + cpu.wait.GetOr(0) + cpu.irq.GetOr(0) + cpu.softIrq.GetOr(0) + cpu.stolen.GetOr(0)
  }

  lemma SumOfAllEight(cpu: CPU)
    ensures SumFields(cpu, STATES) == AllTicks(cpu)
  {
    forall k | 0 <= k < 8
      ensures SumFields(cpu, STATES[..k + 1]) == SumFields(cpu, STATES[..k]) + Field(cpu, STATES[k]).GetOr(0)
    {
      assert STATES[..k + 1][..k] == STATES[..k];
    }
    assert SumFields(cpu, STATES[..1]) == SumFields(cpu, STATES[..0]) + cpu.user.GetOr(0);
    assert SumFields(cpu, STATES[..2]) == SumFields(cpu, STATES[..1]) + cpu.nice.GetOr(0);
    assert SumFields(cpu, STATES[..3]) == SumFields(cpu, STATES[..2]) + cpu.sys.GetOr(0);
    assert SumFields(cpu, STATES[..4]) == SumFields(cpu, STATES[..3]) + cpu.idle.GetOr(0);
    assert SumFields(cpu, STATES[..5]) == SumFields(cpu, STATES[..4]) + cpu.wait.GetOr(0);
    assert SumFields(cpu, STATES[..6]) == SumFields(cpu, STATES[..5]) + cpu.irq.GetOr(0);
    assert SumFields(cpu, STATES[..7]) == SumFields(cpu, STATES[..6]) + cpu.softIrq.GetOr(0);
    assert SumFields(cpu, STATES[..8]) == SumFields(cpu, STATES[..7]) + cpu.stolen.GetOr(0);
    assert STATES[..8] == STATES;
  }

  /** All ticks of a sample, added as uint64. */
  function Total(cpu: CPU): uint64 {
    Wrap(SumFields(cpu, STATES))
  }

  datatype CPUInfo = CPUInfo(modelName: string, modelNumber: string, mhz: real, physicalID: int, coreID: int)

  const NO_INFO := CPUInfo("", "", 0.0, 0, 0)

  datatype CPUMetrics = CPUMetrics(totals: CPU, list: seq<CPU>, cpuInfo: seq<CPUInfo>)

  datatype Metrics = Metrics(previousSample: CPU, currentSample: CPU, count: nat, cpuInfo: CPUInfo, isTotals: bool)

  datatype MetricOpts = MetricOpts(ticks: bool, percentages: bool, normalizedPercentages: bool)

  // ---------- the monitor ----------

  /** The previous sample a core is compared with: the core may be new. */
  function PreviousCore(last: CPUMetrics, i: nat): CPU {
    if i < |last.list| then last.list[i] else NO_CPU
  }

  /** The details of a core; NO_INFO where the system gives none. */
  function InfoOf(sample: CPUMetrics, i: nat): CPUInfo {
    if i < |sample.cpuInfo| then sample.cpuInfo[i] else NO_INFO
  }

  /** There are details, but for fewer cores than are listed: indexing them panics. */
  predicate InfoShort(sample: CPUMetrics) {
    0 < |sample.cpuInfo| < |sample.list|
  }

  datatype Call =
    | Totals(sample: Result<CPUMetrics>)   // Fetch
    | Cores(sample: Result<CPUMetrics>)    // FetchCores

  /** The call replaces the remembered sample. */
  predicate Stores(call: Call) {
    call.sample.Ok? && (call.Cores? ==> !InfoShort(call.sample.value))
  }

  function Stored(last: CPUMetrics, call: Call): CPUMetrics {
    if Stores(call) then call.sample.value else last
  }

  class Monitor {
    var lastSample: CPUMetrics

    constructor ()
      ensures lastSample == CPUMetrics(NO_CPU, [], [])
    {
      lastSample := CPUMetrics(NO_CPU, [], []);
    }

    method Fetch(sample: Result<CPUMetrics>) returns (r: Result<Metrics>)
      modifies this
      ensures lastSample == Stored(old(lastSample), Totals(sample))
      ensures sample.Err? ==> r.Err?
      ensures sample.Ok? ==>
        r == Ok(Metrics(old(lastSample).totals, sample.value.totals, |sample.value.list|, NO_INFO, true))
    {
      if sample.Err? {
        return Err("error fetching CPU metrics");
      }
      var oldLastSample := lastSample;
      lastSample := sample.value;
      r := Ok(Metrics(oldLastSample.totals, sample.value.totals, |sample.value.list|, NO_INFO, true));
    }

    /** A panic is an error here; it too leaves the remembered sample alone. */
    method FetchCores(sample: Result<CPUMetrics>) returns (r: Result<seq<Metrics>>)
      modifies this
      ensures lastSample == Stored(old(lastSample), Cores(sample))
      ensures r.Ok? <==> sample.Ok? && !InfoShort(sample.value)
      ensures r.Ok? ==>
        && |r.value| == |sample.value.list|
        && forall i :: 0 <= i < |r.value| ==>
             r.value[i] ==
             Metrics(PreviousCore(old(lastSample), i), sample.value.list[i], 0, InfoOf(sample.value, i), false)
    {
      if sample.Err? {
        return Err("error fetching CPU metrics");
      }
      var metric := sample.value;
      var coreMetrics: seq<Metrics> := [];
      for i := 0 to |metric.list|
        invariant |coreMetrics| == i && lastSample == old(lastSample)
        invariant |metric.cpuInfo| == 0 || i <= |metric.cpuInfo|
        invariant forall j :: 0 <= j < i ==>
          coreMetrics[j] == Metrics(PreviousCore(lastSample, j), metric.list[j], 0, InfoOf(metric, j), false)
      {
        var lastMetric := NO_CPU;
        if |lastSample.list| > i {
          lastMetric := lastSample.list[i];
        }
        var core := Metrics(lastMetric, metric.list[i], 0, NO_INFO, false);
        if |metric.cpuInfo| != 0 {
          if i >= |metric.cpuInfo| {
            return Err("index out of range");
          }
          core := core.(cpuInfo := metric.cpuInfo[i]);
        }
        coreMetrics := coreMetrics + [core];
      }
      lastSample := metric;
      r := Ok(coreMetrics);
    }
  }

  // ---------- runs of both calls on one monitor ----------

  /** The ticks between the remembered sample and the one a call replaces it with. */
  function Interval(last: CPUMetrics, call: Call): uint64 {
    Sub(Total(Stored(last, call).totals), Total(last.totals))
  }

  /** The intervals a run reports through Fetch, added up. */
  function FetchedTime(last: CPUMetrics, calls: seq<Call>): nat
    decreases |calls|
  {
    if calls == [] then 0
    else (if calls[0].Totals? then Interval(last, calls[0]) else 0) + FetchedTime(Stored(last, calls[0]), calls[1..])
  }

  /** The intervals that end with a FetchCores, which no Fetch reports. */
  function MissedTime(last: CPUMetrics, calls: seq<Call>): nat
    decreases |calls|
  {
    if calls == [] then 0
    else (if calls[0].Cores? then Interval(last, calls[0]) else 0) + MissedTime(Stored(last, calls[0]), calls[1..])
  }

  function LastStored(last: CPUMetrics, calls: seq<Call>): CPUMetrics
    decreases |calls|
  {
    if calls == [] then last else LastStored(Stored(last, calls[0]), calls[1..])
  }

  /** Over a run of both calls, failed ones included, what Fetch reports and what FetchCores keeps
      from it add up to the advance of the counters; neither is counted twice. */
  lemma {:induction false} FetchedTimeConserved(last: CPUMetrics, calls: seq<Call>)
    ensures Wrap(FetchedTime(last, calls) + MissedTime(last, calls))
      == Sub(Total(LastStored(last, calls).totals), Total(last.totals))
    decreases |calls|
  {
    hide Total;
    hide Stored;
    hide Wrap;
    hide Sub;
    var from, to := Total(last.totals), Total(LastStored(last, calls).totals);
    if calls == [] {
      NoneElapsed(from);
    } else {
      var next := Stored(last, calls[0]);
      FetchedTimeConserved(next, calls[1..]);
      WrapAbsorbs(FetchedTime(next, calls[1..]) + MissedTime(next, calls[1..]), Interval(last, calls[0]));
      SubAdds(from, Total(next.totals), to);
    }
  }

  lemma NoneElapsed(n: uint64)
    ensures Wrap(0) == Sub(n, n)
  {
  }

  /** No stored sample has fewer ticks than the one before it. */
  predicate TotalsAdvance(last: CPUMetrics, calls: seq<Call>)
    decreases |calls|
  {
    calls != [] ==>
      Total(last.totals) <= Total(Stored(last, calls[0]).totals) && TotalsAdvance(Stored(last, calls[0]), calls[1..])
  }

  /** Every FetchCores that stores a sample finds the total of the one before it. */
  predicate CoresSeeNoTicks(last: CPUMetrics, calls: seq<Call>)
    decreases |calls|
  {
    calls != [] ==>
      && (calls[0].Cores? ==> Total(last.totals) == Total(Stored(last, calls[0]).totals))
      && CoresSeeNoTicks(Stored(last, calls[0]), calls[1..])
  }

  /** Fetch reports the whole advance exactly when no tick passed before a FetchCores; otherwise
      it reports less. */
  lemma {:induction false} NothingMissedExactly(last: CPUMetrics, calls: seq<Call>)
    requires TotalsAdvance(last, calls)
    ensures var advance := Total(LastStored(last, calls).totals) - Total(last.totals);
      && FetchedTime(last, calls) + MissedTime(last, calls) == advance
      && (FetchedTime(last, calls) == advance <==> CoresSeeNoTicks(last, calls))
    decreases |calls|
  {
    hide Total;
    hide Stored;
    if calls != [] {
      NothingMissedExactly(Stored(last, calls[0]), calls[1..]);
    }
  }

  // ---------- percentages ----------

  /** Ticks as a fraction of the interval, times the number of CPUs. */
  function PerInterval(ticks: int, timeDelta: uint64, numCPU: int): real
    requires timeDelta > 0
  {
    ticks as real / timeDelta as real * numCPU as real
  }

  function CpuMetricTimeDelta(prev: Option<uint64>, current: Option<uint64>, timeDelta: uint64, numCPU: int): real
    requires timeDelta > 0
  {
    var cpuDelta := Signed(Sub(current.GetOr(0), prev.GetOr(0)));
    Round(PerInterval(cpuDelta, timeDelta, numCPU))
  }

  function CreateTotal(prev: CPU, cur: CPU, timeDelta: uint64, numCPU: int): real
    requires timeDelta > 0
  {
    var idleTime := CpuMetricTimeDelta(prev.idle, cur.idle, timeDelta, numCPU);
    var notBusy := if cur.wait.Some?
      then idleTime + CpuMetricTimeDelta(prev.wait, cur.wait, timeDelta, numCPU) else idleTime;
    Round(numCPU as real - notBusy)
  }

  /** The published names: "total.pct", "total.norm.pct", and "<state>.ticks", ".pct", ".norm.pct". */
  datatype Key = TotalPct | TotalNormPct | Ticks(s: State) | Pct(s: State) | NormPct(s: State)

  type Event = map<Key, real>

  function TimeDelta(m: Metrics): uint64 {
    Sub(Total(m.currentSample), Total(m.previousSample))
  }

  function NormCPU(m: Metrics): int {
    if m.isTotals then m.count else 1
  }

  predicate Published(m: Metrics, opts: MetricOpts, k: Key) {
    Enabled(opts, k) && (Subject(k).Some? ==> Field(m.currentSample, Subject(k).value).Some?)
  }

  function PublishedValue(m: Metrics, k: Key): real
    requires TimeDelta(m) > 0
  {
    var prev, cur, t := m.previousSample, m.currentSample, TimeDelta(m);
    match k
    case TotalPct => CreateTotal(prev, cur, t, NormCPU(m))
    case TotalNormPct => CreateTotal(prev, cur, t, 1)
    case Ticks(s) => Field(cur, s).GetOr(0) as real
    case Pct(s) => CpuMetricTimeDelta(Field(prev, s), Field(cur, s), t, NormCPU(m))
    case NormPct(s) => CpuMetricTimeDelta(Field(prev, s), Field(cur, s), t, 1)
  }

  predicate Enabled(opts: MetricOpts, k: Key) {
    match k
    case Ticks(_) => opts.ticks
    case Pct(_) => opts.percentages
    case TotalPct => opts.percentages
    case NormPct(_) => opts.normalizedPercentages
    case TotalNormPct => opts.normalizedPercentages
  }

  /** The state an entry is about; None for the totals. */
  function Subject(k: Key): Option<State> {
    match k
    case TotalPct => None
    case TotalNormPct => None
    case Ticks(s) => Some(s)
    case Pct(s) => Some(s)
    case NormPct(s) => Some(s)
  }

  method FillMetric(event: Event, opts: MetricOpts, s: State, cur: Option<uint64>, prev: Option<uint64>,
                    timeDelta: uint64, numCPU: int)
    returns (r: Event)
    requires timeDelta > 0
    ensures forall k :: k in r <==> k in event || (cur.Some? && Enabled(opts, k) && Subject(k) == Some(s))
    ensures forall k :: k in event && Subject(k) != Some(s) ==> r[k] == event[k]
    ensures Ticks(s) in r && Ticks(s) !in event ==> r[Ticks(s)] == cur.value as real
    ensures Pct(s) in r && Pct(s) !in event ==> r[Pct(s)] == CpuMetricTimeDelta(prev, cur, timeDelta, numCPU)
    ensures NormPct(s) in r && NormPct(s) !in event ==> r[NormPct(s)] == CpuMetricTimeDelta(prev, cur, timeDelta, 1)
  {
    hide CpuMetricTimeDelta;
    r := event;
    if cur.None? {
      return;
    }
    if opts.ticks {
      r := r[Ticks(s) := cur.GetOr(0) as real];
    }
    if opts.percentages {
      r := r[Pct(s) := CpuMetricTimeDelta(prev, cur, timeDelta, numCPU)];
    }
    if opts.normalizedPercentages {
      r := r[NormPct(s) := CpuMetricTimeDelta(prev, cur, timeDelta, 1)];
    }
  }

  /** Exactly the enabled and available entries, each under its own name. */
  ghost predicate IsReport(m: Metrics, opts: MetricOpts, event: Event)
    requires TimeDelta(m) > 0
  {
    && (forall k :: k in event <==> Published(m, opts, k))
    && (forall k :: k in event ==> event[k] == PublishedValue(m, k))
  }

  /** The event holds what is published of the totals and of the states done so far. */
  ghost predicate ReportsSoFar(m: Metrics, opts: MetricOpts, event: Event, done: seq<State>)
    requires TimeDelta(m) > 0
  {
    && (forall k :: k in event <==> Published(m, opts, k) && (Subject(k).Some? ==> Subject(k).value in done))
    && (forall k :: k in event ==> event[k] == PublishedValue(m, k))
  }

  lemma FillReports(m: Metrics, opts: MetricOpts, event: Event, r: Event, done: seq<State>, s: State)
    requires TimeDelta(m) > 0 && s !in done && ReportsSoFar(m, opts, event, done)
    requires forall k :: k in r <==>
      k in event || (Field(m.currentSample, s).Some? && Enabled(opts, k) && Subject(k) == Some(s))
    requires forall k :: k in r ==> if Subject(k) == Some(s) then r[k] == PublishedValue(m, k) else r[k] == event[k]
    ensures ReportsSoFar(m, opts, r, done + [s])
  {
    hide CpuMetricTimeDelta;
    hide CreateTotal;
    hide TimeDelta;
    hide Enabled;
    hide NormCPU;
  }

  /** The entries of one state, where it is available. */
  method ReportOptMetric(m: Metrics, opts: MetricOpts, event: Event, s: State, ghost done: seq<State>)
    returns (r: Event)
    requires TimeDelta(m) > 0 && s !in done && ReportsSoFar(m, opts, event, done)
    ensures ReportsSoFar(m, opts, r, done + [s])
  {
    hide CpuMetricTimeDelta;
    hide CreateTotal;
    hide TimeDelta;
    hide Field;
    r := FillMetric(event, opts, s, Field(m.currentSample, s), Field(m.previousSample, s), TimeDelta(m), NormCPU(m));
    assert Ticks(s) !in event && Pct(s) !in event && NormPct(s) !in event;
    FillReports(m, opts, event, r, done, s);
  }

  const REPORT_ORDER: seq<State> := [User, Sys, Idle, Nice, Irq, Wait, SoftIrq, Stolen]

  /** What is published of one sample: its entries, and the details of a core that has some. */
  datatype Report = Report(entries: Event, info: Option<CPUInfo>)

  method Format(m: Metrics, opts: MetricOpts) returns (r: Result<Report>)
    ensures r.Err? <==> TimeDelta(m) == 0
    ensures r.Ok? ==> IsReport(m, opts, r.value.entries)
    ensures r.Ok? ==> r.value.info == if !m.isTotals && m.cpuInfo != NO_INFO then Some(m.cpuInfo) else None
  {
    hide CpuMetricTimeDelta;
    hide CreateTotal;
    hide Total;
    hide Field;
    var timeDelta := TimeDelta(m);
    if timeDelta <= 0 {
      return Err("previous sample is newer than current sample");
    }
    var normCPU := NormCPU(m);
    var event: Event := map[];
    if opts.percentages {
      event := event[TotalPct := CreateTotal(m.previousSample, m.currentSample, timeDelta, normCPU)];
    }
    if opts.normalizedPercentages {
      event := event[TotalNormPct := CreateTotal(m.previousSample, m.currentSample, timeDelta, 1)];
    }
    assert ReportsSoFar(m, opts, event, []);
    hide PublishedValue;
    hide Enabled;
    for i := 0 to |REPORT_ORDER|
      invariant ReportsSoFar(m, opts, event, REPORT_ORDER[..i])
    {
      var s := REPORT_ORDER[i];
      assert s !in REPORT_ORDER[..i] && REPORT_ORDER[..i + 1] == REPORT_ORDER[..i] + [s];
      event := ReportOptMetric(m, opts, event, s, REPORT_ORDER[..i]);
    }
    forall s: State ensures s in REPORT_ORDER {
      EveryState(s);
    }
    assert REPORT_ORDER[..|REPORT_ORDER|] == REPORT_ORDER;
    var info: Option<CPUInfo> := None;
    if !m.isTotals {
      if m.cpuInfo != NO_INFO {
        info := Some(m.cpuInfo);
      }
    }
    r := Ok(Report(event, info));
  }

  lemma EveryState(s: State)
    ensures s in REPORT_ORDER && s in STATES
  {
    assert REPORT_ORDER[0] == User && REPORT_ORDER[1] == Sys && REPORT_ORDER[2] == Idle && REPORT_ORDER[3] == Nice;
    assert REPORT_ORDER[4] == Irq && REPORT_ORDER[5] == Wait && REPORT_ORDER[6] == SoftIrq && REPORT_ORDER[7] == Stolen;
    assert STATES[0] == User && STATES[1] == Nice && STATES[2] == Sys && STATES[3] == Idle;
    assert STATES[4] == Wait && STATES[5] == Irq && STATES[6] == SoftIrq && STATES[7] == Stolen;
  }

  // ---------- the entries, counter by counter ----------

  /** The advance of a counter, as an int64, over the interval. */
  function TickShare(cur: Option<uint64>, prev: Option<uint64>, interval: uint64): real
    requires interval > 0
  {
    Signed(Sub(cur.GetOr(0), prev.GetOr(0))) as real / interval as real
  }

  /** The three entries of one state are there when enabled and available: its ticks, and their
      advance as a share of the interval, for n CPUs and for one. */
  ghost predicate StateEntries(event: Event, opts: MetricOpts, s: State, cur: Option<uint64>, prev: Option<uint64>,
                               interval: uint64, n: int)
    requires interval > 0
  {
    && (Ticks(s) in event <==> opts.ticks && cur.Some?)
    && (Pct(s) in event <==> opts.percentages && cur.Some?)
    && (NormPct(s) in event <==> opts.normalizedPercentages && cur.Some?)
    && (Ticks(s) in event ==> event[Ticks(s)] == cur.GetOr(0) as real)
    && (Pct(s) in event ==> event[Pct(s)] == Round(TickShare(cur, prev, interval) * n as real))
    && (NormPct(s) in event ==> event[NormPct(s)] == Round(TickShare(cur, prev, interval)))
  }

  /** The interval is the advance of all eight counters together. */
  lemma IntervalIsAllTicks(m: Metrics)
    ensures TimeDelta(m) == Sub(Wrap(AllTicks(m.currentSample)), Wrap(AllTicks(m.previousSample)))
  {
    SumOfAllEight(m.currentSample);
    SumOfAllEight(m.previousSample);
  }

  /** A report holds, under the name of each counter, that counter; the interval is the advance of
      all eight, and n is the number of CPUs for totals and one for a core. */
  lemma ReportIsByName(m: Metrics, opts: MetricOpts, event: Event)
    requires TimeDelta(m) > 0 && IsReport(m, opts, event)
    ensures var t := Sub(Wrap(AllTicks(m.currentSample)), Wrap(AllTicks(m.previousSample)));
      var n := if m.isTotals then m.count else 1;
      var cur, prev := m.currentSample, m.previousSample;
      && t > 0
      && StateEntries(event, opts, User, cur.user, prev.user, t, n)
      && StateEntries(event, opts, Sys, cur.sys, prev.sys, t, n)
      && StateEntries(event, opts, Idle, cur.idle, prev.idle, t, n)
      && StateEntries(event, opts, Nice, cur.nice, prev.nice, t, n)
      && StateEntries(event, opts, Irq, cur.irq, prev.irq, t, n)
      && StateEntries(event, opts, Wait, cur.wait, prev.wait, t, n)
      && StateEntries(event, opts, SoftIrq, cur.softIrq, prev.softIrq, t, n)
      && StateEntries(event, opts, Stolen, cur.stolen, prev.stolen, t, n)
    ensures TotalPct in event <==> opts.percentages
    ensures TotalNormPct in event <==> opts.normalizedPercentages
  {
    hide Round;
    hide StateEntries;
    IntervalIsAllTicks(m);
    var cur, prev, t, n := m.currentSample, m.previousSample, TimeDelta(m), NormCPU(m);
    EntriesOfState(m, opts, event, User, cur.user, prev.user, t, n);
    EntriesOfState(m, opts, event, Sys, cur.sys, prev.sys, t, n);
    EntriesOfState(m, opts, event, Idle, cur.idle, prev.idle, t, n);
    EntriesOfState(m, opts, event, Nice, cur.nice, prev.nice, t, n);
    EntriesOfState(m, opts, event, Irq, cur.irq, prev.irq, t, n);
    EntriesOfState(m, opts, event, Wait, cur.wait, prev.wait, t, n);
    EntriesOfState(m, opts, event, SoftIrq, cur.softIrq, prev.softIrq, t, n);
    EntriesOfState(m, opts, event, Stolen, cur.stolen, prev.stolen, t, n);
    hide IsReport;
    assert Published(m, opts, TotalPct) <==> opts.percentages;
    assert Published(m, opts, TotalNormPct) <==> opts.normalizedPercentages;
  }

  lemma RoundedShares(prev: Option<uint64>, cur: Option<uint64>, interval: uint64, n: int)
    requires interval > 0
    ensures CpuMetricTimeDelta(prev, cur, interval, n) == Round(TickShare(cur, prev, interval) * n as real)
    ensures CpuMetricTimeDelta(prev, cur, interval, 1) == Round(TickShare(cur, prev, interval))
  {
    hide Round;
    hide Signed;
    hide Sub;
    var delta := Signed(Sub(cur.GetOr(0), prev.GetOr(0)));
    var x, y := TickShare(cur, prev, interval) * n as real, TickShare(cur, prev, interval);
    assert PerInterval(delta, interval, n) == x;
    ForOneCPU(delta, interval);
    assert PerInterval(delta, interval, 1) == y;
    hide PerInterval;
    hide TickShare;
    assert Round(PerInterval(delta, interval, n)) == Round(x);
    assert Round(PerInterval(delta, interval, 1)) == Round(y);
  }

  lemma ForOneCPU(ticks: int, interval: uint64)
    requires interval > 0
    ensures PerInterval(ticks, interval, 1) == ticks as real / interval as real
  {
  }

  lemma EntriesHold(event: Event, opts: MetricOpts, s: State, cur: Option<uint64>, prev: Option<uint64>,
                    interval: uint64, n: int)
    requires interval > 0
    requires Ticks(s) in event <==> opts.ticks && cur.Some?
    requires Pct(s) in event <==> opts.percentages && cur.Some?
    requires NormPct(s) in event <==> opts.normalizedPercentages && cur.Some?
    requires Ticks(s) in event ==> event[Ticks(s)] == cur.GetOr(0) as real
    requires Pct(s) in event ==> event[Pct(s)] == CpuMetricTimeDelta(prev, cur, interval, n)
    requires NormPct(s) in event ==> event[NormPct(s)] == CpuMetricTimeDelta(prev, cur, interval, 1)
    ensures StateEntries(event, opts, s, cur, prev, interval, n)
  {
    hide Round;
    hide TickShare;
    hide CpuMetricTimeDelta;
    RoundedShares(prev, cur, interval, n);
  }

  lemma EntriesOfState(m: Metrics, opts: MetricOpts, event: Event, s: State,
                       cur: Option<uint64>, prev: Option<uint64>, interval: uint64, n: int)
    requires TimeDelta(m) > 0 && IsReport(m, opts, event)
    requires cur == Field(m.currentSample, s) && prev == Field(m.previousSample, s)
    requires interval == TimeDelta(m) && n == NormCPU(m)
    ensures StateEntries(event, opts, s, cur, prev, interval, n)
  {
    hide Round;
    hide Field;
    hide TimeDelta;
    hide NormCPU;
    hide CpuMetricTimeDelta;
    hide CreateTotal;
    assert Published(m, opts, Ticks(s)) <==> opts.ticks && cur.Some?;
    assert Published(m, opts, Pct(s)) <==> opts.percentages && cur.Some?;
    assert Published(m, opts, NormPct(s)) <==> opts.normalizedPercentages && cur.Some?;
    EntriesHold(event, opts, s, cur, prev, interval, n);
  }

  // ---------- what the percentages add up to ----------

  function Delta(m: Metrics, s: State): int {
    Field(m.currentSample, s).GetOr(0) - Field(m.previousSample, s).GetOr(0)
  }

  function SumDeltas(m: Metrics, states: seq<State>): int {
    if states == [] then 0
    else SumDeltas(m, states[..|states| - 1]) + Delta(m, states[|states| - 1])
  }

  /** Counters did not go back, none disappeared, their sum fits a uint64, and time passed. */
  ghost predicate Advanced(m: Metrics) {
    && (forall s: State :: Field(m.previousSample, s).Some? ==> Field(m.currentSample, s).Some?)
    && (forall s: State :: Delta(m, s) >= 0)
    && SumFields(m.currentSample, STATES) < TWO_64
    && SumDeltas(m, STATES) > 0
  }

  lemma {:induction false} SumDeltasSplits(m: Metrics, states: seq<State>)
    ensures SumDeltas(m, states) == SumFields(m.currentSample, states) - SumFields(m.previousSample, states)
  {
    if states != [] {
      SumDeltasSplits(m, states[..|states| - 1]);
    }
  }

  lemma {:induction false} DeltaWithinSum(m: Metrics, states: seq<State>, s: State)
    requires forall t: State :: Delta(m, t) >= 0
    requires s in states
    ensures SumDeltas(m, states) >= Delta(m, s)
  {
    var init := states[..|states| - 1];
    if s in init {
      DeltaWithinSum(m, init, s);
    } else {
      SumDeltasNonNegative(m, init);
    }
  }

  lemma {:induction false} SumDeltasNonNegative(m: Metrics, states: seq<State>)
    requires forall t: State :: Delta(m, t) >= 0
    ensures SumDeltas(m, states) >= 0
  {
    if states != [] {
      SumDeltasNonNegative(m, states[..|states| - 1]);
    }
  }

  /** Under Advanced the wrapped time delta is the plain sum of the deltas. */
  lemma TimeDeltaIsSum(m: Metrics)
    requires Advanced(m)
    ensures TimeDelta(m) == SumDeltas(m, STATES)
  {
    SumDeltasSplits(m, STATES);
  }

  /** The unrounded share of the interval spent in a state, in units of one CPU. */
  function Share(m: Metrics, ticks: int): real
    requires TimeDelta(m) > 0
  {
    PerInterval(ticks, TimeDelta(m), NormCPU(m))
  }

  lemma ShareAdds(m: Metrics, a: int, b: int)
    requires TimeDelta(m) > 0
    ensures Share(m, a + b) == Share(m, a) + Share(m, b)
    ensures a >= 0 ==> Share(m, a) >= 0.0
    ensures Share(m, TimeDelta(m)) == NormCPU(m) as real
    ensures Share(m, 0) == 0.0
  {
    var t, n := TimeDelta(m) as real, NormCPU(m) as real;
    QuotientSum(a as real, b as real, t);
    Distributes(a as real / t, b as real / t, n);
    if a >= 0 {
      var q := Quotient(a as real, t);
      ProductOrder(0.0, q, n);
    }
  }

  /** The published percentage of one state is its share, less 2^64 ticks when its delta
      does not fit an int64, then rounded. */
  lemma PctOfState(m: Metrics, s: State)
    requires Advanced(m) && TimeDelta(m) > 0
    ensures Delta(m, s) < TWO_63 ==>
      PublishedValue(m, Pct(s)) == Round(Share(m, Delta(m, s)))
    ensures Delta(m, s) >= TWO_63 ==>
      PublishedValue(m, Pct(s)) == Round(Share(m, Delta(m, s) - TWO_64))
  {
    hide Round;
    hide PerInterval;
    EveryState(s);
    TimeDeltaIsSum(m);
    DeltaWithinSum(m, STATES, s);
    var cpuDelta := Signed(Sub(Field(m.currentSample, s).GetOr(0), Field(m.previousSample, s).GetOr(0)));
    assert cpuDelta == if Delta(m, s) < TWO_63 then Delta(m, s) else Delta(m, s) - TWO_64;
  }

  function SumPublished(event: Event, states: seq<State>): real {
    if states == [] then 0.0
    else
      var s := states[|states| - 1];
      SumPublished(event, states[..|states| - 1]) + if Pct(s) in event then event[Pct(s)] else 0.0
  }

  function CountPublished(event: Event, states: seq<State>): nat {
    if states == [] then 0
    else CountPublished(event, states[..|states| - 1]) + if Pct(states[|states| - 1]) in event then 1 else 0
  }

  ghost predicate DeltasFitSigned(m: Metrics) {
    forall s: State :: Delta(m, s) < TWO_63
  }

  lemma {:induction false} SumNearShares(m: Metrics, opts: MetricOpts, event: Event, states: seq<State>)
    requires Advanced(m) && DeltasFitSigned(m) && opts.percentages
    requires TimeDelta(m) > 0 && IsReport(m, opts, event)
    ensures var k := CountPublished(event, states) as real;
      var exact := Share(m, SumDeltas(m, states));
      exact - 0.00005 * k <= SumPublished(event, states) <= exact + 0.00005 * k
  {
    hide Round;
    hide Share;
    if states == [] {
      ShareAdds(m, 0, 0);
    } else {
      var init, s := states[..|states| - 1], states[|states| - 1];
      SumNearShares(m, opts, event, init);
      ShareAdds(m, SumDeltas(m, init), Delta(m, s));
      ShareAdds(m, Delta(m, s), 0);
      assert Published(m, opts, Pct(s)) <==> Field(m.currentSample, s).Some?;
      if Pct(s) in event {
        PctOfState(m, s);
        RoundNear(Share(m, Delta(m, s)));
      } else {
        assert Delta(m, s) == 0;
      }
    }
  }

  /** What one state's delta of at least 2^63 takes off the sum. */
  function Overshoot(m: Metrics, states: seq<State>, s: State): real
    requires TimeDelta(m) > 0
  {
    if s in states then Share(m, TWO_64) else 0.0
  }

  /** One state publishes at most its share and the rounding, less the overshoot if it is bad. */
  lemma PublishedAtMost(m: Metrics, opts: MetricOpts, event: Event, s: State, bad: State)
    requires Advanced(m) && opts.percentages && TimeDelta(m) > 0 && IsReport(m, opts, event)
    requires Delta(m, bad) >= TWO_63
    ensures (if Pct(s) in event then event[Pct(s)] else 0.0) <=
            Share(m, Delta(m, s)) + (if Pct(s) in event then 0.00005 else 0.0)
            - (if s == bad then Share(m, TWO_64) else 0.0)
  {
    hide Round;
    hide Share;
    ShareAdds(m, 0, 0);
    ShareAdds(m, Delta(m, s), 0);
    ShareAdds(m, Delta(m, s) - TWO_64, TWO_64);
    ShareAdds(m, TWO_64, 0);
    assert Published(m, opts, Pct(s)) <==> Field(m.currentSample, s).Some?;
    if Pct(s) in event {
      PctOfState(m, s);
      RoundedAtMost(Share(m, Delta(m, s)));
      RoundedAtMost(Share(m, Delta(m, s) - TWO_64));
    }
  }

  lemma {:induction false} SumBelowShares(m: Metrics, opts: MetricOpts, event: Event, states: seq<State>, bad: State)
    requires Advanced(m) && opts.percentages && TimeDelta(m) > 0 && IsReport(m, opts, event)
    requires Delta(m, bad) >= TWO_63
    requires forall i, j :: 0 <= i < j < |states| ==> states[i] != states[j]
    ensures SumPublished(event, states) <=
            Share(m, SumDeltas(m, states)) + 0.00005 * CountPublished(event, states) as real - Overshoot(m, states, bad)
  {
    hide Round;
    hide Share;
    hide IsReport;
    hide Advanced;
    hide Delta;
    hide TimeDelta;
    ShareAdds(m, 0, 0);
    if states != [] {
      var init, s := states[..|states| - 1], states[|states| - 1];
      SumBelowShares(m, opts, event, init, bad);
      ShareAdds(m, SumDeltas(m, init), Delta(m, s));
      PublishedAtMost(m, opts, event, s, bad);
      assert bad in states <==> bad in init || bad == s;
    }
  }

  lemma RoundedAtMost(x: real)
    ensures Round(x) <= x + 0.00005
  {
    if x >= 0.0 {
      RoundNear(x);
    } else {
      RoundNegative(x);
    }
  }

  lemma {:induction false} CountAtMost(event: Event, states: seq<State>)
    ensures CountPublished(event, states) <= |states|
  {
    if states != [] {
      CountAtMost(event, states[..|states| - 1]);
    }
  }

  /** The per-state percentages add up to the number of CPUs, within half a unit of the
      fourth decimal for each one reported, exactly when every delta fits an int64. */
  lemma PercentagesSumToCPUs(m: Metrics, opts: MetricOpts, event: Event)
    requires Advanced(m) && opts.percentages && (m.isTotals ==> m.count >= 1)
    requires TimeDelta(m) > 0 && IsReport(m, opts, event)
    ensures var k := CountPublished(event, STATES) as real;
      var n := (if m.isTotals then m.count else 1) as real;
      (n - 0.00005 * k <= SumPublished(event, STATES) <= n + 0.00005 * k) <==> DeltasFitSigned(m)
  {
    hide Round;
    hide Share;
    TimeDeltaIsSum(m);
    ShareAdds(m, 0, 0);
    if DeltasFitSigned(m) {
      SumNearShares(m, opts, event, STATES);
    } else {
      var bad: State :| Delta(m, bad) >= TWO_63;
      EveryState(bad);
      SumBelowShares(m, opts, event, STATES, bad);
      CountAtMost(event, STATES);
      ShareAdds(m, TimeDelta(m), TWO_64 - TimeDelta(m));
      ShareAdds(m, TWO_64 - TimeDelta(m), 0);
    }
  }

  /** A single idle counter that advanced by 2^63 ticks, on one CPU. */
  const HUGE := Metrics(NO_CPU.(idle := Some(0)), NO_CPU.(idle := Some(TWO_63)), 1, NO_INFO, true)

  lemma HugeAdvanced()
    ensures Advanced(HUGE) && TimeDelta(HUGE) == Delta(HUGE, Idle) == TWO_63 && NormCPU(HUGE) == 1
  {
    SumDeltasSplits(HUGE, STATES);
    SumOfAllEight(HUGE.currentSample);
    SumOfAllEight(HUGE.previousSample);
    assert Advanced(HUGE);
    TimeDeltaIsSum(HUGE);
  }

  /** One failing sample. */
  lemma HugeDeltaFails()
    ensures Advanced(HUGE) && TimeDelta(HUGE) == TWO_63
    ensures forall event :: IsReport(HUGE, MetricOpts(false, true, false), event) ==>
      !(1.0 - 0.0004 <= SumPublished(event, STATES) <= 1.0 + 0.0004)
  {
    hide Share;
    hide IsReport;
    hide Advanced;
    hide Delta;
    hide TimeDelta;
    var opts := MetricOpts(false, true, false);
    HugeAdvanced();
    TimeDeltaIsSum(HUGE);
    forall event | IsReport(HUGE, opts, event)
      ensures !(1.0 - 0.0004 <= SumPublished(event, STATES) <= 1.0 + 0.0004)
    {
      EveryState(Idle);
      SumBelowShares(HUGE, opts, event, STATES, Idle);
      CountAtMost(event, STATES);
      ShareAdds(HUGE, TWO_63, TWO_64 - TWO_63);
      ShareAdds(HUGE, TWO_64 - TWO_63, 0);
    }
  }

  function Reported(event: Event, k: Key): real {
    if k in event then event[k] else 0.0
  }

  lemma TotalPctShares(m: Metrics, opts: MetricOpts, event: Event)
    requires Advanced(m) && DeltasFitSigned(m) && opts.percentages
    requires TimeDelta(m) > 0 && IsReport(m, opts, event)
    ensures var n := NormCPU(m) as real;
      var total := event[TotalPct];
      var busy := Share(m, TimeDelta(m) - Delta(m, Idle) - Delta(m, Wait));
      && total == n - Reported(event, Pct(Idle)) - Reported(event, Pct(Wait))
      && -0.0001 <= total <= n
      && busy - 0.0001 <= total <= busy + 0.0001
  {
    hide Round;
    hide Share;
    var idle, wait := Delta(m, Idle), Delta(m, Wait);
    TimeDeltaIsSum(m);
    IdleAndWaitWithinSum(m);
    ShareAdds(m, idle, wait);
    ShareAdds(m, TimeDelta(m) - idle - wait, idle + wait);
    ShareAdds(m, idle, 0);
    ShareAdds(m, wait, 0);
    TotalFromIdle(m, opts, event);
    RoundNear(Share(m, idle));
    RoundNear(Share(m, wait));
  }

  /** total.pct is exactly the number of CPUs less the published idle and iowait percentages;
      it lies between -0.0001 and the number of CPUs, within 0.0001 of the unrounded share. */
  lemma TotalPctExact(m: Metrics, opts: MetricOpts, event: Event)
    requires Advanced(m) && DeltasFitSigned(m) && opts.percentages
    requires TimeDelta(m) > 0 && IsReport(m, opts, event)
    ensures var n := (if m.isTotals then m.count else 1) as real;
      var total := event[TotalPct];
      var busyTicks := TimeDelta(m) - Delta(m, Idle) - Delta(m, Wait);
      var busy := busyTicks as real / TimeDelta(m) as real * n;
      && total == n - Reported(event, Pct(Idle)) - Reported(event, Pct(Wait))
      && -0.0001 <= total <= n
      && busy - 0.0001 <= total <= busy + 0.0001
  {
    hide TimeDelta;
    hide Delta;
    hide Reported;
    assert Share(m, TimeDelta(m) - Delta(m, Idle) - Delta(m, Wait))
      == (TimeDelta(m) - Delta(m, Idle) - Delta(m, Wait)) as real / TimeDelta(m) as real * NormCPU(m) as real;
    hide Share;
    TotalPctShares(m, opts, event);
  }

  lemma IdleAndWaitWithinSum(m: Metrics)
    requires forall t: State :: Delta(m, t) >= 0
    ensures Delta(m, Idle) + Delta(m, Wait) <= SumDeltas(m, STATES)
  {
    SumDeltasSplits(m, STATES);
    SumOfAllEight(m.currentSample);
    SumOfAllEight(m.previousSample);
    assert Delta(m, User) >= 0 && Delta(m, Nice) >= 0 && Delta(m, Sys) >= 0;
    assert Delta(m, Irq) >= 0 && Delta(m, SoftIrq) >= 0 && Delta(m, Stolen) >= 0;
  }

  /** The rounding in createTotal changes nothing: both percentages are already on the grid. */
  lemma TotalFromIdle(m: Metrics, opts: MetricOpts, event: Event)
    requires Advanced(m) && DeltasFitSigned(m) && opts.percentages
    requires TimeDelta(m) > 0 && IsReport(m, opts, event)
    ensures Reported(event, Pct(Idle)) == Round(Share(m, Delta(m, Idle)))
    ensures Reported(event, Pct(Wait)) == Round(Share(m, Delta(m, Wait)))
    ensures event[TotalPct] ==
      (if m.isTotals then m.count else 1) as real - Reported(event, Pct(Idle)) - Reported(event, Pct(Wait))
  {
    hide Round;
    hide Share;
    PctOfState(m, Idle);
    PctOfState(m, Wait);
    ShareAdds(m, 0, 0);
    RoundNear(0.0);
    ZeroStaysZero();
    assert Published(m, opts, Pct(Idle)) <==> m.currentSample.idle.Some?;
    assert Published(m, opts, Pct(Wait)) <==> m.currentSample.wait.Some?;
    var i := RoundDigits(10000.0 * Share(m, Delta(m, Idle)));
    var w := RoundDigits(10000.0 * Share(m, Delta(m, Wait)));
    RoundOnGrid(Share(m, Delta(m, Idle)));
    RoundOnGrid(Share(m, Delta(m, Wait)));
    var n := NormCPU(m);
    RoundGrid(10000 * n - i - w);
    assert (10000 * n - i - w) as real / 10000.0 == n as real - i as real / 10000.0 - w as real / 10000.0;
  }

  lemma ZeroStaysZero()
    ensures Round(0.0) == 0.0
  {
    RoundGrid(0);
  }

  /** The normalized entries of a sample are the plain entries of the same sample on one CPU, so
      all that is shown above for CPUs holds of them with one CPU. */
  lemma NormalizedIsOneCPU(m: Metrics, s: State)
    requires TimeDelta(m) > 0
    ensures var core := m.(isTotals := false);
      && NormCPU(core) == 1 && TimeDelta(core) == TimeDelta(m)
      && PublishedValue(m, NormPct(s)) == PublishedValue(core, Pct(s))
      && PublishedValue(m, TotalNormPct) == PublishedValue(core, TotalPct)
      && (Advanced(core) <==> Advanced(m)) && (DeltasFitSigned(core) <==> DeltasFitSigned(m))
  {
    hide CpuMetricTimeDelta;
    hide CreateTotal;
    var core := m.(isTotals := false);
    forall t: State
      ensures Delta(core, t) == Delta(m, t)
    {
    }
    SumDeltasSplits(m, STATES);
    SumDeltasSplits(core, STATES);
  }
}
