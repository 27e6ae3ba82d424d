/** metric/system/process/helpers.go: CPU percentages between two samples of a process. */
module CpuPercent {
  import opened GoNumbers
  import opened ProcessState
  import opened RealArithmetic
  import opened Rounding
  import opened Wrappers

  const NS_PER_MS: int := 1_000_000

  /** The whole milliseconds from one sample to the next, truncated towards zero as in Go. */
  function ElapsedMs(s0: ProcState, s1: ProcState): int {
    var d := s1.sampleTime - s0.sampleTime;
    if d >= 0 then d / NS_PER_MS else -(-d / NS_PER_MS)
  }

  function TickDelta(s0: ProcState, s1: ProcState): int64 {
    Signed(Sub(s1.cpu.total.ticks.GetOr(0), s0.cpu.total.ticks.GetOr(0)))
  }

  /** The share of one CPU used in the interval, before rounding. */
  function ExactPct(s0: ProcState, s1: ProcState): real
    requires ElapsedMs(s0, s1) != 0
  {
    TickDelta(s0, s1) as real / ElapsedMs(s0, s1) as real
  }

  /** A zero-length interval gives no percentage. */
  function GetProcCPUPercentage(s0: ProcState, s1: ProcState, numCPU: int): ProcState
    requires numCPU > 0
  {
    if s0.cpu.total.ticks.None? || s1.cpu.total.ticks.None? || ElapsedMs(s0, s1) == 0 then s1
    else
      var pct := ExactPct(s0, s1);
      s1.(cpu := s1.cpu.(total := s1.cpu.total.(
        normPct := Some(Round(pct / numCPU as real)),
        pct := Some(Round(pct)))))
  }

  /** s1 carries the percentages computed against s0. */
  predicate Follows(s0: ProcState, s1: ProcState, numCPU: int)
    requires numCPU > 0
  {
    GetProcCPUPercentage(s0, s1, numCPU) == s1
  }

  /** Only the two percentages change, so doing it twice is doing it once. */
  lemma PercentageFollows(s0: ProcState, s1: ProcState, numCPU: int)
    requires numCPU > 0
    ensures var r := GetProcCPUPercentage(s0, s1, numCPU);
      && Follows(s0, r, numCPU)
      && r == s1.(cpu := s1.cpu.(total := s1.cpu.total.(pct := r.cpu.total.pct, normPct := r.cpu.total.normPct)))
  {
    hide Round;
  }

  /** The normalized percentage times the number of CPUs is the percentage, up to its rounding. */
  lemma NormalizedPct(s0: ProcState, s1: ProcState, numCPU: int)
    requires numCPU > 0 && ElapsedMs(s0, s1) > 0 && TickDelta(s0, s1) >= 0
    requires s0.cpu.total.ticks.Some? && s1.cpu.total.ticks.Some?
    ensures var norm := GetProcCPUPercentage(s0, s1, numCPU).cpu.total.normPct;
      var n := numCPU as real;
      norm.Some? && ExactPct(s0, s1) - 0.00005 * n <= norm.value * n <= ExactPct(s0, s1) + 0.00005 * n
  {
    hide Round;
    var q := Quotient(TickDelta(s0, s1) as real, ElapsedMs(s0, s1) as real);
    RoundQuotient(ExactPct(s0, s1), numCPU as real);
  }

  /** The total without its percentages. */
  function Blank(s: ProcState): ProcState {
    s.(cpu := s.cpu.(total := s.cpu.total.(pct := None, normPct := None)))
  }

  /** In terms of ticks and nanoseconds: the ticks used over the whole milliseconds elapsed, for one
      CPU and for each of them; no percentage where no whole millisecond passed. */
  ghost predicate PercentagesOf(total: CPUTotal, used: int, elapsedNs: int, numCPU: int)
    requires elapsedNs >= 0 && numCPU > 0
  {
    var ms := elapsedNs / 1_000_000;
    if ms == 0 then total.pct.None? && total.normPct.None?
    else
      && total.pct == Some(Round(used as real / ms as real))
      && total.normPct == Some(Round(used as real / ms as real / numCPU as real))
  }

  lemma PercentagesFromTicks(s0: ProcState, s1: ProcState, numCPU: int)
    requires numCPU > 0 && s0.sampleTime <= s1.sampleTime
    requires s0.cpu.total.ticks.Some? && s1.cpu.total.ticks.Some?
    requires -TWO_63 <= s1.cpu.total.ticks.value - s0.cpu.total.ticks.value < TWO_63
    ensures var r := GetProcCPUPercentage(s0, Blank(s1), numCPU);
      var used := s1.cpu.total.ticks.value - s0.cpu.total.ticks.value;
      PercentagesOf(r.cpu.total, used, s1.sampleTime - s0.sampleTime, numCPU)
  {
    hide Round;
    assert TickDelta(s0, s1) == s1.cpu.total.ticks.value - s0.cpu.total.ticks.value;
  }

  // ---------- drift over a history of samples ----------

  /** Either nothing was sampled, or at least a millisecond passed and the ticks advanced. */
  predicate Advances(s0: ProcState, s1: ProcState, numCPU: int)
    requires numCPU > 0
  {
    s0 == s1 ||
    (&& Follows(s0, s1, numCPU) && ElapsedMs(s0, s1) >= 1
     && s0.cpu.total.ticks.Some? && s1.cpu.total.ticks.Some?
     && 0 <= s1.cpu.total.ticks.value - s0.cpu.total.ticks.value < TWO_63)
  }

  predicate History(samples: seq<ProcState>, numCPU: int)
    requires numCPU > 0
  {
    && (forall i :: 0 <= i < |samples| ==> samples[i].cpu.total.ticks.Some?)
    && (forall i :: 0 <= i < |samples| - 1 ==> Advances(samples[i], samples[i + 1], numCPU))
  }

  function TotalMs(samples: seq<ProcState>): int {
    if |samples| < 2 then 0
    else TotalMs(samples[..|samples| - 1]) + ElapsedMs(samples[|samples| - 2], samples[|samples| - 1])
  }

  /** The published percentage weighted by its interval. */
  function Published(s0: ProcState, s1: ProcState): real {
    s1.cpu.total.pct.GetOr(0.0) * ElapsedMs(s0, s1) as real
  }

  /** The same before rounding. */
  function Unrounded(s0: ProcState, s1: ProcState): real {
    if ElapsedMs(s0, s1) == 0 then 0.0 else ExactPct(s0, s1) * ElapsedMs(s0, s1) as real
  }

  function TotalPublished(samples: seq<ProcState>): real {
    if |samples| < 2 then 0.0
    else TotalPublished(samples[..|samples| - 1]) + Published(samples[|samples| - 2], samples[|samples| - 1])
  }

  function TotalUnrounded(samples: seq<ProcState>): real {
    if |samples| < 2 then 0.0
    else TotalUnrounded(samples[..|samples| - 1]) + Unrounded(samples[|samples| - 2], samples[|samples| - 1])
  }

  function TicksUsed(s0: ProcState, s1: ProcState): int {
    s1.cpu.total.ticks.GetOr(0) - s0.cpu.total.ticks.GetOr(0)
  }

  /** Half a unit of the fourth decimal, for each millisecond. */
  function RoundingOver(ms: int): real {
    0.00005 * ms as real
  }

  /** One interval: the unrounded percentage gives back the ticks exactly, the published one
      within the rounding. */
  lemma IntervalGivesTicks(s0: ProcState, s1: ProcState, numCPU: int)
    requires numCPU > 0 && Advances(s0, s1, numCPU)
    ensures var ticks, ms := TicksUsed(s0, s1) as real, ElapsedMs(s0, s1);
      && Unrounded(s0, s1) == ticks
      && ticks - RoundingOver(ms) <= Published(s0, s1) <= ticks + RoundingOver(ms)
  {
    hide Round;
    var ms := ElapsedMs(s0, s1) as real;
    if s0 == s1 {
      assert ElapsedMs(s0, s1) == 0;
    } else {
      assert TickDelta(s0, s1) == TicksUsed(s0, s1);
      RoundQuotient(TickDelta(s0, s1) as real, ms);
      var q := Quotient(TickDelta(s0, s1) as real, ms);
    }
  }

  /** Over a whole history the unrounded percentages times their intervals add up to exactly
      the ticks used, and the published ones stay within half a unit of the fourth decimal
      times the time elapsed. */
  lemma {:induction false} PercentagesDoNotDrift(samples: seq<ProcState>, numCPU: int)
    requires numCPU > 0 && |samples| > 0 && History(samples, numCPU)
    ensures var ticks := TicksUsed(samples[0], samples[|samples| - 1]) as real;
      && TotalUnrounded(samples) == ticks
      && ticks - RoundingOver(TotalMs(samples)) <= TotalPublished(samples) <= ticks + RoundingOver(TotalMs(samples))
  {
    hide Advances;
    hide Published;
    hide Unrounded;
    hide ElapsedMs;
    if |samples| > 1 {
      var init, s0, s1 := samples[..|samples| - 1], samples[|samples| - 2], samples[|samples| - 1];
      PercentagesDoNotDrift(init, numCPU);
      assert init[|init| - 1] == s0 && init[0] == samples[0];
      assert Advances(samples[|samples| - 2], samples[|samples| - 2 + 1], numCPU);
      IntervalGivesTicks(s0, s1, numCPU);
    }
  }
}
