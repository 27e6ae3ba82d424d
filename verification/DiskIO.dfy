/** metric/system/diskio: per-device counter deltas, 32-bit rollover and weighted averages. */
module DiskIO {
  import opened GoNumbers
  import opened RealArithmetic
  import opened Rounding
  import opened Wrappers

  const MAX_UINT32: uint64 := 0xFFFF_FFFF
  const CLK_TCK: int := 100

  datatype IOCounters = IOCounters(
    name: string,
    readCount: uint64, mergedReadCount: uint64, readBytes: uint64, readTime: uint64,
    writeCount: uint64, mergedWriteCount: uint64, writeBytes: uint64, writeTime: uint64,
    ioTime: uint64, weightedIO: uint64)

  datatype IOMetric = IOMetric(
    readRequestMergeCountPerSec: real, writeRequestMergeCountPerSec: real,
    readRequestCountPerSec: real, writeRequestCountPerSec: real,
    readBytesPerSec: real, writeBytesPerSec: real,
    avgRequestSize: real, avgQueueSize: real,
    avgAwaitTime: real, avgReadAwaitTime: real, avgWriteAwaitTime: real,
    avgServiceTime: real, busyPct: real)

  const ZERO_METRIC := IOMetric(0.0, 0.0, 0.0, 0.0, 0.0, 0.0, 0.0, 0.0, 0.0, 0.0, 0.0, 0.0, 0.0)

  // ---------- 32-bit rollover ----------

  function FixRollover(current: uint64, prev: uint64): uint64 {
    if current >= prev then current - prev
    else if prev > MAX_UINT32 then 0
    else Add(Sub(MAX_UINT32, prev), current)
  }

  /** What the kernel shows of a counter it keeps in 32 bits. */
  function Low32(n: nat): uint64 {
    n % TWO_32
  }

  /** One sample step: the delta is exact unless the 32-bit counter rolled over, and then
      one unit is lost. */
  lemma RolloverLosesOneUnit(t0: nat, t1: nat)
    requires t0 <= t1 < t0 + TWO_32
    ensures FixRollover(Low32(t1), Low32(t0)) == (t1 - t0) - (t1 / TWO_32 - t0 / TWO_32)
    ensures FixRollover(Low32(t1), Low32(t0)) == t1 - t0 <==> Low32(t1) >= Low32(t0)
  {
    assert t0 == (t0 / TWO_32) * TWO_32 + Low32(t0);
    assert t1 == (t1 / TWO_32) * TWO_32 + Low32(t1);
    assert t1 / TWO_32 - t0 / TWO_32 == if Low32(t1) >= Low32(t0) then 0 else 1;
  }

  /** A counter of more than 32 bits is exact while it advances, and a reset counts for nothing. */
  lemma WideCounters(t0: uint64, t1: uint64)
    ensures t0 <= t1 ==> FixRollover(t1, t0) == t1 - t0
    ensures t1 < t0 && t0 >= TWO_32 ==> FixRollover(t1, t0) == 0
  {
  }

  ghost predicate SampledOftenEnough(samples: seq<nat>) {
    forall i :: 0 <= i < |samples| - 1 ==> samples[i] <= samples[i + 1] < samples[i] + TWO_32
  }

  function SumOfDeltas(samples: seq<nat>): int {
    if |samples| < 2 then 0
    else SumOfDeltas(samples[..|samples| - 1]) +
         FixRollover(Low32(samples[|samples| - 1]), Low32(samples[|samples| - 2]))
  }

  /** Over a whole run the deltas add up to the true advance less one unit per rollover. */
  lemma {:induction false} RolloverConservation(samples: seq<nat>)
    requires |samples| > 0 && SampledOftenEnough(samples)
    ensures var first, last := samples[0], samples[|samples| - 1];
      SumOfDeltas(samples) == (last - first) - (last / TWO_32 - first / TWO_32)
  {
    if |samples| > 1 {
      RolloverConservation(samples[..|samples| - 1]);
      RolloverLosesOneUnit(samples[|samples| - 2], samples[|samples| - 1]);
    }
  }

  /** A counter that passes 2^32 by one operation: the one operation is not seen. */
  lemma RolloverMissesOperation()
    ensures SampledOftenEnough([0xFFFF_FFFF, 0x1_0000_0000]) && SumOfDeltas([0xFFFF_FFFF, 0x1_0000_0000]) == 0
  {
    var samples: seq<nat> := [0xFFFF_FFFF, 0x1_0000_0000];
    assert samples[..1] == [0xFFFF_FFFF];
    assert SumOfDeltas(samples[..1]) == 0;
  }

  // ---------- the metrics of one device ----------

  function ReadIOs(last: IOCounters, counter: IOCounters): uint64 {
    Sub(counter.readCount, last.readCount)
  }

  function WriteIOs(last: IOCounters, counter: IOCounters): uint64 {
    Sub(counter.writeCount, last.writeCount)
  }

  function ReadTicks(last: IOCounters, counter: IOCounters): uint64 {
    FixRollover(counter.readTime, last.readTime)
  }

  function WriteTicks(last: IOCounters, counter: IOCounters): uint64 {
    FixRollover(counter.writeTime, last.writeTime)
  }

  function Ratio(n: uint64, d: uint64): real {
    if d > 0 then n as real / d as real else 0.0
  }

  function PerSec(x: uint64, deltams: real): real
    requires deltams > 0.0
  {
    Round(1000.0 * x as real / deltams)
  }

  function DeviceMetrics(last: IOCounters, counter: IOCounters, deltams: real): IOMetric
    requires deltams > 0.0
  {
    var rdIOs, wrIOs := ReadIOs(last, counter), WriteIOs(last, counter);
    var rdTicks, wrTicks := ReadTicks(last, counter), WriteTicks(last, counter);
    var rdBytes, wrBytes := Sub(counter.readBytes, last.readBytes), Sub(counter.writeBytes, last.writeBytes);
    var ticks := FixRollover(counter.ioTime, last.ioTime);
    var nIOs := Add(rdIOs, wrIOs);
    var busy := Round(100.0 * ticks as real / deltams);
    IOMetric(
      PerSec(Sub(counter.mergedReadCount, last.mergedReadCount), deltams),
      PerSec(Sub(counter.mergedWriteCount, last.mergedWriteCount), deltams),
      PerSec(rdIOs, deltams), PerSec(wrIOs, deltams),
      PerSec(rdBytes, deltams), PerSec(wrBytes, deltams),
      Round(Ratio(Add(rdBytes, wrBytes), nIOs)),
      Round(FixRollover(counter.weightedIO, last.weightedIO) as real / deltams),
      Round(Ratio(Add(rdTicks, wrTicks), nIOs)),
      if rdIOs > 0 then Round(Ratio(rdTicks, rdIOs)) else 0.0,
      if wrIOs > 0 then Round(Ratio(wrTicks, wrIOs)) else 0.0,
      Round(Ratio(ticks, nIOs)),
      if busy > 100.0 then 100.0 else busy)
  }

  /** With reads and writes in the interval and no overflow, the published average wait lies
      between the published read and write waits. */
  lemma AwaitBetweenReadAndWrite(last: IOCounters, counter: IOCounters, deltams: real)
    requires deltams > 0.0
    requires ReadIOs(last, counter) > 0 && WriteIOs(last, counter) > 0
    requires ReadIOs(last, counter) + WriteIOs(last, counter) < TWO_64
    requires ReadTicks(last, counter) + WriteTicks(last, counter) < TWO_64
    ensures var m := DeviceMetrics(last, counter, deltams);
      || m.avgReadAwaitTime <= m.avgAwaitTime <= m.avgWriteAwaitTime
      || m.avgWriteAwaitTime <= m.avgAwaitTime <= m.avgReadAwaitTime
  {
    hide Round;
    hide Ratio;
    hide PerSec;
    hide FixRollover;
    var rt, wt := ReadTicks(last, counter), WriteTicks(last, counter);
    var ri, wi := ReadIOs(last, counter), WriteIOs(last, counter);
    if RatioLeq(rt, ri, wt, wi) {
      RatioBetween(rt, ri, wt, wi);
      RoundMonotone(Ratio(rt, ri), Ratio(rt + wt, ri + wi));
      RoundMonotone(Ratio(rt + wt, ri + wi), Ratio(wt, wi));
    } else {
      RatioBetween(wt, wi, rt, ri);
      RoundMonotone(Ratio(wt, wi), Ratio(wt + rt, wi + ri));
      RoundMonotone(Ratio(wt + rt, wi + ri), Ratio(rt, ri));
    }
  }

  predicate RatioLeq(a: uint64, b: uint64, c: uint64, d: uint64) {
    Ratio(a, b) <= Ratio(c, d)
  }

  /** The mediant inequality for ratios of counters. */
  lemma RatioBetween(a: uint64, b: uint64, c: uint64, d: uint64)
    requires b > 0 && d > 0 && a + c < TWO_64 && b + d < TWO_64
    requires RatioLeq(a, b, c, d)
    ensures Ratio(a, b) <= Ratio(a + c, b + d) <= Ratio(c, d)
  {
    Mediant(a as real, b as real, c as real, d as real);
  }

  /** A rate per second times its interval in milliseconds gives back 1000 times the count, up to
      the rounding of the rate. */
  ghost predicate RateOf(rate: real, count: int, deltams: real) {
    1000.0 * count as real - 0.00005 * deltams <= rate * deltams <= 1000.0 * count as real + 0.00005 * deltams
  }

  lemma PerSecRecoversCount(x: uint64, deltams: real)
    requires deltams > 0.0
    ensures RateOf(PerSec(x, deltams), x, deltams)
  {
    hide Round;
    RoundQuotient(1000.0 * x as real, deltams);
  }

  /** The six published rates are those of the six counter advances, each under its own name,
      and the busy percentage lies between 0 and 100. */
  lemma RatesRecoverCounts(last: IOCounters, counter: IOCounters, deltams: real)
    requires deltams > 0.0
    ensures var m := DeviceMetrics(last, counter, deltams);
      && RateOf(m.readRequestCountPerSec, ReadIOs(last, counter), deltams)
      && RateOf(m.writeRequestCountPerSec, WriteIOs(last, counter), deltams)
      && RateOf(m.readRequestMergeCountPerSec, Sub(counter.mergedReadCount, last.mergedReadCount), deltams)
      && RateOf(m.writeRequestMergeCountPerSec, Sub(counter.mergedWriteCount, last.mergedWriteCount), deltams)
      && RateOf(m.readBytesPerSec, Sub(counter.readBytes, last.readBytes), deltams)
      && RateOf(m.writeBytesPerSec, Sub(counter.writeBytes, last.writeBytes), deltams)
      && 0.0 <= m.busyPct <= 100.0
  {
    hide Round;
    hide PerSec;
    hide RateOf;
    hide Ratio;
    PerSecRecoversCount(ReadIOs(last, counter), deltams);
    PerSecRecoversCount(WriteIOs(last, counter), deltams);
    PerSecRecoversCount(Sub(counter.mergedReadCount, last.mergedReadCount), deltams);
    PerSecRecoversCount(Sub(counter.mergedWriteCount, last.mergedWriteCount), deltams);
    PerSecRecoversCount(Sub(counter.readBytes, last.readBytes), deltams);
    PerSecRecoversCount(Sub(counter.writeBytes, last.writeBytes), deltams);
    BusyNonNegative(FixRollover(counter.ioTime, last.ioTime), deltams);
  }

  lemma BusyNonNegative(ticks: uint64, deltams: real)
    requires deltams > 0.0
    ensures Round(100.0 * ticks as real / deltams) >= 0.0
  {
    RoundQuotient(100.0 * ticks as real, deltams);
  }

  /** An average times the number it is taken over gives back the total, up to its rounding. */
  ghost predicate AverageOf(average: real, total: int, over: real) {
    total as real - 0.00005 * over <= average * over <= total as real + 0.00005 * over
  }

  lemma RatioAverages(total: uint64, count: uint64)
    requires count > 0
    ensures AverageOf(Round(Ratio(total, count)), total, count as real)
  {
    hide Round;
    RoundQuotient(total as real, count as real);
  }

  lemma QueueAverages(total: uint64, deltams: real)
    requires deltams > 0.0
    ensures AverageOf(Round(total as real / deltams), total, deltams)
  {
    hide Round;
    RoundQuotient(total as real, deltams);
  }

  /** Each published average is that of its own total: bytes, waits and service time over the
      operations, the weighted queue time over the interval. */
  lemma AveragesRecoverTotals(last: IOCounters, counter: IOCounters, deltams: real)
    requires deltams > 0.0
    ensures var m := DeviceMetrics(last, counter, deltams);
      var rd, wr := ReadIOs(last, counter), WriteIOs(last, counter);
      var rdTicks, wrTicks := ReadTicks(last, counter), WriteTicks(last, counter);
      var rdBytes, wrBytes := Sub(counter.readBytes, last.readBytes), Sub(counter.writeBytes, last.writeBytes);
      var nIOs := Add(rd, wr);
      && AverageOf(m.avgQueueSize, FixRollover(counter.weightedIO, last.weightedIO), deltams)
      && (rd > 0 ==> AverageOf(m.avgReadAwaitTime, rdTicks, rd as real))
      && (wr > 0 ==> AverageOf(m.avgWriteAwaitTime, wrTicks, wr as real))
      && (nIOs > 0 ==>
            && AverageOf(m.avgRequestSize, Add(rdBytes, wrBytes), nIOs as real)
            && AverageOf(m.avgAwaitTime, Add(rdTicks, wrTicks), nIOs as real)
            && AverageOf(m.avgServiceTime, FixRollover(counter.ioTime, last.ioTime), nIOs as real))
  {
    hide Round;
    hide Ratio;
    hide AverageOf;
    hide PerSec;
    hide FixRollover;
    var rd, wr := ReadIOs(last, counter), WriteIOs(last, counter);
    var rdTicks, wrTicks := ReadTicks(last, counter), WriteTicks(last, counter);
    QueueAverages(FixRollover(counter.weightedIO, last.weightedIO), deltams);
    if rd > 0 {
      RatioAverages(rdTicks, rd);
    }
    if wr > 0 {
      RatioAverages(wrTicks, wr);
    }
    if Add(rd, wr) > 0 {
      RatioAverages(Add(Sub(counter.readBytes, last.readBytes), Sub(counter.writeBytes, last.writeBytes)), Add(rd, wr));
      RatioAverages(Add(rdTicks, wrTicks), Add(rd, wr));
      RatioAverages(FixRollover(counter.ioTime, last.ioTime), Add(rd, wr));
    }
  }

  // ---------- the sampler ----------

  function DeltaMs(curTotal: uint64, lastTotal: uint64, numCPU: int): real
    requires numCPU > 0
  {
    1000.0 * Sub(curTotal, lastTotal) as real / numCPU as real / CLK_TCK as real
  }

  /** What one CalcIOStatistics call leaves remembered: an error keeps the old counter. */
  function Remember(last: map<string, IOCounters>, deltams: real, counter: IOCounters): map<string, IOCounters> {
    if counter.name in last && deltams <= 0.0 then last else last[counter.name := counter]
  }

  /** What one CalcIOStatistics call answers. */
  function Answer(last: map<string, IOCounters>, deltams: real, counter: IOCounters): Result<IOMetric> {
    if counter.name !in last then Ok(ZERO_METRIC)
    else if deltams <= 0.0 then Err("no cpu time between close sampling and open sampling")
    else Ok(DeviceMetrics(last[counter.name], counter, deltams))
  }

  class IOStat {
    var lastDiskIOCounters: map<string, IOCounters>
    var lastCPU: uint64  // total of the CPU times at the last CloseSampling
    var curCPU: uint64   // total of the CPU times at the last OpenSampling

    constructor ()
      ensures lastDiskIOCounters == map[] && lastCPU == 0 && curCPU == 0
    {
      lastDiskIOCounters := map[];
      lastCPU, curCPU := 0, 0;
    }

    method OpenSampling(total: Result<uint64>) returns (ok: bool)
      modifies this`curCPU
      ensures ok == total.Ok? && curCPU == total.GetOr(old(curCPU))
    {
      if total.Ok? {
        curCPU := total.value;
      }
      ok := total.Ok?;
    }

    method CalcIOStatistics(counter: IOCounters, numCPU: int) returns (r: Result<IOMetric>)
      requires numCPU > 0
      modifies this`lastDiskIOCounters
      ensures lastDiskIOCounters == Remember(old(lastDiskIOCounters), DeltaMs(curCPU, lastCPU, numCPU), counter)
      ensures r == Answer(old(lastDiskIOCounters), DeltaMs(curCPU, lastCPU, numCPU), counter)
    {
      if counter.name !in lastDiskIOCounters {
        lastDiskIOCounters := lastDiskIOCounters[counter.name := counter];
        return Ok(ZERO_METRIC);
      }
      var last := lastDiskIOCounters[counter.name];
      var deltams := DeltaMs(curCPU, lastCPU, numCPU);
      if deltams <= 0.0 {
        return Err("no cpu time between close sampling and open sampling");
      }
      r := Ok(DeviceMetrics(last, counter, deltams));
      lastDiskIOCounters := lastDiskIOCounters[counter.name := counter];
    }

    method CloseSampling()
      modifies this`lastCPU
      ensures lastCPU == curCPU
    {
      lastCPU := curCPU;
    }
  }

  // ---------- one call on a known device ----------

  /** The six rates over an interval of so many milliseconds, each of its own counter. */
  ghost predicate RatesOver(last: IOCounters, counter: IOCounters, ms: real, m: IOMetric) {
    && RateOf(m.readRequestCountPerSec, Sub(counter.readCount, last.readCount), ms)
    && RateOf(m.writeRequestCountPerSec, Sub(counter.writeCount, last.writeCount), ms)
    && RateOf(m.readRequestMergeCountPerSec, Sub(counter.mergedReadCount, last.mergedReadCount), ms)
    && RateOf(m.writeRequestMergeCountPerSec, Sub(counter.mergedWriteCount, last.mergedWriteCount), ms)
    && RateOf(m.readBytesPerSec, Sub(counter.readBytes, last.readBytes), ms)
    && RateOf(m.writeBytesPerSec, Sub(counter.writeBytes, last.writeBytes), ms)
  }

  /** The averages per operation, per read and per write; zero without one. */
  ghost predicate AveragesOver(last: IOCounters, counter: IOCounters, m: IOMetric) {
    var rd, wr := Sub(counter.readCount, last.readCount), Sub(counter.writeCount, last.writeCount);
    var bytes := Add(Sub(counter.readBytes, last.readBytes), Sub(counter.writeBytes, last.writeBytes));
    var readWait := FixRollover(counter.readTime, last.readTime);
    var writeWait := FixRollover(counter.writeTime, last.writeTime);
    var busy, ops := FixRollover(counter.ioTime, last.ioTime), Add(rd, wr);
    && (if rd > 0 then AverageOf(m.avgReadAwaitTime, readWait, rd as real) else m.avgReadAwaitTime == 0.0)
    && (if wr > 0 then AverageOf(m.avgWriteAwaitTime, writeWait, wr as real) else m.avgWriteAwaitTime == 0.0)
    && (if ops > 0 then
          && AverageOf(m.avgRequestSize, bytes, ops as real)
          && AverageOf(m.avgAwaitTime, Add(readWait, writeWait), ops as real)
          && AverageOf(m.avgServiceTime, busy, ops as real)
        else m.avgRequestSize == m.avgAwaitTime == m.avgServiceTime == 0.0)
  }

  /** The queue size over the interval, and the busy share of it in percent, at most 100. */
  ghost predicate BusyOver(last: IOCounters, counter: IOCounters, ms: real, m: IOMetric) {
    var busy, queue := FixRollover(counter.ioTime, last.ioTime), FixRollover(counter.weightedIO, last.weightedIO);
    && AverageOf(m.avgQueueSize, queue, ms)
    && 0.0 <= m.busyPct <= 100.0
    && (m.busyPct < 100.0 ==> AverageOf(m.busyPct, 100 * busy, ms))
    && (m.busyPct == 100.0 ==> 100.0 * busy as real >= (100.0 - 0.00005) * ms)
  }

  lemma ZeroRounds()
    ensures Round(0.0) == 0.0
  {
    RoundGrid(0);
  }

  lemma FullShare(total: real, pct: real, ms: real, full: real, e: real)
    requires ms > 0.0 && pct >= full && pct * ms <= total + e * ms
    ensures total >= (full - e) * ms
  {
    ProductOrder(full, pct, ms);
    Distributes(full, -e, ms);
  }

  lemma BusyShare(busy: uint64, ms: real)
    requires ms > 0.0
    ensures var pct := Round(100.0 * busy as real / ms);
      AverageOf(pct, 100 * busy, ms) && (pct >= 100.0 ==> 100.0 * busy as real >= (100.0 - 0.00005) * ms)
  {
    hide Round;
    var pct := Round(100.0 * busy as real / ms);
    RoundQuotient(100.0 * busy as real, ms);
    if pct >= 100.0 {
      FullShare(100.0 * busy as real, pct, ms, 100.0, 0.00005);
    }
  }

  lemma MetricsOver(last: IOCounters, counter: IOCounters, ms: real)
    requires ms > 0.0
    ensures var m := DeviceMetrics(last, counter, ms);
      RatesOver(last, counter, ms, m) && AveragesOver(last, counter, m) && BusyOver(last, counter, ms, m)
  {
    hide Round;
    hide PerSec;
    hide RateOf;
    hide AverageOf;
    hide FixRollover;
    RatesRecoverCounts(last, counter, ms);
    AveragesRecoverTotals(last, counter, ms);
    BusyShare(FixRollover(counter.ioTime, last.ioTime), ms);
    ZeroRounds();
  }

  lemma IntervalOfTicks(lastCPU: uint64, curCPU: uint64, numCPU: int, ticks: nat)
    requires numCPU > 0 && curCPU == lastCPU + numCPU * ticks
    ensures DeltaMs(curCPU, lastCPU, numCPU) == 10.0 * ticks as real
  {
    var n, t := numCPU as real, ticks as real;
    assert Sub(curCPU, lastCPU) == numCPU * ticks;
    assert (numCPU * ticks) as real == t * n;
    QuotientOf(n, 1000.0 * t, 1000.0 * (t * n));
  }

  /** When every CPU ticked so often between the samplings, a hundred times a second, a call on a
      known device succeeds: its rates, its queue and its busy share are over the milliseconds
      that took, its averages over the operations, and it remembers the new counter. */
  lemma AnswerOverInterval(last: map<string, IOCounters>, counter: IOCounters,
                           lastCPU: uint64, curCPU: uint64, numCPU: int, ticks: nat)
    requires numCPU > 0 && ticks > 0 && curCPU == lastCPU + numCPU * ticks && counter.name in last
    ensures var before, ms := last[counter.name], 10.0 * ticks as real;
      var r := Answer(last, DeltaMs(curCPU, lastCPU, numCPU), counter);
      && r.Ok? && RatesOver(before, counter, ms, r.value) && AveragesOver(before, counter, r.value)
      && BusyOver(before, counter, ms, r.value)
      && Remember(last, DeltaMs(curCPU, lastCPU, numCPU), counter) == last[counter.name := counter]
  {
    hide DeviceMetrics;
    hide RatesOver;
    hide AveragesOver;
    hide BusyOver;
    IntervalOfTicks(lastCPU, curCPU, numCPU, ticks);
    MetricsOver(last[counter.name], counter, 10.0 * ticks as real);
  }

  /** A first sample gives zeros; later ones fail, and leave the memory alone, exactly when the CPU
      total did not move between the samplings. */
  lemma FailsExactly(last: map<string, IOCounters>, counter: IOCounters, lastCPU: uint64, curCPU: uint64, numCPU: int)
    requires numCPU > 0
    ensures var ms := DeltaMs(curCPU, lastCPU, numCPU);
      && (counter.name !in last ==>
            && Answer(last, ms, counter) == Ok(ZERO_METRIC)
            && Remember(last, ms, counter) == last[counter.name := counter])
      && (Answer(last, ms, counter).Err? <==> counter.name in last && curCPU == lastCPU)
      && (Answer(last, ms, counter).Err? ==> Remember(last, ms, counter) == last)
  {
    hide DeviceMetrics;
    IntervalSign(Sub(curCPU, lastCPU), numCPU);
  }

  lemma IntervalSign(ticks: uint64, numCPU: int)
    requires numCPU > 0
    ensures 1000.0 * ticks as real / numCPU as real / CLK_TCK as real > 0.0 <==> ticks > 0
  {
    var q := Quotient(1000.0 * ticks as real, numCPU as real);
    if ticks > 0 && q <= 0.0 {
      ProductOrder(q, 0.0, numCPU as real);
    }
  }

  // ---------- runs over many devices ----------

  datatype Call = Call(deltams: real, counter: IOCounters)

  function Run(last: map<string, IOCounters>, calls: seq<Call>): map<string, IOCounters>
    decreases |calls|
  {
    if calls == [] then last
    else Run(Remember(last, calls[0].deltams, calls[0].counter), calls[1..])
  }

  datatype IOCount = IOCount(readIOs: int, writeIOs: int)

  /** The reads and writes a call turns into rates: none on a first sample or an error. */
  function AccountedBy(last: map<string, IOCounters>, call: Call): IOCount {
    var name := call.counter.name;
    if name !in last || call.deltams <= 0.0 then IOCount(0, 0)
    else IOCount(ReadIOs(last[name], call.counter), WriteIOs(last[name], call.counter))
  }

  function Accounted(last: map<string, IOCounters>, calls: seq<Call>, device: string): IOCount
    decreases |calls|
  {
    if calls == [] then IOCount(0, 0)
    else
      var rest := Accounted(Remember(last, calls[0].deltams, calls[0].counter), calls[1..], device);
      if calls[0].counter.name != device then rest
      else
        var c := AccountedBy(last, calls[0]);
        IOCount(c.readIOs + rest.readIOs, c.writeIOs + rest.writeIOs)
  }

  /** One call on a device accounts for what it moves the remembered counter by. */
  lemma AccountedMoves(last: map<string, IOCounters>, call: Call)
    requires call.counter.name in last
    ensures var device := call.counter.name;
      var next := Remember(last, call.deltams, call.counter);
      && device in next
      && Wrap(AccountedBy(last, call).readIOs) == Sub(next[device].readCount, last[device].readCount)
      && Wrap(AccountedBy(last, call).writeIOs) == Sub(next[device].writeCount, last[device].writeCount)
  {
  }

  /** For a device already known, everything accounted adds up, modulo 2^64, to its latest
      remembered counter less the one it started from: an error loses nothing. */
  lemma {:induction false} AccountingConserved(last: map<string, IOCounters>, calls: seq<Call>, device: string)
    requires device in last
    ensures var final := Run(last, calls);
      && device in final
      && Wrap(Accounted(last, calls, device).readIOs) == Sub(final[device].readCount, last[device].readCount)
      && Wrap(Accounted(last, calls, device).writeIOs) == Sub(final[device].writeCount, last[device].writeCount)
    decreases |calls|
  {
    hide Wrap;
    hide Sub;
    hide AccountedBy;
    if calls == [] {
      NothingAccounted(last[device].readCount);
      NothingAccounted(last[device].writeCount);
    } else {
      var next := Remember(last, calls[0].deltams, calls[0].counter);
      AccountingConserved(next, calls[1..], device);
      if calls[0].counter.name == device {
        AccountedMoves(last, calls[0]);
        var c, rest := AccountedBy(last, calls[0]), Accounted(next, calls[1..], device);
        var final := Run(last, calls);
        Telescope(c.readIOs, rest.readIOs, last[device].readCount, next[device].readCount, final[device].readCount);
        Telescope(c.writeIOs, rest.writeIOs,
                  last[device].writeCount, next[device].writeCount, final[device].writeCount);
      }
    }
  }

  lemma NothingAccounted(n: uint64)
    ensures Wrap(0) == Sub(n, n)
  {
  }

  lemma Telescope(first: int, rest: int, a: uint64, b: uint64, c: uint64)
    requires Wrap(first) == Sub(b, a) && Wrap(rest) == Sub(c, b)
    ensures Wrap(first + rest) == Sub(c, a)
  {
    WrapAbsorbs(first, rest);
    WrapAbsorbs(rest, Sub(b, a));
    assert Wrap(first + rest) == Wrap(Sub(c, b) + Sub(b, a));
  }

  function FirstSample(calls: seq<Call>, device: string): Option<IOCounters> {
    if calls == [] then None
    else if calls[0].counter.name == device then Some(calls[0].counter)
    else FirstSample(calls[1..], device)
  }

  /** From an empty sampler: a device is remembered exactly when it was sampled, and its
      accounted total is its latest accepted counter less its first sample. */
  lemma {:induction false} AccountingFromFirstSample(last: map<string, IOCounters>, calls: seq<Call>, device: string)
    requires device !in last
    ensures device in Run(last, calls) <==> FirstSample(calls, device).Some?
    ensures FirstSample(calls, device).Some? ==>
      var final, first := Run(last, calls)[device], FirstSample(calls, device).value;
      && Wrap(Accounted(last, calls, device).readIOs) == Sub(final.readCount, first.readCount)
      && Wrap(Accounted(last, calls, device).writeIOs) == Sub(final.writeCount, first.writeCount)
    decreases |calls|
  {
    if calls != [] {
      var next := Remember(last, calls[0].deltams, calls[0].counter);
      if calls[0].counter.name == device {
        AccountingConserved(next, calls[1..], device);
      } else {
        AccountingFromFirstSample(next, calls[1..], device);
      }
    }
  }

  function OnlyDevice(calls: seq<Call>, device: string): seq<Call> {
    if calls == [] then []
    else if calls[0].counter.name == device then [calls[0]] + OnlyDevice(calls[1..], device)
    else OnlyDevice(calls[1..], device)
  }

  ghost predicate SameFor(m0: map<string, IOCounters>, m1: map<string, IOCounters>, device: string) {
    (device in m0 <==> device in m1) && (device in m0 ==> m0[device] == m1[device])
  }

  /** Calls on other devices are invisible: removing them all changes neither what is
      remembered of a device nor what was accounted to it. */
  lemma {:induction false} DevicesIsolated(m0: map<string, IOCounters>, m1: map<string, IOCounters>,
                                           calls: seq<Call>, device: string)
    requires SameFor(m0, m1, device)
    ensures SameFor(Run(m0, calls), Run(m1, OnlyDevice(calls, device)), device)
    ensures Accounted(m0, calls, device) == Accounted(m1, OnlyDevice(calls, device), device)
    decreases |calls|
  {
    if calls != [] {
      var next0 := Remember(m0, calls[0].deltams, calls[0].counter);
      if calls[0].counter.name == device {
        var next1 := Remember(m1, calls[0].deltams, calls[0].counter);
        DevicesIsolated(next0, next1, calls[1..], device);
        assert OnlyDevice(calls, device)[1..] == OnlyDevice(calls[1..], device);
      } else {
        DevicesIsolated(next0, m1, calls[1..], device);
      }
    }
  }
}
