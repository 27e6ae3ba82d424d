/** metric/system/process/process_types.go: one sample of one process. */
module ProcessState {
  import opened GoNumbers
  import opened Wrappers

  datatype PidState =
    | Dead | Running | Sleeping | Idle | DiskSleep | Stopped | Zombie | WakeKill | Waking | Parked | Unknown

  datatype CPUTotal = CPUTotal(value: Option<real>, ticks: Option<uint64>, pct: Option<real>, normPct: Option<real>)

  const NO_TOTAL := CPUTotal(None, None, None, None)

  datatype ProcCPU = ProcCPU(
    startTimeMs: uint64, total: CPUTotal, userTicks: Option<uint64>, systemTicks: Option<uint64>)

  const NO_CPU := ProcCPU(0, NO_TOTAL, None, None)

  /** env is None for the nil map; sampleTime is in nanoseconds. */
  datatype ProcState = ProcState(
    name: string, state: PidState, pid: Option<int>, ppid: Option<int>, pgid: Option<int>,
    args: seq<string>, cmdline: string, env: Option<map<string, string>>,
    cpu: ProcCPU, rssBytes: Option<uint64>, sampleTime: int)

  const NO_PROCESS := ProcState("", Unknown, None, None, None, [], "", None, NO_CPU, None, 0)

  type ProcsMap = map<int, ProcState>
}
