/** metric/system/process/process_linux_common.go: reading /proc/PID/stat. */
module ProcStat {
  import opened Decimal
  import opened GoNumbers
  import opened ProcessState
  import opened Strings
  import opened Wrappers

  const MS_PER_TICK: int := 10  // 1000 milliseconds over 100 clock ticks

  function PidStateOf(b: char): PidState {
    match b
    case 'S' => Sleeping
    case 'R' => Running
    case 'D' => DiskSleep
    case 'I' => Idle
    case 'T' => Stopped
    case 'Z' => Zombie
    case 'X' => Dead
    case 'x' => Dead
    case 'K' => WakeKill
    case 'W' => Waking
    case 'P' => Parked
    case _ => Unknown
  }

  /** The letters of a state in section "/proc/pid/stat" of proc(5). */
  function Letters(state: PidState): string {
    match state
    case Running => "R"
    case Sleeping => "S"
    case DiskSleep => "D"
    case Zombie => "Z"
    case Stopped => "T"
    case Dead => "Xx"
    case WakeKill => "K"
    case Waking => "W"
    case Parked => "P"
    case Idle => "I"
    case Unknown => ""
  }

  /** Each letter is read as its own state, and any other character as unknown; so is the letter
      of a tracing stop, 't'. */
  lemma StateOfLetter(b: char, state: PidState)
    ensures state != Unknown ==> (PidStateOf(b) == state <==> b in Letters(state))
    ensures PidStateOf(b) == Unknown <==> b !in "RSDZTXxKWPI"
    ensures PidStateOf('t') == Unknown
  {
  }

  /** The first position of a character; the length of the text without one. */
  function IndexOf(s: string, c: char): nat {
    if s == "" || s[0] == c then 0 else 1 + IndexOf(s[1..], c)
  }

  /** The last position of a character; -1 without one. */
  function LastIndexOf(s: string, c: char): int {
    if s == "" then -1
    else if s[|s| - 1] == c then |s| - 1
    else LastIndexOf(s[..|s| - 1], c)
  }

  datatype Info = Info(name: string, state: PidState, ppid: int, pgid: int)

  /** The name between the first '(' and the last ')', and the three fields that follow. */
  function ParseStat(data: string): Result<Info> {
    var l, r := IndexOf(data, '('), LastIndexOf(data, ')');
    if l == |data| || r < 0 || l >= r || r + 2 >= |data| then Err("failed to extract comm")
    else
      var fields := Fields(data[r + 2..]);
      if |fields| <= 36 then Err("expected more stat fields")
      else
        var ppid := ScanInt(fields[1] + " " + fields[2]);
        if ppid.Err? || fields[0] == "" then Err("failed to parse stat fields")
        else
          var pgid := ScanInt(ppid.value.rest);
          if pgid.Err? then Err("failed to parse stat fields")
          else Ok(Info(data[l + 1..r], PidStateOf(fields[0][0]), ppid.value.value, pgid.value.value))
  }

  datatype CPUTime = CPUTime(user: uint64, system: uint64, total: uint64, startMs: uint64)

  /** Fields 13, 14 and 21 of the whole line, in milliseconds; the start is since the epoch. */
  function ParseCPUTime(data: string, bootTime: uint64): Result<CPUTime>
    requires |Fields(data)| > 21
  {
    var fields := Fields(data);
    var user, sys, start := ParseUint(fields[13]), ParseUint(fields[14]), ParseUint(fields[21]);
    if user.Err? || sys.Err? || start.Err? then Err("error parsing CPU times")
    else
      var u, s := Wrap(user.value * MS_PER_TICK), Wrap(sys.value * MS_PER_TICK);
      Ok(CPUTime(u, s, Add(u, s), Wrap(Add(start.value / 100, bootTime) * 1000)))
  }

  lemma {:induction false} LastIndexInRange(s: string, c: char)
    ensures -1 <= LastIndexOf(s, c) < |s|
  {
    if s != "" {
      LastIndexInRange(s[..|s| - 1], c);
    }
  }

  /** A line the first reader accepts always has the fields the second one indexes. */
  lemma AcceptedHasFields(data: string)
    requires ParseStat(data).Ok?
    ensures |Fields(data)| > 21
  {
    var r := LastIndexOf(data, ')');
    LastIndexInRange(data, ')');
    FieldsOfSuffix(data[..r + 2], data[r + 2..]);
    assert data == data[..r + 2] + data[r + 2..];
  }

  // ---------- printed lines ----------

  /** A stat line as the kernel prints it: rest are the fields after the process group. */
  datatype Stat = Stat(pid: nat, comm: string, state: char, ppid: int, pgrp: int, rest: seq<string>)

  function AfterComm(s: Stat): seq<string> {
    [[s.state], PrintInt(s.ppid), PrintInt(s.pgrp)] + s.rest
  }

  function Tail(s: Stat): string {
    Join(AfterComm(s), " ") + "\n"
  }

  function PrintStat(s: Stat): string {
    PrintNat(s.pid) + " (" + s.comm + ") " + Tail(s)
  }

  predicate InInt64(n: int) {
    -TWO_63 < n < TWO_63
  }

  /** Only the comm is arbitrary; it may hold spaces, newlines and parentheses. */
  predicate WellFormed(s: Stat) {
    && !IsSpace(s.state) && s.state != ')'
    && InInt64(s.ppid) && InInt64(s.pgrp)
    && (forall f :: f in s.rest ==> IsToken(f) && ')' !in f)
  }

  lemma AfterCommTokens(s: Stat)
    requires WellFormed(s)
    ensures forall f :: f in AfterComm(s) ==> IsToken(f) && ')' !in f
  {
    PrintedStart(s.ppid);
    PrintedStart(s.pgrp);
  }

  lemma {:induction false} JoinAvoids(tokens: seq<string>, c: char)
    requires c != ' ' && forall f :: f in tokens ==> c !in f
    ensures c !in Join(tokens, " ")
  {
    if tokens != [] {
      assert tokens[0] in tokens;
      JoinAvoids(tokens[1..], c);
    }
  }

  lemma {:induction false} IndexAt(s: string, c: char, t: string)
    requires c !in s
    ensures IndexOf(s + [c] + t, c) == |s|
  {
    if s != "" {
      assert (s + [c] + t)[1..] == s[1..] + [c] + t;
      assert s[0] in s;
      IndexAt(s[1..], c, t);
    }
  }

  lemma {:induction false} LastIndexAt(s: string, c: char, t: string)
    requires c !in t
    ensures LastIndexOf(s + [c] + t, c) == |s|
  {
    var all := s + [c] + t;
    if t != "" {
      assert all[..|all| - 1] == s + [c] + t[..|t| - 1];
      assert all[|all| - 1] == t[|t| - 1] && t[|t| - 1] in t;
      LastIndexAt(s, c, t[..|t| - 1]);
    }
  }

  /** The tail splits into exactly the fields printed after the comm. */
  lemma FieldsOfTail(s: Stat)
    requires WellFormed(s)
    ensures Fields(Tail(s)) == AfterComm(s) && ')' !in Tail(s)
  {
    AfterCommTokens(s);
    FieldsJoin(AfterComm(s));
    JoinAvoids(AfterComm(s), ')');
    FieldsConcat(Join(AfterComm(s), " "), '\n', "");
    assert Tail(s) == Join(AfterComm(s), " ") + ['\n'] + "";
  }

  lemma ScanTwo(a: int, b: int)
    requires InInt64(a) && InInt64(b)
    ensures ScanInt(PrintInt(a) + " " + PrintInt(b)) == Ok(ScannedInt(a, " " + PrintInt(b)))
    ensures ScanInt(" " + PrintInt(b)) == Ok(ScannedInt(b, ""))
  {
    hide ScanInt;
    hide PrintInt;
    assert PrintInt(a) + " " + PrintInt(b) == PrintInt(a) + (" " + PrintInt(b));
    ScanPrinted(a, " " + PrintInt(b));
    ScanPrinted(b, "");
    assert PrintInt(b) + "" == PrintInt(b);
    ScanSkipsSpace(PrintInt(b));
  }

  lemma ScanSkipsSpace(s: string)
    ensures ScanInt(" " + s) == ScanInt(s)
  {
    assert (" " + s)[1..] == s;
    assert SkipSpace(" " + s) == SkipSpace(s);
  }

  /** The first '(' opens the comm and the last ')' closes it, whatever it holds. */
  lemma CommPosition(s: Stat)
    requires WellFormed(s)
    ensures var data, l := PrintStat(s), |PrintNat(s.pid)| + 1;
      var r := l + 1 + |s.comm|;
      && IndexOf(data, '(') == l && LastIndexOf(data, ')') == r && r + 2 < |data|
      && data[l + 1..r] == s.comm && data[r + 2..] == Tail(s)
  {
    hide Fields;
    hide Join;
    hide IndexOf;
    hide LastIndexOf;
    var data, head := PrintStat(s), PrintNat(s.pid) + " ";
    FieldsOfTail(s);
    assert data == head + ['('] + (s.comm + ") " + Tail(s));
    assert data == (head + "(" + s.comm) + [')'] + (" " + Tail(s));
    assert '(' !in head && ')' !in " " + Tail(s);
    IndexAt(head, '(', s.comm + ") " + Tail(s));
    LastIndexAt(head + "(" + s.comm, ')', " " + Tail(s));
  }

  /** Whatever the comm, the name, state, parent and group read back as printed, if the line goes
      on to the 39th field of the format; shorter lines are refused. */
  lemma PrintedStatReads(s: Stat)
    requires WellFormed(s)
    ensures |s.rest| >= 34 ==> ParseStat(PrintStat(s)) == Ok(Info(s.comm, PidStateOf(s.state), s.ppid, s.pgrp))
    ensures |s.rest| < 34 ==> ParseStat(PrintStat(s)).Err?
  {
    hide Fields;
    hide ScanInt;
    hide IndexOf;
    hide LastIndexOf;
    hide PrintStat;
    hide Tail;
    hide PidStateOf;
    hide PrintInt;
    CommPosition(s);
    FieldsOfTail(s);
    ScanTwo(s.ppid, s.pgrp);
  }

  // ---------- the whole-line fields ----------

  function CommFields(comm: string): seq<string> {
    Fields("(" + comm + ")")
  }

  /** The whole line splits into the pid, the pieces of the comm, and the rest. */
  lemma FieldsOfPrinted(s: Stat)
    requires WellFormed(s)
    ensures Fields(PrintStat(s)) == [PrintNat(s.pid)] + CommFields(s.comm) + AfterComm(s)
  {
    hide Fields;
    hide Join;
    var pid, inner := PrintNat(s.pid), "(" + s.comm + ")";
    FieldsOfTail(s);
    assert IsToken(pid) by {
      PrintedStart(s.pid);
    }
    FieldsOfToken(pid);
    FieldsConcat(pid, ' ', inner + " " + Tail(s));
    FieldsConcat(inner, ' ', Tail(s));
    assert PrintStat(s) == pid + [' '] + (inner + " " + Tail(s));
    assert inner + " " + Tail(s) == inner + [' '] + Tail(s);
  }

  /** The comm is one field exactly when it holds no space; otherwise it is several. */
  lemma CommIsOneField(comm: string)
    ensures NoSpace(comm) ==> CommFields(comm) == ["(" + comm + ")"]
    ensures !NoSpace(comm) ==> |CommFields(comm)| >= 2
  {
    var inner := "(" + comm + ")";
    if NoSpace(comm) {
      assert forall c :: c in inner ==> c == '(' || c == ')' || c in comm;
      FieldsOfToken(inner);
    } else {
      var c :| c in comm && IsSpace(c);
      var i :| 0 <= i < |comm| && comm[i] == c;
      var before, after := "(" + comm[..i], comm[i + 1..] + ")";
      assert inner == before + [c] + after;
      FieldsConcat(before, c, after);
      assert before[0] == '(';
      FieldsConcat(comm[i + 1..], ' ', ")");
      FieldsOfSuffix(comm[i + 1..], ")");
      assert Fields(")") == [")"];
    }
  }

  /** Field i + 2 of the whole line is field i after the comm, for every i, exactly when the comm
      holds no space; in general the fields are shifted by the pieces of the comm. */
  lemma WholeLineFieldsAlign(s: Stat)
    requires WellFormed(s)
    ensures var whole, after := Fields(PrintStat(s)), AfterComm(s);
      && |whole| == |after| + 1 + |CommFields(s.comm)|
      && whole[1 + |CommFields(s.comm)|..] == after
      && (|whole| == |after| + 2 && whole[2..] == after <==> NoSpace(s.comm))
  {
    hide Fields;
    FieldsOfPrinted(s);
    CommIsOneField(s.comm);
    var whole := Fields(PrintStat(s));
    assert whole[1 + |CommFields(s.comm)|..] == AfterComm(s);
  }

  lemma TimesOfFields(data: string, user: uint64, sys: uint64, start: uint64, bootTime: uint64)
    requires |Fields(data)| > 21
    requires Fields(data)[13] == PrintNat(user) && Fields(data)[14] == PrintNat(sys)
    requires Fields(data)[21] == PrintNat(start)
    ensures ParseCPUTime(data, bootTime) ==
      Ok(CPUTime(Wrap(user * 10), Wrap(sys * 10), Wrap(user * 10 + sys * 10), Wrap((start / 100 + bootTime) * 1000)))
  {
    hide Fields;
    hide Wrap;
    PrintedUint(user);
    PrintedUint(sys);
    PrintedUint(start);
    SumWraps(user * 10, sys * 10);
    StartWraps(start / 100, bootTime);
  }

  /** For a comm without spaces the CPU times are those printed at utime, stime and starttime. */
  lemma CPUTimeOfPlainComm(s: Stat, utime: uint64, stime: uint64, start: uint64, bootTime: uint64)
    requires WellFormed(s) && NoSpace(s.comm) && |s.rest| > 16
    requires s.rest[8] == PrintNat(utime) && s.rest[9] == PrintNat(stime) && s.rest[16] == PrintNat(start)
    ensures |Fields(PrintStat(s))| > 21
    ensures ParseCPUTime(PrintStat(s), bootTime) ==
      Ok(CPUTime(Wrap(utime * 10), Wrap(stime * 10), Wrap(utime * 10 + stime * 10),
                 Wrap((start / 100 + bootTime) * 1000)))
  {
    hide Fields;
    hide Wrap;
    WholeLineFieldsAlign(s);
    CommIsOneField(s.comm);
    var whole := Fields(PrintStat(s));
    assert whole[13] == whole[2..][11] && whole[14] == whole[2..][12] && whole[21] == whole[2..][19];
    TimesOfFields(PrintStat(s), utime, stime, start, bootTime);
  }

  /** A comm with one gap moves every index by one: the major faults of the children are
      taken for user time, user time for system time, and the alarm interval for the start. */
  lemma CPUTimeOfSpacedComm(s: Stat, cmajflt: uint64, utime: uint64, itrealvalue: uint64, bootTime: uint64)
    requires WellFormed(s) && |CommFields(s.comm)| == 2 && |s.rest| > 16
    requires s.rest[7] == PrintNat(cmajflt) && s.rest[8] == PrintNat(utime) && s.rest[15] == PrintNat(itrealvalue)
    ensures |Fields(PrintStat(s))| > 21
    ensures ParseCPUTime(PrintStat(s), bootTime) ==
      Ok(CPUTime(Wrap(cmajflt * 10), Wrap(utime * 10), Wrap(cmajflt * 10 + utime * 10),
                 Wrap((itrealvalue / 100 + bootTime) * 1000)))
  {
    hide Fields;
    hide Wrap;
    WholeLineFieldsAlign(s);
    var whole := Fields(PrintStat(s));
    assert whole[13] == whole[3..][10] && whole[14] == whole[3..][11] && whole[21] == whole[3..][18];
    TimesOfFields(PrintStat(s), cmajflt, utime, itrealvalue, bootTime);
  }

  /** A tmux server that used 500 ticks of user time and none of system time. */
  const TMUX := Stat(1, "tmux: server", 'S', 1, 1, seq(34, i => PrintNat(if i == 8 then 500 else 0)))

  /** Its user time is published as system time. */
  lemma TmuxMisread(bootTime: uint64)
    ensures WellFormed(TMUX) && |Fields(PrintStat(TMUX))| > 21
    ensures var r := ParseCPUTime(PrintStat(TMUX), bootTime);
      r.Ok? && r.value.user == 0 && r.value.system == 5000
  {
    hide Fields;
    hide PrintStat;
    hide ParseCPUTime;
    hide PrintNat;
    PrintedStart(0);
    PrintedStart(500);
    SpacedComm("tmux:", "server");
    assert TMUX.comm == "tmux:" + " " + "server";
    CPUTimeOfSpacedComm(TMUX, 0, 500, 0, bootTime);
  }

  lemma SpacedComm(first: string, second: string)
    requires NoSpace(first) && NoSpace(second)
    ensures CommFields(first + " " + second) == ["(" + first, second + ")"]
  {
    hide Fields;
    assert "(" + (first + " " + second) + ")" == ("(" + first) + [' '] + (second + ")");
    FieldsConcat("(" + first, ' ', second + ")");
    FieldsOfToken("(" + first);
    FieldsOfToken(second + ")");
  }

  lemma PrintedUint(n: uint64)
    ensures ParseUint(PrintNat(n)) == Ok(n)
  {
    ValueOfPrinted(n);
  }

  lemma SumWraps(a: int, b: int)
    ensures Add(Wrap(a), Wrap(b)) == Wrap(a + b)
  {
    WrapAbsorbs(a, Wrap(b));
    WrapAbsorbs(b, a);
  }

  lemma StartWraps(seconds: uint64, bootTime: uint64)
    ensures Wrap(Add(seconds, bootTime) * 1000) == Wrap((seconds + bootTime) * 1000)
  {
    var sum := seconds + bootTime;
    WrapShift(sum * 1000, if sum < TWO_64 then 0 else -1000);
  }
}
