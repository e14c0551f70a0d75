/** `run_app` as a whole, and the exit code of the runtime: what follows the host's loop
    is the reading of the cgroup's statistics, a log entry and the cleanup. */
module RunApp {
  import opened Kernel
  import opened Text
  import opened KeyedFile
  import Host
  import Cgroup
  import ExitCodes
  import Runtime
  import Verdicts
  import Scenarios
  import ProcessTable

  // ---------- statistics ----------

  /** The contents of the statistics files, as far as they can be read. */
  datatype Files = Files(
    cpuStat: Option<string>,
    memoryEvents: Option<string>,
    memoryPeak: Option<string>,
    pidsPeak: Option<string>)

  datatype Stats = Stats(
    memoryPeakBytes: nat,
    cpuUsageUsec: Option<nat>,
    cpuUserUsec: Option<nat>,
    cpuSystemUsec: Option<nat>,
    cpuNrThrottled: Option<nat>,
    cpuThrottledUsec: Option<nat>,
    pidsPeak: nat,
    oomCount: Option<nat>,
    oomKillCount: Option<nat>)

  function KeyedContent(content: Option<string>): Option<map<string, nat>> {
    if content.None? then None else KeyedValues(Lines(content.value))
  }

  /** `read_single_u64`. */
  function SingleContent(content: Option<string>): Option<nat> {
    if content.None? then None else ParseU64(Trim(content.value))
  }

  function StatsOf(files: Files): Option<Stats> {
    var cpu, events := KeyedContent(files.cpuStat), KeyedContent(files.memoryEvents);
    var memory, pids := SingleContent(files.memoryPeak), SingleContent(files.pidsPeak);
    if cpu.None? || events.None? || memory.None? || pids.None? then None
    else Some(Stats(memory.value,
                    Get(cpu.value, "usage_usec"), Get(cpu.value, "user_usec"), Get(cpu.value, "system_usec"),
                    Get(cpu.value, "nr_throttled"), Get(cpu.value, "throttled_usec"),
                    pids.value,
                    Get(events.value, "oom"), Get(events.value, "oom_kill")))
  }

  /** `read_cgroup_stats`. */
  method ReadCgroupStats(files: Files) returns (r: Option<Stats>)
    ensures r == StatsOf(files)
  {
    var cpu := ReadKeyedU64(files.cpuStat);
    if cpu.None? {
      return None;
    }
    var events := ReadKeyedU64(files.memoryEvents);
    if events.None? {
      return None;
    }
    var memoryPeak, pidsPeak := SingleContent(files.memoryPeak), SingleContent(files.pidsPeak);
    if memoryPeak.None? || pidsPeak.None? {
      return None;
    }
    r := Some(Stats(memoryPeak.value,
                    Get(cpu.value, "usage_usec"), Get(cpu.value, "user_usec"), Get(cpu.value, "system_usec"),
                    Get(cpu.value, "nr_throttled"), Get(cpu.value, "throttled_usec"),
                    pidsPeak.value,
                    Get(events.value, "oom"), Get(events.value, "oom_kill")));
  }

  lemma {:induction false} DecimalIsDigits(n: nat)
    ensures Decimal(n) != "" && forall i | 0 <= i < |Decimal(n)| :: IsDigit(Decimal(n)[i])
  {
    if n < 10 {
    } else {
      DecimalIsDigits(n / 10);
    }
  }

  lemma LineOfDecimal(n: nat)
    ensures Trim(Decimal(n) + "\n") == Decimal(n)
  {
    var s := Decimal(n) + "\n";
    DecimalIsDigits(n);
    assert !IsWhitespace(s[0]) && TrimStart(s) == s;
    assert s[..|s| - 1] == Decimal(n) && IsWhitespace(s[|s| - 1]);
    assert TrimEnd(s) == TrimEnd(Decimal(n)) == Decimal(n);
  }

  /** The keyed file `content` is what the kernel writes for `rows`, up to its reading. */
  ghost predicate Keyed(content: Option<string>, rows: seq<Row>) {
    var r := KeyedContent(content);
    && (r.None? <==> TooLarge(rows))
    && (r.Some? ==> forall key :: Get(r.value, key) == LastValue(rows, key))
  }

  ghost predicate Single(content: Option<string>, n: nat) {
    SingleContent(content) == if n <= MAX_U64 then Some(n) else None
  }

  lemma KeyedIsRead(rows: seq<Row>)
    requires AllValid(rows)
    ensures Keyed(Some(Render(rows)), rows)
  {
    KeyedRoundTrip(rows);
  }

  lemma SingleIsRead(n: nat)
    ensures Single(Some(Decimal(n) + "\n"), n)
  {
    LineOfDecimal(n);
    ParseDecimal(n);
  }

  /** Each keyed value is the last one given for its key, the peaks are the numbers in
      their files, and there are no statistics exactly if some number does not fit into
      64 bits. */
  ghost predicate StatsAre(r: Option<Stats>, cpu: seq<Row>, events: seq<Row>, memoryPeak: nat, pidsPeak: nat) {
    && (r.None? <==> TooLarge(cpu) || TooLarge(events) || memoryPeak > MAX_U64 || pidsPeak > MAX_U64)
    && (r.Some? ==>
          r.value == Stats(memoryPeak,
                           LastValue(cpu, "usage_usec"), LastValue(cpu, "user_usec"), LastValue(cpu, "system_usec"),
                           LastValue(cpu, "nr_throttled"), LastValue(cpu, "throttled_usec"),
                           pidsPeak,
                           LastValue(events, "oom"), LastValue(events, "oom_kill")))
  }

  lemma StatsFromParts(files: Files, cpu: seq<Row>, events: seq<Row>, memoryPeak: nat, pidsPeak: nat)
    requires Keyed(files.cpuStat, cpu) && Keyed(files.memoryEvents, events)
    requires Single(files.memoryPeak, memoryPeak) && Single(files.pidsPeak, pidsPeak)
    ensures StatsAre(StatsOf(files), cpu, events, memoryPeak, pidsPeak)
  {
  }

  /** The statistics of files as the kernel renders them are read back. */
  lemma StatsRoundTrip(files: Files, cpu: seq<Row>, events: seq<Row>, memoryPeak: nat, pidsPeak: nat)
    requires AllValid(cpu) && AllValid(events)
    requires files.cpuStat == Some(Render(cpu)) && files.memoryEvents == Some(Render(events))
    requires files.memoryPeak == Some(Decimal(memoryPeak) + "\n") && files.pidsPeak == Some(Decimal(pidsPeak) + "\n")
    ensures StatsAre(StatsOf(files), cpu, events, memoryPeak, pidsPeak)
  {
    KeyedIsRead(cpu);
    KeyedIsRead(events);
    SingleIsRead(memoryPeak);
    SingleIsRead(pidsPeak);
    StatsFromParts(files, cpu, events, memoryPeak, pidsPeak);
  }

  // ---------- after the loop ----------

  datatype AppError =
    | LoopFailed(fault: Host.HostFault)
    | StatsFailed
    | LogFailed
    | CleanupFailed(result: Cgroup.CleanupResult)

  datatype AppResult = Ok(status: WaitStatus) | Err(error: AppError) | Unfinished

  /** What the steps after the loop depend on. */
  datatype Ending = Ending(files: Files, logAccepted: bool, cleanup: Cgroup.Script)

  /** The sandbox's cgroup, if it has one, and the result of `run_app`. */
  function Finish(outcome: Host.HostOutcome, group: Option<Cgroup.Group>, e: Ending)
    : (Option<Cgroup.Group>, AppResult)
  {
    match outcome
    case Looping => (group, Unfinished)
    case HostFailed(fault) => (group, Err(LoopFailed(fault)))
    case LoopDone(status) =>
      if group.None? then (group, Ok(status))
      else if StatsOf(e.files).None? then (group, Err(StatsFailed))
      else if !e.logAccepted then (group, Err(LogFailed))
      else
        var (after, result) := Cgroup.Cleanup(group.value, e.cleanup);
        (Some(after), if result.Clean? then Ok(status) else Err(CleanupFailed(result)))
  }

  /** The host's part of `run_app`, without a cgroup or with one. */
  method RunWithoutCgroup(turns: seq<Host.HostTurn>, limit: Option<nat>, e: Ending) returns (r: AppResult)
    ensures (None, r) == Finish(Host.Run(turns, limit).outcome, None, e)
  {
    var h := Host.RunHostLoop(turns, limit);
    match h.outcome
    case Looping => r := Unfinished;
    case HostFailed(fault) => r := Err(LoopFailed(fault));
    case LoopDone(status) => r := Ok(status);
  }

  method RunWithCgroup(turns: seq<Host.HostTurn>, limit: Option<nat>, directory: Cgroup.CgroupDirectory, e: Ending)
    returns (r: AppResult)
    modifies directory
    ensures (Some(directory.View()), r) == Finish(Host.Run(turns, limit).outcome, Some(old(directory.View())), e)
  {
    var h := Host.RunHostLoop(turns, limit);
    match h.outcome
    case Looping => r := Unfinished;
    case HostFailed(fault) => r := Err(LoopFailed(fault));
    case LoopDone(status) =>
      var stats := ReadCgroupStats(e.files);
      if stats.None? {
        return Err(StatsFailed);
      }
      if !e.logAccepted {
        return Err(LogFailed);
      }
      var cleaned := directory.CleanupCgroup(e.cleanup);
      r := if cleaned.Clean? then Ok(status) else Err(CleanupFailed(cleaned));
  }

  /** `run_app` succeeds exactly if its loop does and, with a cgroup, the group is gone
      afterwards.  Every error leaves the group behind, and one before the cleanup with
      the processes still in it. */
  lemma OkExactlyIfCleanedUp(outcome: Host.HostOutcome, group: Option<Cgroup.Group>, e: Ending)
    requires group.Some? ==> group.value.present && !group.value.killed
    ensures var (after, r) := Finish(outcome, group, e);
      && (r.Ok? <==> outcome.LoopDone? && (group.Some? ==> !after.value.present))
      && (r.Ok? ==> r.status == outcome.status && (group.Some? ==> after.value.members == {}))
      && (r.Err? && !r.error.CleanupFailed? ==> after == group)
      && (outcome.HostFailed? <==> r.Err? && r.error.LoopFailed?)
      && (r.Err? && r.error.StatsFailed? <==> outcome.LoopDone? && group.Some? && StatsOf(e.files).None?)
      && (r.Err? && r.error.LogFailed? <==>
            outcome.LoopDone? && group.Some? && StatsOf(e.files).Some? && !e.logAccepted)
  {
    if group.Some? {
      Cgroup.CleanupIsComplete(group.value, e.cleanup);
    }
  }

  // ---------- the exit code of the runtime ----------

  /** `main`: success only for an application that exited with 0; everything else is
      logged and ends with the same code. */
  function MainCode(r: AppResult): int
    requires !r.Unfinished?
  {
    match r
    case Ok(status) => (match status
                        case Exited(_, code) => if code == 0 then 0 else ExitCodes.RUNTIME_ERROR
                        case _ => ExitCodes.RUNTIME_ERROR)
    case Err(_) => ExitCodes.RUNTIME_ERROR
  }

  /** The runtime exits with 0 exactly if the application ended by itself with 0, the time
      did not run out, no overrun was heard of, nothing failed or was killed, and
      everything after the loop succeeded; in every other case it exits with 1.  So the
      codes 124 and 125 end at the host: by its exit code the runtime's caller cannot
      tell an overrun from any other failure. */
  lemma SuccessExactly(cfg: Runtime.Config, actions: seq<Runtime.Action>, group: Option<Cgroup.Group>, e: Ending)
    requires cfg.main != ProcessTable.INIT
    requires !Runtime.Reach(cfg, actions).host.outcome.Looping?
    ensures var r := Finish(Runtime.Reach(cfg, actions).host.outcome, group, e).1;
            var v := Verdicts.VerdictOf(cfg, actions);
      && MainCode(r) in {0, 1}
      && (MainCode(r) == 0 <==> r.Ok? && r.status.Exited? && v.OwnEnd? && ExitCodes.ExitCode(v.status) % 256 == 0)
      && (MainCode(r) == 0 ==>
            && Runtime.Reach(cfg, actions).host.outcome.LoopDone?
            && !Verdicts.Heard(cfg, actions) && !Verdicts.TimeRanOut(cfg, actions)
            && cfg.main in Runtime.Reach(cfg, actions).world.fates
            && v.status == Runtime.Reach(cfg, actions).world.fates[cfg.main])
  {
    var outcome := Runtime.Reach(cfg, actions).host.outcome;
    if outcome.LoopDone? && outcome.status.Exited? {
      Verdicts.HostSeesTheVerdict(cfg, actions);
      Verdicts.VerdictIsMeant(cfg, actions);
      Runtime.EveryReachableStateIsOk(cfg, actions);
      Verdicts.FactsTold(cfg, actions);
      OnlyOwnEndIsZero(cfg, Runtime.Reach(cfg, actions),
                       Verdicts.Heard(cfg, actions), Verdicts.TimeRanOut(cfg, actions));
    }
  }

  lemma OnlyOwnEndIsZero(cfg: Runtime.Config, s: Runtime.System, heard: bool, late: bool)
    requires Verdicts.FactsOk(cfg, s, heard, late)
    ensures var v := Verdicts.VerdictIn(cfg, s, heard, late);
            Verdicts.VerdictCode(v) % 256 == 0 ==> v.OwnEnd?
  {
  }

  /** An announced overrun that was not heard of can end with 0. */
  lemma OverrunCanSucceed(cfg: Runtime.Config, e: Ending) returns (actions: seq<Runtime.Action>)
    requires cfg.limit == Some(0) && cfg.execution.None? && !cfg.pidNamespace
    ensures var s := Runtime.Reach(cfg, actions);
            var r := Finish(s.host.outcome, None, e).1;
      && s.host.notified && |s.out.written| > 0
      && !r.Unfinished? && MainCode(r) == 0
  {
    actions := Scenarios.BlockedLauncherIsDeaf(cfg);
  }
}
