/** The same application with and without a PID namespace: when the host sees the same
    exit code. */
module Topologies {
  import opened Kernel
  import opened ExitCodes
  import opened Runtime
  import opened Verdicts
  import opened Scenarios
  import Host
  import ProcessTable

  function Direct(cfg: Config): Config {
    cfg.(pidNamespace := false)
  }

  function Through(cfg: Config): Config {
    cfg.(pidNamespace := true)
  }

  /** The host has finished, the launcher has not failed, and where it had to rely on
      PID 1, PID 1 has not failed or been killed either.  A launcher that heard of an
      overrun does not rely on it, and may have had to kill it. */
  ghost predicate Clean(cfg: Config, actions: seq<Action>) {
    var s := Reach(cfg, actions);
    && s.host.outcome.LoopDone? && s.host.outcome.status.Exited?
    && s.launcher.Outcome().Done?
    && (cfg.pidNamespace && !s.launcher.Overrun() ==>
          s.pid1.outcome.Done? && s.pid1End.Some? && s.pid1End.value.Exited?)
  }

  /** The runs in which the launcher had to kill PID 1 are among the clean ones. */
  lemma StubbornRunIsClean(cfg: Config) returns (actions: seq<Action>)
    requires cfg.limit == Some(0) && cfg.pidNamespace
    ensures Clean(cfg, actions)
    ensures Reach(cfg, actions).pid1End == Some(Signaled(cfg.pid1, SIGKILL, false))
  {
    actions := StubbornApplication(cfg);
  }

  function CodeSeen(s: System): int
    requires s.host.outcome.LoopDone? && s.host.outcome.status.Exited?
  {
    s.host.outcome.status.code
  }

  ghost predicate Exceeded(cfg: Config, s: System) {
    cfg.limit.Some? && |s.out.written| + |s.err.written| > cfg.limit.value
  }

  /** The application ended the same way in both. */
  ghost predicate SameEnd(cfg: Config, direct: seq<Action>, through: seq<Action>) {
    var d, p := Reach(Direct(cfg), direct), Reach(Through(cfg), through);
    && cfg.main in d.world.fates && cfg.main in p.world.fates
    && d.world.fates[cfg.main] == p.world.fates[cfg.main]
  }

  /** The same happened in both: besides, the time ran out in both or in none, and the
      output exceeded the limit in both or in none. */
  ghost predicate SameStory(cfg: Config, direct: seq<Action>, through: seq<Action>) {
    var d, p := Reach(Direct(cfg), direct), Reach(Through(cfg), through);
    && SameEnd(cfg, direct, through)
    && (TimeRanOut(Direct(cfg), direct) <==> TimeRanOut(Through(cfg), through))
    && (Exceeded(cfg, d) <==> Exceeded(cfg, p))
  }

  function Code(heard: bool, late: bool, own: WaitStatus): int {
    if heard then OUTPUT_LIMIT else if late then TIMED_OUT else ExitCode(own) % 256
  }

  lemma CleanCode(cfg: Config, actions: seq<Action>)
    requires cfg.main != ProcessTable.INIT && Clean(cfg, actions)
    requires cfg.main in Reach(cfg, actions).world.fates
    ensures CodeSeen(Reach(cfg, actions))
         == Code(Heard(cfg, actions), TimeRanOut(cfg, actions), Reach(cfg, actions).world.fates[cfg.main])
    ensures Heard(cfg, actions) ==> Exceeded(cfg, Reach(cfg, actions))
  {
    CodesAreHonest(cfg, actions);
    HostSeesTheVerdict(cfg, actions);
    EveryReachableStateIsOk(cfg, actions);
    LauncherFlagsTold(cfg, actions);
    OverrunIsReal(cfg, actions);
  }

  /** When the host sees the same code with and without a PID namespace, for any two
      runs in which the application ended the same way: if both launchers heard of an
      overrun; if neither did and the time ran out in both or in none, or the
      application ended with 124; if one did, and in the other the application ended
      with 125 in time.  What counts is not whether the output overran, but whether
      the launcher looked after that had been announced: see `Heard`, and
      `WithoutTimeoutOnlyTheFirstLook` for the launcher that blocks. */
  lemma TopologiesAgreeExactly(cfg: Config, direct: seq<Action>, through: seq<Action>)
    requires cfg.main != ProcessTable.INIT && Clean(Direct(cfg), direct) && Clean(Through(cfg), through)
    requires SameEnd(cfg, direct, through)
    ensures var d, p := Reach(Direct(cfg), direct), Reach(Through(cfg), through);
            var heard, alsoHeard := Heard(Direct(cfg), direct), Heard(Through(cfg), through);
            var late, alsoLate := TimeRanOut(Direct(cfg), direct), TimeRanOut(Through(cfg), through);
            var own := ExitCode(d.world.fates[cfg.main]) % 256;
            CodeSeen(d) == CodeSeen(p) <==>
              || (heard && alsoHeard)
              || (!heard && !alsoHeard && (late == alsoLate || own == TIMED_OUT))
              || (heard != alsoHeard && own == OUTPUT_LIMIT && !(if heard then alsoLate else late))
  {
    CleanCode(Direct(cfg), direct);
    CleanCode(Through(cfg), through);
  }

  /** Of the same story the host sees different codes only if the output really exceeded
      the limit and just one launcher heard of it; that one reports 125. */
  lemma SameStoryDiffersExactly(cfg: Config, direct: seq<Action>, through: seq<Action>)
    requires cfg.main != ProcessTable.INIT
    requires Clean(Direct(cfg), direct) && Clean(Through(cfg), through) && SameStory(cfg, direct, through)
    ensures var d, p := Reach(Direct(cfg), direct), Reach(Through(cfg), through);
            var heard, alsoHeard := Heard(Direct(cfg), direct), Heard(Through(cfg), through);
            var endedWith125 := ExitCode(d.world.fates[cfg.main]) % 256 == OUTPUT_LIMIT;
      && (CodeSeen(d) != CodeSeen(p) <==>
            heard != alsoHeard && !(endedWith125 && !TimeRanOut(Direct(cfg), direct)))
      && (CodeSeen(d) != CodeSeen(p) ==>
            && Exceeded(cfg, d) && Exceeded(cfg, p)
            && CodeSeen(if heard then d else p) == OUTPUT_LIMIT)
  {
    CleanCode(Direct(cfg), direct);
    CleanCode(Through(cfg), through);
  }

  // ---------- two disagreements ----------

  /** A finished direct run with an overrun that its launcher did not hear of. */
  ghost predicate Unheard(cfg: Config, s: System, late: bool, code: int) {
    && !cfg.pidNamespace && s.host.outcome == Host.LoopDone(Exited(cfg.launcherPid, code)) && s.host.notified
    && s.launcher.Direct? && s.launcher.wait.outcome.Done?
    && !s.launcher.wait.overrun && s.launcher.wait.timedOut == late && MainGone(cfg, s.world)
  }

  lemma UnheardStory(cfg: Config, actions: seq<Action>, late: bool, code: int)
    requires cfg.main != ProcessTable.INIT && Unheard(cfg, Reach(cfg, actions), late, code)
    ensures Clean(cfg, actions) && Exceeded(cfg, Reach(cfg, actions))
    ensures TimeRanOut(cfg, actions) == late && CodeSeen(Reach(cfg, actions)) == code
  {
    FactsTold(cfg, actions);
    DoneMeansComplete(cfg, actions);
    EveryReachableStateIsOk(cfg, actions);
  }

  /** A finished run through PID 1 with an overrun that its launcher heard of. */
  lemma HeardStory(cfg: Config, late: bool) returns (actions: seq<Action>)
    requires cfg.limit == Some(0) && cfg.pidNamespace && cfg.execution == (if late then Some(10) else None)
    requires cfg.main != ProcessTable.INIT
    ensures Clean(cfg, actions) && Exceeded(cfg, Reach(cfg, actions)) && MainGone(cfg, Reach(cfg, actions).world)
    ensures TimeRanOut(cfg, actions) == late && CodeSeen(Reach(cfg, actions)) == OUTPUT_LIMIT
  {
    actions := WatchReportsOverrun(cfg);
    FactsTold(cfg, actions);
    OverrunIsReal(cfg, actions);
  }

  /** Without a timeout the two disagree as soon as an overrun is announced after the
      first look of the launcher that blocks: it reports success where the launcher of
      PID 1 reports the overrun. */
  lemma LateOverrunDisagrees(cfg: Config) returns (direct: seq<Action>, through: seq<Action>)
    requires cfg.limit == Some(0) && cfg.execution.None? && cfg.main != ProcessTable.INIT
    ensures Clean(Direct(cfg), direct) && Clean(Through(cfg), through) && SameStory(cfg, direct, through)
    ensures CodeSeen(Reach(Direct(cfg), direct)) == 0
    ensures CodeSeen(Reach(Through(cfg), through)) == OUTPUT_LIMIT
  {
    direct := BlockedLauncherIsDeaf(Direct(cfg));
    UnheardStory(Direct(cfg), direct, false, 0);
    through := HeardStory(Through(cfg), false);
  }

  /** With a timeout they disagree when the output overruns after it: 124 directly, and
      125 through PID 1. */
  lemma OverrunAfterTimeoutDisagrees(cfg: Config) returns (direct: seq<Action>, through: seq<Action>)
    requires cfg.limit == Some(0) && cfg.execution == Some(10) && cfg.main != ProcessTable.INIT
    ensures Clean(Direct(cfg), direct) && Clean(Through(cfg), through) && SameStory(cfg, direct, through)
    ensures CodeSeen(Reach(Direct(cfg), direct)) == TIMED_OUT
    ensures CodeSeen(Reach(Through(cfg), through)) == OUTPUT_LIMIT
  {
    direct := TimeoutMakesDeaf(Direct(cfg));
    UnheardStory(Direct(cfg), direct, true, TIMED_OUT);
    through := HeardStory(Through(cfg), true);
  }
}
