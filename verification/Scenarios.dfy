/** Interleavings that show what the runtime does not promise: an overrun that nobody
    hears of, and an announcement that comes too late. */
module Scenarios {
  import opened Kernel
  import opened Control
  import opened Output
  import opened ExitCodes
  import opened Runtime
  import Host
  import LauncherWait
  import Pid1Wait
  import Supervisor
  import ProcessTable

  /** One more action, with the state it leads to. */
  lemma Do(cfg: Config, before: seq<Action>, a: Action, next: System) returns (actions: seq<Action>)
    requires Apply(cfg, Reach(cfg, before), a) == next
    ensures actions == before + [a] && Reach(cfg, actions) == next
  {
    actions := before + [a];
    assert actions[..|actions| - 1] == before;
  }

  // ---------- the host ----------

  /** The host has read one byte too many, and then announced it. */
  const READ := Monitor(true, true, 1, true, [Tagged(Stdout, 7)], [], None)
  const ANNOUNCED := Host.State(READ, None, true, Host.Looping)

  function Finished(status: WaitStatus): Host.State {
    Host.State(READ.(stdoutOpen := false, stderrOpen := false), Some(status), true, Host.LoopDone(status))
  }

  const FULL := OutputPipe([7], true, [7])
  const EMPTIED := OutputPipe([], true, [7])
  const NOTHING := StreamAnswer(false, ReadFailed, Written)
  const END := StreamAnswer(true, Data([]), Written)

  lemma HostIsReady(cfg: Config, before: seq<Action>) returns (actions: seq<Action>)
    requires var s := Reach(cfg, before);
      && s.host == Host.INITIAL_HOST && s.hostPc == AtLauncher && s.out == OutputPipe([], true, [])
    ensures Reach(cfg, actions) == Reach(cfg, before).(out := FULL, hostPc := AtStdout(true, false))
  {
    var s := Reach(cfg, before);
    actions := Do(cfg, before, AppWrites(Stdout, [7]), s.(out := FULL));
    actions := Do(cfg, actions, HostWaits(Interrupted), s.(out := FULL, hostPc := AtPoll));
    actions := Do(cfg, actions, HostPolls(false, true, false), s.(out := FULL, hostPc := AtStdout(true, false)));
  }

  /** The application writes one byte, which is one too many, and the host reads it. */
  lemma HostReads(cfg: Config, before: seq<Action>) returns (actions: seq<Action>)
    requires var s := Reach(cfg, before);
      && cfg.limit == Some(0) && s.host == Host.INITIAL_HOST && s.hostPc == AtLauncher
      && s.out == OutputPipe([], true, [])
    ensures Reach(cfg, actions) ==
            Reach(cfg, before).(host := Host.State(READ, None, false, Host.Looping), hostPc := AtStderr(false),
                                out := EMPTIED)
  {
    actions := HostIsReady(cfg, before);
    var s := Reach(cfg, actions);
    OneByteTooMany(cfg.limit);
    actions := Do(cfg, actions, HostReadsStdout(StreamAnswer(true, Data([7]), Written)),
                  s.(host := Host.State(READ, None, false, Host.Looping), hostPc := AtStderr(false), out := EMPTIED));
  }

  lemma OneByteTooMany(limit: Option<nat>)
    requires limit == Some(0)
    ensures Receive(Output.INITIAL, Stdout, StreamAnswer(true, Data([7]), Written), limit) == READ
  {
    assert Tag(Stdout, [7]) == [Tagged(Stdout, 7)];
  }

  lemma HostAnnounces(cfg: Config, before: seq<Action>) returns (actions: seq<Action>)
    requires var s := Reach(cfg, before);
      && cfg.limit == Some(0) && s.host == Host.INITIAL_HOST && s.hostPc == AtLauncher
      && s.out == OutputPipe([], true, []) && s.control == [] && s.sends == 0 && s.launcherEnd.None?
    ensures Reach(cfg, actions) ==
            Reach(cfg, before).(host := ANNOUNCED, hostPc := AtLauncher, out := EMPTIED, control := [1], sends := 1)
  {
    var s := Reach(cfg, before);
    actions := HostReads(cfg, before);
    var r := Reach(cfg, actions);
    actions := Do(cfg, actions, HostReadsStderr(NOTHING), r.(hostPc := AtNotify));
    actions := Do(cfg, actions, HostNotifies, r.(host := ANNOUNCED, hostPc := AtCheck, control := [1], sends := 1));
    actions := Do(cfg, actions, HostChecks, r.(host := ANNOUNCED, hostPc := AtLauncher, control := [1], sends := 1));
  }

  const CLOSED := OutputPipe([], false, [7])
  const UNUSED := OutputPipe([], false, [])

  /** The application's streams are closed, and the host finds the launcher ended. */
  lemma HostFindsTheEnd(cfg: Config, before: seq<Action>, status: WaitStatus) returns (actions: seq<Action>)
    requires var s := Reach(cfg, before);
      && s.host == ANNOUNCED && s.hostPc == AtLauncher && s.launcherEnd == Some(status) && !status.StillAlive?
      && s.out == EMPTIED && s.err == OutputPipe([], true, [])
    ensures Reach(cfg, actions) ==
            Reach(cfg, before).(host := ANNOUNCED.(launcherStatus := Some(status)), hostPc := AtStdout(true, true),
                                out := CLOSED, err := UNUSED)
  {
    var s := Reach(cfg, before);
    actions := Do(cfg, before, AppCloses(Stdout), s.(out := CLOSED));
    var c := s.(out := CLOSED, err := UNUSED);
    actions := Do(cfg, actions, AppCloses(Stderr), c);
    c := c.(host := ANNOUNCED.(launcherStatus := Some(status)));
    actions := Do(cfg, actions, HostWaits(Status(status)), c.(hostPc := AtPoll));
    actions := Do(cfg, actions, HostPolls(false, true, true), c.(hostPc := AtStdout(true, true)));
  }

  lemma HostFindsNoMore(cfg: Config, before: seq<Action>, status: WaitStatus) returns (actions: seq<Action>)
    requires var s := Reach(cfg, before);
      && s.host == ANNOUNCED.(launcherStatus := Some(status)) && s.hostPc == AtStdout(true, true)
      && s.out == CLOSED && s.err == UNUSED
    ensures Reach(cfg, actions) ==
            Reach(cfg, before).(host := Finished(status).(outcome := Host.Looping), hostPc := AtNotify)
  {
    var s := Reach(cfg, before);
    var h := Host.State(READ.(stdoutOpen := false), Some(status), true, Host.Looping);
    actions := Do(cfg, before, HostReadsStdout(END), s.(host := h, hostPc := AtStderr(true)));
    h := Finished(status).(outcome := Host.Looping);
    actions := Do(cfg, actions, HostReadsStderr(END), s.(host := h, hostPc := AtNotify));
  }

  lemma HostFinishes(cfg: Config, before: seq<Action>, status: WaitStatus) returns (actions: seq<Action>)
    requires var s := Reach(cfg, before);
      && s.host == ANNOUNCED && s.hostPc == AtLauncher && s.launcherEnd == Some(status) && !status.StillAlive?
      && s.out == EMPTIED && s.err == OutputPipe([], true, [])
    ensures Reach(cfg, actions) ==
            Reach(cfg, before).(host := Finished(status), hostPc := Halted, out := CLOSED, err := UNUSED)
  {
    actions := HostFindsTheEnd(cfg, before, status);
    actions := HostFindsNoMore(cfg, actions, status);
    var s := Reach(cfg, actions);
    actions := Do(cfg, actions, HostNotifies, s.(hostPc := AtCheck));
    actions := Do(cfg, actions, HostChecks, s.(host := Finished(status), hostPc := Halted));
  }

  // ---------- the application and the launcher ----------

  function OwnEnd(cfg: Config): WaitStatus {
    Exited(cfg.main, 0)
  }

  function MainExit(cfg: Config): Action {
    ProcessMoves(ProcessTable.Exit(cfg.main, OwnEnd(cfg), ProcessTable.INIT))
  }

  /** The application's main process has ended. */
  ghost predicate MainGone(cfg: Config, w: ProcessTable.World) {
    cfg.main in w.fates && w.fates[cfg.main] == OwnEnd(cfg)
  }

  lemma AppEnds(cfg: Config, before: seq<Action>) returns (actions: seq<Action>, w: ProcessTable.World)
    requires Reach(cfg, before).world == ProcessTable.Initial(cfg.main)
    ensures Reach(cfg, actions) == Reach(cfg, before).(world := w)
    ensures MainGone(cfg, w) && w.table == map[cfg.main := ProcessTable.Proc(ProcessTable.INIT, Some(OwnEnd(cfg)), 0)]
  {
    w := ProcessTable.Apply(Reach(cfg, before).world, MainExit(cfg).move);
    actions := Do(cfg, before, MainExit(cfg), Reach(cfg, before).(world := w));
  }

  function DirectTurn(wait: WaitAnswer, now: nat): LauncherWait.Turn {
    LauncherWait.Turn(NotRequested, Delivered, now, wait, now, Delivered, now, now, Delivered)
  }

  /** A look at the empty pipe. */
  lemma DirectLooksInVain(cfg: Config, before: seq<Action>) returns (actions: seq<Action>)
    requires var s := Reach(cfg, before);
      && s.launcher == Direct(LauncherWait.INITIAL) && s.launcherEnd.None? && !s.midTurn && s.control == []
    ensures Reach(cfg, actions) == Reach(cfg, before).(midTurn := true, blocking := cfg.execution.None?)
  {
    var s := Reach(cfg, before);
    actions := Do(cfg, before, DirectLooks(NoTrouble, DirectTurn(Interrupted, 0)),
                  s.(midTurn := true, blocking := cfg.execution.None?));
  }

  /** The wait reports the end of an application nobody complained of. */
  lemma DirectEnds(cfg: Config, before: seq<Action>) returns (actions: seq<Action>)
    requires var s := Reach(cfg, before);
      && s.launcher == Direct(LauncherWait.INITIAL) && s.launcherEnd.None? && s.midTurn && MainGone(cfg, s.world)
    ensures Reach(cfg, actions) == Reach(cfg, before).(
              launcher := Direct(LauncherWait.INITIAL.(outcome := Done(Kernel.Finished(OwnEnd(cfg))))), midTurn := false)
  {
    actions := Do(cfg, before, DirectWaits(DirectTurn(Status(OwnEnd(cfg)), 20)), Reach(cfg, before).(
      launcher := Direct(LauncherWait.INITIAL.(outcome := Done(Kernel.Finished(OwnEnd(cfg))))), midTurn := false));
  }

  lemma Exits(cfg: Config, before: seq<Action>, code: int) returns (actions: seq<Action>)
    requires var s := Reach(cfg, before);
      && s.launcherEnd.None? && !s.launcher.Outcome().Running?
      && 0 <= code < 256 && CodeOf(s.launcher.Outcome()) == code
    ensures Reach(cfg, actions) == Reach(cfg, before).(launcherEnd := Some(Exited(cfg.launcherPid, code)))
  {
    actions := Do(cfg, before, LauncherExits, Reach(cfg, before).(launcherEnd := Some(Exited(cfg.launcherPid, code))));
  }

  // ---------- an overrun that nobody hears of ----------

  /** A finished run with an announced overrun, reported as the success of an
      application whose output has been cut off. */
  ghost predicate ReportedAsSuccess(cfg: Config, s: System) {
    && s.host.outcome == Host.LoopDone(Exited(cfg.launcherPid, 0))
    && s.launcher == Direct(LauncherWait.INITIAL.(outcome := Done(Kernel.Finished(OwnEnd(cfg)))))
    && s.host.notified && s.sends == 1 && s.heard == 0 && s.control == [OUTPUT_LIMIT_EXCEEDED]
    && cfg.limit.Some? && |s.out.written| > cfg.limit.value && s.host.monitor.forwarded < s.host.monitor.received
    && MainGone(cfg, s.world)
  }

  /** Without a timeout and without a PID namespace: the launcher looks once and blocks,
      and the overrun that the host announces after that has no effect. */
  lemma BlockedLauncherIsDeaf(cfg: Config) returns (actions: seq<Action>)
    requires cfg.limit == Some(0) && cfg.execution.None? && !cfg.pidNamespace
    ensures ReportedAsSuccess(cfg, Reach(cfg, actions))
  {
    actions := DirectLooksInVain(cfg, []);
    actions := HostAnnounces(cfg, actions);
    var w;
    actions, w := AppEnds(cfg, actions);
    actions := DirectEnds(cfg, actions);
    actions := Exits(cfg, actions, 0);
    actions := HostFinishes(cfg, actions, Exited(cfg.launcherPid, 0));
  }

  /** With a timeout too an overrun can go unheard: the host announces it when the
      launcher's loop is over but the launcher has not yet exited. */
  lemma AnnouncedInTheWindow(cfg: Config) returns (actions: seq<Action>)
    requires cfg.limit == Some(0) && !cfg.pidNamespace
    ensures ReportedAsSuccess(cfg, Reach(cfg, actions))
  {
    actions := DirectLooksInVain(cfg, []);
    var w;
    actions, w := AppEnds(cfg, actions);
    actions := DirectEnds(cfg, actions);
    actions := HostAnnounces(cfg, actions);
    actions := Exits(cfg, actions, 0);
    actions := HostFinishes(cfg, actions, Exited(cfg.launcherPid, 0));
  }

  // ---------- an announcement that comes too late ----------

  /** The host can fail although the application ended normally: the application
      overruns the limit and ends, the launcher exits with it, and the announcement
      finds no reader. */
  lemma LateAnnouncementFails(cfg: Config) returns (actions: seq<Action>)
    requires cfg.limit == Some(0) && !cfg.pidNamespace
    ensures var s := Reach(cfg, actions);
      && s.launcherEnd == Some(Exited(cfg.launcherPid, 0))
      && s.host.outcome == Host.HostFailed(Host.SendFailed(SendError))
  {
    actions := DirectLooksInVain(cfg, []);
    var w;
    actions, w := AppEnds(cfg, actions);
    actions := DirectEnds(cfg, actions);
    actions := Exits(cfg, actions, 0);
    actions := HostReads(cfg, actions);
    var s := Reach(cfg, actions);
    actions := Do(cfg, actions, HostReadsStderr(NOTHING), s.(hostPc := AtNotify));
    var failed := Host.State(READ, None, false, Host.HostFailed(Host.SendFailed(SendError)));
    actions := Do(cfg, actions, HostNotifies, s.(host := failed, hostPc := Halted));
  }

  // ---------- the launcher after its timeout ----------

  const LATE := LauncherWait.Waiter(true, false, Some(10 + GRACE), false, [Sent(SIGTERM, AfterTimeout, 10)], Running)

  lemma LatePoll(execution: Option<nat>)
    requires execution == Some(10)
    ensures LauncherWait.PollChild(LauncherWait.INITIAL, execution, DirectTurn(Status(StillAlive), 10)) == LATE
  {
    assert LauncherWait.INITIAL.sent + [Sent(SIGTERM, AfterTimeout, 10)] == [Sent(SIGTERM, AfterTimeout, 10)];
  }

  /** A poll at the timeout, and a next turn, in which the pipe is not looked at. */
  lemma DirectTimesOut(cfg: Config, before: seq<Action>) returns (actions: seq<Action>)
    requires var s := Reach(cfg, before);
      && cfg.execution == Some(10) && s.world == ProcessTable.Initial(cfg.main)
      && s.launcher == Direct(LauncherWait.INITIAL) && s.launcherEnd.None? && s.midTurn && !s.blocking
    ensures Reach(cfg, actions) == Reach(cfg, before).(launcher := Direct(LATE), midTurn := true)
  {
    var s := Reach(cfg, before);
    LatePoll(cfg.execution);
    actions := Do(cfg, before, DirectWaits(DirectTurn(Status(StillAlive), 10)),
                  s.(launcher := Direct(LATE), midTurn := false));
    actions := Do(cfg, actions, DirectLooks(NoTrouble, DirectTurn(Interrupted, 15)), s.(launcher := Direct(LATE)));
  }

  lemma LateEnds(cfg: Config, before: seq<Action>) returns (actions: seq<Action>)
    requires var s := Reach(cfg, before);
      && s.launcher == Direct(LATE) && s.launcherEnd.None? && s.midTurn && MainGone(cfg, s.world)
    ensures Reach(cfg, actions) ==
            Reach(cfg, before).(launcher := Direct(LATE.(outcome := Done(TimedOut))), midTurn := false)
  {
    actions := Do(cfg, before, DirectWaits(DirectTurn(Status(OwnEnd(cfg)), 20)),
                  Reach(cfg, before).(launcher := Direct(LATE.(outcome := Done(TimedOut))), midTurn := false));
  }

  /** The time runs out, then the output overruns: the launcher no longer looks. */
  lemma TimeoutMakesDeaf(cfg: Config) returns (actions: seq<Action>)
    requires cfg.limit == Some(0) && cfg.execution == Some(10) && !cfg.pidNamespace
    ensures var s := Reach(cfg, actions);
      && s.host.outcome == Host.LoopDone(Exited(cfg.launcherPid, TIMED_OUT))
      && s.host.notified && s.launcher == Direct(LATE.(outcome := Done(TimedOut))) && MainGone(cfg, s.world)
  {
    actions := DirectLooksInVain(cfg, []);
    actions := DirectTimesOut(cfg, actions);
    actions := HostAnnounces(cfg, actions);
    var w;
    actions, w := AppEnds(cfg, actions);
    actions := LateEnds(cfg, actions);
    actions := Exits(cfg, actions, TIMED_OUT);
    actions := HostFinishes(cfg, actions, Exited(cfg.launcherPid, TIMED_OUT));
  }

  // ---------- the same with PID 1 ----------

  function Pid1Turn(wait: WaitAnswer, now: nat): Supervisor.Turn {
    Supervisor.Turn([], Delivered, now, Delivered, now, wait, Delivered, now, Delivered)
  }

  /** PID 1 finds its timeout passed while the application runs. */
  lemma Pid1TimesOut(cfg: Config, before: seq<Action>) returns (actions: seq<Action>, p: Supervisor.Sup)
    requires var s := Reach(cfg, before);
      && cfg.execution == Some(10) && cfg.pidNamespace && s.world == ProcessTable.Initial(cfg.main)
      && s.pid1 == Supervisor.INITIAL && s.pid1End.None?
    ensures Reach(cfg, actions) == Reach(cfg, before).(pid1 := p)
    ensures p.outcome.Running? && p.status.None? && p.timedOut
  {
    var s := Reach(cfg, before);
    var t := Pid1Turn(Status(StillAlive), 10);
    assert cfg.main in ProcessTable.ChildrenOf(s.world, ProcessTable.INIT);
    p := Supervisor.Step(s.pid1, cfg.main, cfg.execution, t);
    actions := Do(cfg, before, Pid1Turns(t), s.(pid1 := p));
  }

  /** PID 1 reaps the application. */
  lemma Pid1Reaps(cfg: Config, before: seq<Action>)
    returns (actions: seq<Action>, p: Supervisor.Sup, w: ProcessTable.World)
    requires var s := Reach(cfg, before);
      && cfg.pidNamespace && s.pid1.outcome.Running? && s.pid1.status.None? && s.pid1End.None?
      && (cfg.execution.None? || s.pid1.timedOut)
      && MainGone(cfg, s.world)
      && s.world.table == map[cfg.main := ProcessTable.Proc(ProcessTable.INIT, Some(OwnEnd(cfg)), 0)]
    ensures Reach(cfg, actions) == Reach(cfg, before).(pid1 := p, world := w)
    ensures p.outcome.Running? && p.status == Some(OwnEnd(cfg)) && p.timedOut == Reach(cfg, before).pid1.timedOut
    ensures MainGone(cfg, w) && w.table == map[]
  {
    var s := Reach(cfg, before);
    var reap := Pid1Turn(Status(OwnEnd(cfg)), 20);
    p := Supervisor.Step(s.pid1, cfg.main, cfg.execution, reap);
    w := s.world.(table := s.world.table - {cfg.main});
    assert w.table == map[];
    actions := Do(cfg, before, Pid1Turns(reap), s.(pid1 := p, world := w));
  }

  /** PID 1 finds no child left. */
  lemma Pid1IsDone(cfg: Config, before: seq<Action>) returns (actions: seq<Action>, p: Supervisor.Sup)
    requires var s := Reach(cfg, before);
      && cfg.pidNamespace && s.pid1.outcome.Running? && s.pid1.status.Some? && s.pid1End.None?
      && s.world.table == map[]
    ensures Reach(cfg, actions) == Reach(cfg, before).(pid1 := p)
    ensures p.outcome.Done? && p.timedOut == Reach(cfg, before).pid1.timedOut
  {
    var s := Reach(cfg, before);
    var none := Pid1Turn(NoChild, 20);
    p := Supervisor.Step(s.pid1, cfg.main, cfg.execution, none);
    actions := Do(cfg, before, Pid1Turns(none), s.(pid1 := p));
  }

  lemma Pid1Ends(cfg: Config, before: seq<Action>)
    returns (actions: seq<Action>, p: Supervisor.Sup, w: ProcessTable.World, code: int)
    requires var s := Reach(cfg, before);
      && cfg.pidNamespace && s.pid1.outcome.Running? && s.pid1.status.None? && s.pid1End.None?
      && (cfg.execution.None? || s.pid1.timedOut)
      && MainGone(cfg, s.world)
      && s.world.table == map[cfg.main := ProcessTable.Proc(ProcessTable.INIT, Some(OwnEnd(cfg)), 0)]
    ensures Reach(cfg, actions) == Reach(cfg, before).(pid1 := p, pid1End := Some(Exited(cfg.pid1, code)), world := w)
    ensures p.outcome.Done? && p.timedOut == Reach(cfg, before).pid1.timedOut && MainGone(cfg, w)
  {
    actions, p, w := Pid1Reaps(cfg, before);
    actions, p := Pid1IsDone(cfg, actions);
    code := CodeOf(p.outcome) % 256;
    actions := Do(cfg, actions, Pid1Exits, Reach(cfg, actions).(pid1End := Some(Exited(cfg.pid1, code))));
  }

  const HEARD := Pid1Wait.Waiter(true, Some(30 + GRACE), false, [Sent(SIGTERM, AfterOverrun, 30)], Running)

  const HEARING := Pid1Wait.Turn(NotRequested, Delivered, 30, Interrupted, 30, Delivered)

  lemma WatchHearing()
    ensures LookAt([OUTPUT_LIMIT_EXCEEDED], NoTrouble) == ([], Requested)
    ensures Pid1Wait.CheckControl(Pid1Wait.INITIAL, HEARING.(control := Requested)) == HEARD
  {
    assert [OUTPUT_LIMIT_EXCEEDED][1..] == [];
    assert Pid1Wait.INITIAL.sent + [Sent(SIGTERM, AfterOverrun, 30)] == [Sent(SIGTERM, AfterOverrun, 30)];
  }

  lemma WatchHears(cfg: Config, before: seq<Action>) returns (actions: seq<Action>)
    requires var s := Reach(cfg, before);
      && s.launcher == ThroughPid1(Pid1Wait.INITIAL) && s.launcherEnd.None? && !s.midTurn
      && s.control == [OUTPUT_LIMIT_EXCEEDED] && s.heard == 0
    ensures Reach(cfg, actions) ==
            Reach(cfg, before).(launcher := ThroughPid1(HEARD), midTurn := true, control := [], heard := 1)
  {
    WatchHearing();
    actions := Do(cfg, before, WatchLooks(NoTrouble, HEARING),
                  Reach(cfg, before).(launcher := ThroughPid1(HEARD), midTurn := true, control := [], heard := 1));
  }

  lemma WatchEnds(cfg: Config, before: seq<Action>, code: int) returns (actions: seq<Action>)
    requires var s := Reach(cfg, before);
      && s.launcher == ThroughPid1(HEARD) && s.launcherEnd.None? && s.midTurn
      && s.pid1End == Some(Exited(cfg.pid1, code))
    ensures Reach(cfg, actions) ==
            Reach(cfg, before).(launcher := ThroughPid1(HEARD.(outcome := Done(OutputLimitExceeded))), midTurn := false)
  {
    var t := Pid1Wait.Turn(NotRequested, Delivered, 40, Status(Exited(cfg.pid1, code)), 40, Delivered);
    actions := Do(cfg, before, WatchWaits(t),
                  Reach(cfg, before).(launcher := ThroughPid1(HEARD.(outcome := Done(OutputLimitExceeded))),
                                      midTurn := false));
  }

  /** The launcher of PID 1 polls, so it hears of the overrun whether or not there is a
      timeout and whether or not it has passed. */
  lemma WatchReportsOverrun(cfg: Config) returns (actions: seq<Action>)
    requires cfg.limit == Some(0) && cfg.pidNamespace && (cfg.execution.None? || cfg.execution == Some(10))
    ensures var s := Reach(cfg, actions);
      && s.host.outcome == Host.LoopDone(Exited(cfg.launcherPid, OUTPUT_LIMIT))
      && s.launcher.Outcome().Done? && s.launcher.Overrun()
      && s.pid1.outcome.Done? && s.pid1End.Some? && s.pid1End.value.Exited?
      && (s.pid1.timedOut <==> cfg.execution.Some?) && MainGone(cfg, s.world)
  {
    actions := [];
    var p, w, code;
    if cfg.execution.Some? {
      actions, p := Pid1TimesOut(cfg, actions);
    }
    actions := HostAnnounces(cfg, actions);
    actions := WatchHears(cfg, actions);
    actions, w := AppEnds(cfg, actions);
    actions, p, w, code := Pid1Ends(cfg, actions);
    actions := WatchEnds(cfg, actions, code);
    actions := Exits(cfg, actions, OUTPUT_LIMIT);
    actions := HostFinishes(cfg, actions, Exited(cfg.launcherPid, OUTPUT_LIMIT));
  }

  // ---------- an application that ignores SIGTERM ----------

  const KILLED := HEARD.(
    killed := true, sent := [Sent(SIGTERM, AfterOverrun, 30), Sent(SIGKILL, AfterGrace, 30 + GRACE)])

  /** The launcher finds PID 1 alive after the grace. */
  lemma WatchSendsKill(cfg: Config, before: seq<Action>) returns (actions: seq<Action>)
    requires var s := Reach(cfg, before);
      && s.launcher == ThroughPid1(HEARD) && s.launcherEnd.None? && s.midTurn && s.pid1End.None?
    ensures Reach(cfg, actions) == Reach(cfg, before).(launcher := ThroughPid1(KILLED), midTurn := false)
  {
    var t := Pid1Wait.Turn(NotRequested, Delivered, 40, Status(StillAlive), 30 + GRACE, Delivered);
    assert HEARD.sent + [Sent(SIGKILL, AfterGrace, 30 + GRACE)] == KILLED.sent;
    actions := Do(cfg, before, WatchWaits(t),
                  Reach(cfg, before).(launcher := ThroughPid1(KILLED), midTurn := false));
  }

  /** The launcher finds PID 1 alive after the grace, kills it and begins its next turn. */
  lemma WatchKills(cfg: Config, before: seq<Action>) returns (actions: seq<Action>)
    requires var s := Reach(cfg, before);
      && s.launcher == ThroughPid1(HEARD) && s.launcherEnd.None? && s.midTurn && s.pid1End.None?
    ensures Reach(cfg, actions) == Reach(cfg, before).(
              launcher := ThroughPid1(KILLED), pid1End := Some(Signaled(cfg.pid1, SIGKILL, false)))
  {
    actions := WatchSendsKill(cfg, before);
    var s := Reach(cfg, actions).(pid1End := Some(Signaled(cfg.pid1, SIGKILL, false)));
    actions := Do(cfg, actions, Pid1Killed(SIGKILL), s);
    var t := Pid1Wait.Turn(NotRequested, Delivered, 40, Interrupted, 40, Delivered);
    actions := Do(cfg, actions, WatchLooks(NoTrouble, t), s.(midTurn := true));
  }

  lemma KilledWatchEnds(cfg: Config, before: seq<Action>) returns (actions: seq<Action>)
    requires var s := Reach(cfg, before);
      && s.launcher == ThroughPid1(KILLED) && s.launcherEnd.None? && s.midTurn
      && s.pid1End == Some(Signaled(cfg.pid1, SIGKILL, false))
    ensures Reach(cfg, actions) == Reach(cfg, before).(
              launcher := ThroughPid1(KILLED.(outcome := Done(OutputLimitExceeded))), midTurn := false)
  {
    var t := Pid1Wait.Turn(
      NotRequested, Delivered, 4000, Status(Signaled(cfg.pid1, SIGKILL, false)), 4000, Delivered);
    actions := Do(cfg, before, WatchWaits(t), Reach(cfg, before).(
      launcher := ThroughPid1(KILLED.(outcome := Done(OutputLimitExceeded))), midTurn := false));
  }

  /** PID 1 and its application outlive the SIGTERM for an overrun and are killed; the
      host still sees the overrun. */
  lemma StubbornApplication(cfg: Config) returns (actions: seq<Action>)
    requires cfg.limit == Some(0) && cfg.pidNamespace
    ensures var s := Reach(cfg, actions);
      && s.host.outcome == Host.LoopDone(Exited(cfg.launcherPid, OUTPUT_LIMIT))
      && s.launcher.Outcome().Done? && s.launcher.Overrun()
      && s.pid1End == Some(Signaled(cfg.pid1, SIGKILL, false))
  {
    actions := HostAnnounces(cfg, []);
    actions := WatchHears(cfg, actions);
    actions := WatchKills(cfg, actions);
    actions := KilledWatchEnds(cfg, actions);
    actions := Exits(cfg, actions, OUTPUT_LIMIT);
    actions := HostFinishes(cfg, actions, Exited(cfg.launcherPid, OUTPUT_LIMIT));
  }
}
