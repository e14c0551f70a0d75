/** The whole runtime as a transition system: the host monitor, the two output pipes,
    the control pipe, the launcher, PID 1 if there is one, and the processes of the
    application.  One action is one system call of one process together with what that
    process does with the answer (for PID 1 one turn of its loop, which shares nothing
    with the others but the process table), the end of a process, or a write, close or
    other move of the application.  A list of actions is one interleaving; an action
    that is not possible in a state leaves it unchanged. */
module Runtime {
  import opened Kernel
  import opened Control
  import opened Output
  import opened ExitCodes
  import opened SignalCell
  import Host
  import LauncherWait
  import Pid1Wait
  import Supervisor
  import ProcessTable

  /** `written` is everything the application ever wrote; `open` while any process
      still holds the write end. */
  datatype OutputPipe = OutputPipe(queue: seq<Byte>, open: bool, written: seq<Byte>)

  datatype HostPc =
    | AtLauncher
    | AtPoll
    | AtStdout(outReady: bool, errReady: bool)
    | AtStderr(errReady: bool)
    | AtNotify
    | AtCheck
    | Halted

  /** The launcher waits for the application itself or for PID 1. */
  datatype Launcher = Direct(wait: LauncherWait.Waiter) | ThroughPid1(watch: Pid1Wait.Waiter)
  {
    function Outcome(): Outcome {
      if Direct? then wait.outcome else watch.outcome
    }

    predicate Overrun() {
      if Direct? then wait.overrun else watch.overrun
    }
  }

  /** Between its look at the control pipe and its wait, the launcher is `midTurn`, with
      the flags of the wait already computed.  A process may still be there when its
      loop has ended: `launcherEnd` and `pid1End` are set when it exits. */
  datatype System = System(
    host: Host.State,
    hostPc: HostPc,
    out: OutputPipe,
    err: OutputPipe,
    control: seq<Byte>,
    sends: nat,
    heard: nat,
    launcher: Launcher,
    midTurn: bool,
    blocking: bool,
    launcherEnd: Option<WaitStatus>,
    pid1: Supervisor.Sup,
    pid1End: Option<WaitStatus>,
    world: ProcessTable.World)

  datatype Config = Config(
    limit: Option<nat>,
    execution: Option<nat>,
    launcherPid: int,
    pid1: int,
    main: int,
    pidNamespace: bool)

  function Start(cfg: Config): System {
    var pipe := OutputPipe([], true, []);
    System(Host.INITIAL_HOST, AtLauncher, pipe, pipe, [], 0, 0,
           if cfg.pidNamespace then ThroughPid1(Pid1Wait.INITIAL) else Direct(LauncherWait.INITIAL),
           false, false, None, Supervisor.INITIAL, None, ProcessTable.Initial(cfg.main))
  }

  datatype Action =
    | HostWaits(launcher: WaitAnswer)
    | HostPolls(failed: bool, outReady: bool, errReady: bool)
    | HostReadsStdout(answer: StreamAnswer)
    | HostReadsStderr(answer: StreamAnswer)
    | HostNotifies
    | HostChecks
    | AppWrites(stream: Stream, bytes: seq<Byte>)
    | AppCloses(stream: Stream)
    | DirectLooks(trouble: ReadTrouble, turn: LauncherWait.Turn)
    | DirectWaits(turn: LauncherWait.Turn)
    | WatchLooks(trouble: ReadTrouble, watched: Pid1Wait.Turn)
    | WatchWaits(watched: Pid1Wait.Turn)
    | LauncherExits
    | LauncherKilled(signal: int)
    | Pid1Turns(supervised: Supervisor.Turn)
    | Pid1Exits
    | Pid1Killed(signal: int)
    | ProcessMoves(move: ProcessTable.Move)

  // ---------- which answers are possible ----------

  /** `waitpid` for one process that has or has not ended. */
  predicate WaitAnswers(a: WaitAnswer, end: Option<WaitStatus>) {
    match end
    case None => a.Alive() || a.Interrupted? || a.WaitError?
    case Some(status) => a == Status(status) || a.Interrupted? || a.WaitError?
  }

  /** How the application's main process ended, if it did. */
  function MainEnd(cfg: Config, w: ProcessTable.World): Option<WaitStatus> {
    if cfg.main in w.fates then Some(w.fates[cfg.main]) else None
  }

  /** The launcher's own wait for the application: it may be interrupted or report a
      stop, and it does not answer "still alive" if it blocks. */
  predicate DirectAnswers(cfg: Config, s: System, a: WaitAnswer) {
    a.Idle() || (WaitAnswers(a, MainEnd(cfg, s.world)) && !(s.blocking && a.Alive()))
  }

  /** A turn of PID 1 that gets as far as its wait is answered by the process table. */
  predicate Pid1Answers(cfg: Config, s: System, t: Supervisor.Turn) {
    ProcessTable.ReachesWait(s.pid1, cfg.execution, t) ==>
      ProcessTable.CanAnswer(s.world, t.wait,
                             Supervisor.Blocking(Supervisor.BeforeWait(s.pid1, cfg.execution, t), cfg.execution))
  }

  predicate Readiness(ready: bool, pipe: OutputPipe) {
    ready ==> pipe.queue != [] || !pipe.open
  }

  /** `read` takes a piece from the front; it delivers nothing only at the end. */
  predicate ReadAnswers(answer: StreamAnswer, ready: bool, open: bool, pipe: OutputPipe) {
    && answer.ready == ready
    && (open && ready && answer.read.Data? ==>
          && answer.read.bytes <= pipe.queue
          && (answer.read.bytes == [] ==> pipe.queue == [] && !pipe.open))
  }

  predicate LauncherRuns(s: System) {
    s.launcherEnd.None? && s.launcher.Outcome().Running?
  }

  predicate Pid1Runs(cfg: Config, s: System) {
    cfg.pidNamespace && s.pid1End.None? && s.pid1.outcome.Running?
  }

  // ---------- one action ----------

  function TakeRead(pipe: OutputPipe, open: bool, answer: StreamAnswer): OutputPipe
    requires open && answer.ready && answer.read.Data? ==> answer.read.bytes <= pipe.queue
  {
    if open && answer.ready && answer.read.Data? then pipe.(queue := pipe.queue[|answer.read.bytes|..]) else pipe
  }

  function HostGoesOn(h: Host.State, next: HostPc): HostPc {
    if h.outcome.Looping? then next else Halted
  }

  function Apply(cfg: Config, s: System, a: Action): System {
    match a
    case HostWaits(answer) =>
      if s.hostPc != AtLauncher || !WaitAnswers(answer, s.launcherEnd) then s
      else
        var h := Host.AwaitLauncher(s.host, answer);
        s.(host := h, hostPc := HostGoesOn(h, AtPoll))
    case HostPolls(failed, outReady, errReady) =>
      if s.hostPc != AtPoll || !Readiness(outReady, s.out) || !Readiness(errReady, s.err) then s
      else if failed then
        var h := Host.WithMonitor(s.host, s.host.monitor.(fault := Some(PollFault)));
        s.(host := h, hostPc := Halted)
      else s.(hostPc := AtStdout(outReady, errReady))
    case HostReadsStdout(answer) =>
      if !s.hostPc.AtStdout? || !ReadAnswers(answer, s.hostPc.outReady, s.host.monitor.stdoutOpen, s.out) then s
      else
        var h := Host.WithMonitor(s.host, Receive(s.host.monitor, Stdout, answer, cfg.limit));
        s.(host := h, hostPc := HostGoesOn(h, AtStderr(s.hostPc.errReady)),
           out := TakeRead(s.out, s.host.monitor.stdoutOpen, answer))
    case HostReadsStderr(answer) =>
      if !s.hostPc.AtStderr? || !ReadAnswers(answer, s.hostPc.errReady, s.host.monitor.stderrOpen, s.err) then s
      else
        var h := Host.WithMonitor(s.host, Receive(s.host.monitor, Stderr, answer, cfg.limit));
        s.(host := h, hostPc := HostGoesOn(h, AtNotify),
           err := TakeRead(s.err, s.host.monitor.stderrOpen, answer))
    case HostNotifies =>
      if s.hostPc != AtNotify then s
      else if !Host.MustNotify(s.host) then s.(hostPc := AtCheck)
      else
        var (control, result) := SendOn(s.control, s.launcherEnd.None?);
        var h := Host.NotifyStep(s.host, result);
        s.(host := h, hostPc := HostGoesOn(h, AtCheck), control := control,
           sends := if result.Accepted? then s.sends + 1 else s.sends)
    case HostChecks =>
      if s.hostPc != AtCheck then s
      else
        var h := Host.CheckDone(s.host);
        s.(host := h, hostPc := HostGoesOn(h, AtLauncher))
    case AppWrites(stream, bytes) =>
      if stream.Stdout? then
        if !s.out.open then s
        else s.(out := OutputPipe(s.out.queue + bytes, true, s.out.written + bytes))
      else
        if !s.err.open then s
        else s.(err := OutputPipe(s.err.queue + bytes, true, s.err.written + bytes))
    case AppCloses(stream) =>
      if stream.Stdout? then s.(out := s.out.(open := false)) else s.(err := s.err.(open := false))
    case DirectLooks(trouble, turn) =>
      if !LauncherRuns(s) || s.midTurn || !s.launcher.Direct? then s
      else if s.launcher.Overrun() || s.launcher.wait.timedOut then
        s.(midTurn := true, blocking := LauncherWait.Blocking(s.launcher.wait, cfg.execution))
      else
        var (control, answer) := LookAt(s.control, trouble);
        var w := LauncherWait.CheckControl(s.launcher.wait, turn.(control := answer));
        s.(launcher := Direct(w), midTurn := true, blocking := LauncherWait.Blocking(s.launcher.wait, cfg.execution),
           control := control, heard := s.heard + |s.control| - |control|)
    case DirectWaits(turn) =>
      if !LauncherRuns(s) || !s.midTurn || !s.launcher.Direct? || !DirectAnswers(cfg, s, turn.wait) then s
      else s.(launcher := Direct(LauncherWait.PollChild(s.launcher.wait, cfg.execution, turn)), midTurn := false)
    case WatchLooks(trouble, watched) =>
      if !LauncherRuns(s) || s.midTurn || !s.launcher.ThroughPid1? then s
      else if s.launcher.Overrun() then s.(midTurn := true)
      else
        var (control, answer) := LookAt(s.control, trouble);
        var w := Pid1Wait.CheckControl(s.launcher.watch, watched.(control := answer));
        s.(launcher := ThroughPid1(w), midTurn := true,
           control := control, heard := s.heard + |s.control| - |control|)
    case WatchWaits(watched) =>
      if !LauncherRuns(s) || !s.midTurn || !s.launcher.ThroughPid1? || !WaitAnswers(watched.wait, s.pid1End) then s
      else s.(launcher := ThroughPid1(Pid1Wait.PollPid1(s.launcher.watch, watched)), midTurn := false)
    case LauncherExits =>
      if s.launcherEnd.Some? || s.launcher.Outcome().Running? then s
      else s.(launcherEnd := Some(Reported(cfg.launcherPid, CodeOf(s.launcher.Outcome()))))
    case LauncherKilled(signal) =>
      if s.launcherEnd.Some? || !KnownSignal(signal) then s
      else s.(launcherEnd := Some(Signaled(cfg.launcherPid, signal, false)))
    case Pid1Turns(supervised) =>
      if !Pid1Runs(cfg, s) || !Pid1Answers(cfg, s, supervised) then s
      else
        s.(pid1 := Supervisor.Step(s.pid1, cfg.main, cfg.execution, supervised),
           world := if ProcessTable.ReachesWait(s.pid1, cfg.execution, supervised)
                    then ProcessTable.AfterAnswer(s.world, supervised.wait) else s.world)
    case Pid1Exits =>
      if s.pid1End.Some? || s.pid1.outcome.Running? then s
      else s.(pid1End := Some(Reported(cfg.pid1, CodeOf(s.pid1.outcome))))
    case Pid1Killed(signal) =>
      if s.pid1End.Some? || !KnownSignal(signal) then s else s.(pid1End := Some(Signaled(cfg.pid1, signal, false)))
    case ProcessMoves(move) => s.(world := ProcessTable.Apply(s.world, move))
  }

  function Reach(cfg: Config, actions: seq<Action>): System {
    if actions == [] then Start(cfg)
    else Apply(cfg, Reach(cfg, actions[..|actions| - 1]), actions[|actions| - 1])
  }

  /** Only the application closes a pipe. */
  lemma OnlyTheApplicationCloses(cfg: Config, s: System, a: Action)
    ensures Apply(cfg, s, a).out.open == (s.out.open && a != AppCloses(Stdout))
    ensures Apply(cfg, s, a).err.open == (s.err.open && a != AppCloses(Stderr))
  {
  }

  /** Only what the application writes to an open pipe gets in. */
  lemma OnlyTheApplicationWrites(cfg: Config, s: System, a: Action)
    ensures Apply(cfg, s, a).out.written ==
            s.out.written + (if s.out.open && a.AppWrites? && a.stream.Stdout? then a.bytes else [])
    ensures Apply(cfg, s, a).err.written ==
            s.err.written + (if s.err.open && a.AppWrites? && a.stream.Stderr? then a.bytes else [])
  {
  }

  // ---------- invariants ----------

  /** Everything written to a pipe has been received or is still in it, and a stream
      the host considers closed has been received to its end. */
  ghost predicate PipeOk(m: Monitor, stream: Stream, pipe: OutputPipe) {
    && Only(m.received, stream) + pipe.queue == pipe.written
    && (!m.Open(stream) ==> !pipe.open && pipe.queue == [])
  }

  ghost predicate ReadyOk(pc: HostPc, out: OutputPipe, err: OutputPipe) {
    && (pc.AtStdout? ==> Readiness(pc.outReady, out) && Readiness(pc.errReady, err))
    && (pc.AtStderr? ==> Readiness(pc.errReady, err))
  }

  /** The announcement is made exactly when the limit is exceeded, except while the
      host is between its reads and the announcement. */
  ghost predicate NotifiedOk(h: Host.State, pc: HostPc) {
    && (h.notified ==> h.monitor.limitExceeded)
    && (pc.AtLauncher? || pc.AtPoll? || pc.AtCheck? || h.outcome.LoopDone? ==> h.notified == h.monitor.limitExceeded)
  }

  /** One byte is sent per announcement, it is in the pipe until the launcher hears
      it, and hearing it is what sets the launcher's flag. */
  ghost predicate ControlOk(notified: bool, control: seq<Byte>, sends: nat, heard: nat, overrun: bool) {
    && sends == (if notified then 1 else 0)
    && |control| + heard == sends
    && (control != [] ==> control[0] == OUTPUT_LIMIT_EXCEEDED)
    && (overrun <==> heard > 0)
  }

  ghost predicate HostOk(cfg: Config, h: Host.State, pc: HostPc, launcherEnd: Option<WaitStatus>) {
    && Accounted(h.monitor, cfg.limit)
    && (pc.Halted? <==> !h.outcome.Looping?)
    && (!h.outcome.HostFailed? ==> h.monitor.fault.None?)
    && (h.launcherStatus.Some? ==> h.launcherStatus == launcherEnd)
    && (h.outcome.LoopDone? ==>
          && h.launcherStatus == Some(h.outcome.status)
          && !h.monitor.stdoutOpen && !h.monitor.stderrOpen)
    && h.outcome != Host.HostFailed(Host.SendFailed(PipeFull))
  }

  ghost predicate LauncherOk(cfg: Config, launcher: Launcher, end: Option<WaitStatus>, pid1End: Option<WaitStatus>) {
    && launcher.ThroughPid1? == cfg.pidNamespace
    && (end.Some? && end.value.Exited? ==>
          !launcher.Outcome().Running? && end.value == Reported(cfg.launcherPid, CodeOf(launcher.Outcome())))
    && (end.Some? ==> end.value.Terminal())
    && (launcher.Outcome().Done? ==>
          (launcher.Outcome().result == OutputLimitExceeded <==> launcher.Overrun()))
    && (launcher.ThroughPid1? && launcher.watch.outcome.Done? && !launcher.Overrun() ==>
          pid1End.Some? && launcher.watch.outcome.result == Finished(pid1End.value))
  }

  ghost predicate Pid1Ok(cfg: Config, pid1: Supervisor.Sup, end: Option<WaitStatus>) {
    && pid1.outcome != Done(OutputLimitExceeded)
    && (end.Some? ==>
          || (end.value.Signaled? && KnownSignal(end.value.signal))
          || (!pid1.outcome.Running? && end.value == Reported(cfg.pid1, CodeOf(pid1.outcome))))
  }

  ghost predicate Inv(cfg: Config, s: System) {
    && PipeOk(s.host.monitor, Stdout, s.out) && PipeOk(s.host.monitor, Stderr, s.err)
    && ReadyOk(s.hostPc, s.out, s.err) && NotifiedOk(s.host, s.hostPc)
    && ControlOk(s.host.notified, s.control, s.sends, s.heard, s.launcher.Overrun())
    && HostOk(cfg, s.host, s.hostPc, s.launcherEnd)
    && LauncherOk(cfg, s.launcher, s.launcherEnd, s.pid1End) && Pid1Ok(cfg, s.pid1, s.pid1End)
  }

  lemma StartKeeps(cfg: Config)
    ensures Inv(cfg, Start(cfg))
  {
  }

  lemma HostWaitKeeps(cfg: Config, s: System, a: Action)
    requires Inv(cfg, s) && a.HostWaits?
    ensures Inv(cfg, Apply(cfg, s, a))
  {
    var s' := Apply(cfg, s, a);
    if s' != s {
      var h := Host.AwaitLauncher(s.host, a.launcher);
      assert s' == s.(host := h, hostPc := HostGoesOn(h, AtPoll));
      assert h == s.host.(launcherStatus := h.launcherStatus, outcome := h.outcome);
    }
  }

  lemma HostPollKeeps(cfg: Config, s: System, a: Action)
    requires Inv(cfg, s) && a.HostPolls?
    ensures Inv(cfg, Apply(cfg, s, a))
  {
    if Apply(cfg, s, a) != s && a.failed {
      FaultKeepsBudget(s.host.monitor, PollFault, cfg.limit);
      assert Apply(cfg, s, a) == s.(host := Apply(cfg, s, a).host, hostPc := Halted);
    }
  }

  lemma FaultKeepsBudget(m: Monitor, fault: DrainFault, limit: Option<nat>)
    requires Accounted(m, limit) && !fault.CounterOverflow?
    ensures Accounted(m.(fault := Some(fault)), limit)
  {
  }

  lemma HostCheckKeeps(cfg: Config, s: System)
    requires Inv(cfg, s)
    ensures Inv(cfg, Apply(cfg, s, HostChecks))
  {
  }

  lemma NotifyKeeps(cfg: Config, s: System)
    requires Inv(cfg, s)
    ensures Inv(cfg, Apply(cfg, s, HostNotifies))
  {
    var s' := Apply(cfg, s, HostNotifies);
    if s.hostPc == AtNotify {
      assert s' == s.(host := s'.host, hostPc := s'.hostPc, control := s'.control, sends := s'.sends);
      if Host.MustNotify(s.host) {
        assert s.control == [] && s'.control == if s.launcherEnd.None? then [OUTPUT_LIMIT_EXCEEDED] else [];
      }
    }
  }

  /** A read moves bytes from the pipe to the log, on its own stream only. */
  lemma ReadKeepsPipes(
      m: Monitor, stream: Stream, pipe: OutputPipe, other: OutputPipe, ready: bool, answer: StreamAnswer,
      limit: Option<nat>)
    requires m.fault.None? && ReadAnswers(answer, ready, m.Open(stream), pipe)
    requires PipeOk(m, stream, pipe) && PipeOk(m, Other(stream), other)
    ensures var m' := Receive(m, stream, answer, limit);
      && PipeOk(m', stream, TakeRead(pipe, m.Open(stream), answer)) && PipeOk(m', Other(stream), other)
      && (m.limitExceeded ==> m'.limitExceeded)
  {
    ReceiveLogs(m, stream, answer, limit);
    var m' := Receive(m, stream, answer, limit);
    if m.Open(stream) && answer.ready && answer.read.Data? {
      var bytes := answer.read.bytes;
      AppendKeepsPipes(m.received, stream, bytes, stream);
      AppendKeepsPipes(m.received, stream, bytes, Other(stream));
      assert Only(m'.received, stream) == Only(m.received, stream) + bytes;
      assert Only(m'.received, Other(stream)) == Only(m.received, Other(stream));
      assert pipe.queue == bytes + pipe.queue[|bytes|..];
    }
  }

  function Other(stream: Stream): Stream {
    if stream.Stdout? then Stderr else Stdout
  }

  lemma AppendKeepsPipes(log: seq<Tagged>, from: Stream, bytes: seq<Byte>, stream: Stream)
    ensures Only(log + Tag(from, bytes), stream) == Only(log, stream) + if from == stream then bytes else []
  {
    OnlyAppends(log, Tag(from, bytes), stream);
    OnlyTagged(bytes, from, stream);
  }

  lemma ReadStdoutKeeps(cfg: Config, s: System, a: Action)
    requires Inv(cfg, s) && a.HostReadsStdout?
    ensures Inv(cfg, Apply(cfg, s, a))
  {
    if Apply(cfg, s, a) != s {
      ReadKeepsPipes(s.host.monitor, Stdout, s.out, s.err, s.hostPc.outReady, a.answer, cfg.limit);
      ReceiveKeepsBudget(s.host.monitor, Stdout, a.answer, cfg.limit);
    }
  }

  lemma ReadStderrKeeps(cfg: Config, s: System, a: Action)
    requires Inv(cfg, s) && a.HostReadsStderr?
    ensures Inv(cfg, Apply(cfg, s, a))
  {
    if Apply(cfg, s, a) != s {
      ReadKeepsPipes(s.host.monitor, Stderr, s.err, s.out, s.hostPc.errReady, a.answer, cfg.limit);
      ReceiveKeepsBudget(s.host.monitor, Stderr, a.answer, cfg.limit);
    }
  }

  lemma WriteKeepsPipe(m: Monitor, stream: Stream, pipe: OutputPipe, bytes: seq<Byte>)
    requires PipeOk(m, stream, pipe) && pipe.open
    ensures PipeOk(m, stream, OutputPipe(pipe.queue + bytes, true, pipe.written + bytes))
  {
    var log := Only(m.received, stream);
    assert log + (pipe.queue + bytes) == (log + pipe.queue) + bytes;
  }

  lemma AppWriteKeeps(cfg: Config, s: System, a: Action)
    requires Inv(cfg, s) && a.AppWrites?
    ensures Inv(cfg, Apply(cfg, s, a))
  {
    if a.stream.Stdout? && s.out.open {
      WriteKeepsPipe(s.host.monitor, Stdout, s.out, a.bytes);
    }
    if a.stream.Stderr? && s.err.open {
      WriteKeepsPipe(s.host.monitor, Stderr, s.err, a.bytes);
    }
  }

  lemma ClosingKeepsPipe(m: Monitor, stream: Stream, pipe: OutputPipe, ready: bool)
    requires PipeOk(m, stream, pipe)
    ensures PipeOk(m, stream, pipe.(open := false))
    ensures Readiness(ready, pipe) ==> Readiness(ready, pipe.(open := false))
  {
  }

  lemma CloseStdoutKeeps(cfg: Config, s: System)
    requires Inv(cfg, s)
    ensures Inv(cfg, Apply(cfg, s, AppCloses(Stdout)))
  {
    ClosingKeepsPipe(s.host.monitor, Stdout, s.out, s.hostPc.AtStdout? && s.hostPc.outReady);
  }

  lemma CloseStderrKeeps(cfg: Config, s: System)
    requires Inv(cfg, s)
    ensures Inv(cfg, Apply(cfg, s, AppCloses(Stderr)))
  {
    ClosingKeepsPipe(s.host.monitor, Stderr, s.err, false);
  }

  /** Looking sets the flag exactly if the request is heard. */
  lemma LookSetsFlag(w: LauncherWait.Waiter, t: LauncherWait.Turn)
    requires w.outcome.Running? && !w.overrun && !w.timedOut
    ensures var w' := LauncherWait.CheckControl(w, t);
      && w'.overrun == t.control.Requested? && !w'.outcome.Done?
  {
  }

  lemma DirectLookKeeps(cfg: Config, s: System, a: Action)
    requires Inv(cfg, s) && a.DirectLooks?
    ensures Inv(cfg, Apply(cfg, s, a))
  {
    if s.launcher.Direct? && LauncherRuns(s) && !s.launcher.Overrun() && !s.launcher.wait.timedOut {
      LookSetsFlag(s.launcher.wait, a.turn.(control := LookAt(s.control, a.trouble).1));
    }
  }

  lemma DirectWaitKeeps(cfg: Config, s: System, a: Action)
    requires Inv(cfg, s) && a.DirectWaits?
    ensures Inv(cfg, Apply(cfg, s, a))
  {
  }

  lemma WatchLookKeeps(cfg: Config, s: System, a: Action)
    requires Inv(cfg, s) && a.WatchLooks?
    ensures Inv(cfg, Apply(cfg, s, a))
  {
  }

  lemma WatchWaitKeeps(cfg: Config, s: System, a: Action)
    requires Inv(cfg, s) && a.WatchWaits?
    ensures Inv(cfg, Apply(cfg, s, a))
  {
  }

  lemma SupervisorNeverBlamesOutput(p: Supervisor.Sup, main: int, execution: Option<nat>, t: Supervisor.Turn)
    requires p.outcome.Running?
    ensures Supervisor.Step(p, main, execution, t).outcome != Done(OutputLimitExceeded)
  {
  }

  lemma Pid1TurnKeeps(cfg: Config, s: System, a: Action)
    requires Inv(cfg, s) && a.Pid1Turns?
    ensures Inv(cfg, Apply(cfg, s, a))
  {
    if Pid1Runs(cfg, s) {
      SupervisorNeverBlamesOutput(s.pid1, cfg.main, cfg.execution, a.supervised);
    }
  }

  lemma LauncherExitKeeps(cfg: Config, s: System)
    requires Inv(cfg, s)
    ensures Inv(cfg, Apply(cfg, s, LauncherExits))
  {
  }

  lemma Pid1ExitKeeps(cfg: Config, s: System)
    requires Inv(cfg, s)
    ensures Inv(cfg, Apply(cfg, s, Pid1Exits))
  {
  }

  lemma MoveKeeps(cfg: Config, s: System, a: Action)
    requires Inv(cfg, s) && a.ProcessMoves?
    ensures Inv(cfg, Apply(cfg, s, a))
  {
  }

  lemma Pid1KilledKeeps(cfg: Config, s: System, a: Action)
    requires Inv(cfg, s) && a.Pid1Killed?
    ensures Inv(cfg, Apply(cfg, s, a))
  {
  }

  lemma LauncherKilledKeeps(cfg: Config, s: System, a: Action)
    requires Inv(cfg, s) && a.LauncherKilled?
    ensures Inv(cfg, Apply(cfg, s, a))
  {
  }

  lemma ActionKeeps(cfg: Config, s: System, a: Action)
    requires Inv(cfg, s)
    ensures Inv(cfg, Apply(cfg, s, a))
  {
    match a
    case HostWaits(_) => HostWaitKeeps(cfg, s, a);
    case HostPolls(_, _, _) => HostPollKeeps(cfg, s, a);
    case HostReadsStdout(_) => ReadStdoutKeeps(cfg, s, a);
    case HostReadsStderr(_) => ReadStderrKeeps(cfg, s, a);
    case HostNotifies => NotifyKeeps(cfg, s);
    case HostChecks => HostCheckKeeps(cfg, s);
    case AppWrites(_, _) => AppWriteKeeps(cfg, s, a);
    case AppCloses(stream) =>
      if stream.Stdout? {
        CloseStdoutKeeps(cfg, s);
      } else {
        CloseStderrKeeps(cfg, s);
      }
    case DirectLooks(_, _) => DirectLookKeeps(cfg, s, a);
    case DirectWaits(_) => DirectWaitKeeps(cfg, s, a);
    case WatchLooks(_, _) => WatchLookKeeps(cfg, s, a);
    case WatchWaits(_) => WatchWaitKeeps(cfg, s, a);
    case LauncherExits => LauncherExitKeeps(cfg, s);
    case LauncherKilled(_) => LauncherKilledKeeps(cfg, s, a);
    case Pid1Turns(_) => Pid1TurnKeeps(cfg, s, a);
    case Pid1Exits => Pid1ExitKeeps(cfg, s);
    case Pid1Killed(_) => Pid1KilledKeeps(cfg, s, a);
    case ProcessMoves(_) => MoveKeeps(cfg, s, a);
  }

  lemma {:induction false} EveryReachableStateIsOk(cfg: Config, actions: seq<Action>)
    ensures Inv(cfg, Reach(cfg, actions))
  {
    if actions == [] {
      StartKeeps(cfg);
    } else {
      var front := actions[..|actions| - 1];
      EveryReachableStateIsOk(cfg, front);
      ActionKeeps(cfg, Reach(cfg, front), actions[|actions| - 1]);
    }
  }

  // ---------- what holds in every reachable state ----------

  /** No launcher believes in an overrun that did not happen: if its flag is set, or
      it concludes so, exactly one control byte was ever sent and the application
      really wrote more than the limit allows. */
  lemma OverrunIsReal(cfg: Config, actions: seq<Action>)
    ensures var s := Reach(cfg, actions);
            s.launcher.Overrun() || s.launcher.Outcome() == Done(OutputLimitExceeded) ==>
              && s.sends == 1 && s.heard == 1 && s.control == []
              && s.host.notified && s.host.monitor.limitExceeded
              && cfg.limit.Some? && |s.out.written| + |s.err.written| > cfg.limit.value
  {
    EveryReachableStateIsOk(cfg, actions);
    if Reach(cfg, actions).launcher.Overrun() {
      FlagIsReal(cfg, Reach(cfg, actions));
    }
  }

  lemma FlagIsReal(cfg: Config, s: System)
    requires Inv(cfg, s) && s.launcher.Overrun()
    ensures s.sends == 1 && s.heard == 1 && s.control == []
    ensures s.host.notified && s.host.monitor.limitExceeded
    ensures cfg.limit.Some? && |s.out.written| + |s.err.written| > cfg.limit.value
  {
    var m := s.host.monitor;
    ReceivedWasWritten(m.received);
    assert |Only(m.received, Stdout)| + |s.out.queue| == |s.out.written|;
    assert |Only(m.received, Stderr)| + |s.err.queue| == |s.err.written|;
  }

  lemma {:induction false} ReceivedWasWritten(log: seq<Tagged>)
    ensures |log| == |Only(log, Stdout)| + |Only(log, Stderr)|
  {
    if log == [] {
    } else {
      ReceivedWasWritten(log[..|log| - 1]);
    }
  }

  /** The control pipe never holds more than the one byte, so the host's write never
      finds it full; it fails only if the launcher has already ended. */
  lemma ControlPipeNeverFills(cfg: Config, actions: seq<Action>)
    ensures var s := Reach(cfg, actions);
      && |s.control| <= 1 && s.sends <= 1
      && s.host.outcome != Host.HostFailed(Host.SendFailed(PipeFull))
      && (Host.MustNotify(s.host) ==>
            s.control == [] && (SendOn(s.control, s.launcherEnd.None?).1.Accepted? <==> s.launcherEnd.None?))
  {
    EveryReachableStateIsOk(cfg, actions);
  }

  /** The launcher has ended with the status the host returns, every byte the
      application ever wrote has been read and counted, exactly the first bytes up to the
      limit have been forwarded, and the overrun was announced exactly once if there was
      one and never otherwise. */
  ghost predicate Complete(cfg: Config, s: System)
    requires s.host.outcome.LoopDone?
  {
    var m := s.host.monitor;
    var total := |s.out.written| + |s.err.written|;
    var exceeded := cfg.limit.Some? && total > cfg.limit.value;
    && s.launcherEnd == Some(s.host.outcome.status)
    && !s.out.open && !s.err.open
    && Only(m.received, Stdout) == s.out.written && Only(m.received, Stderr) == s.err.written
    && m.totalBytes == |m.received| == total
    && m.forwarded == m.received[..Cap(total, cfg.limit)]
    && m.limitExceeded == exceeded
    && s.sends == (if exceeded then 1 else 0)
  }

  /** When the host's loop is done, nothing is missing. */
  lemma DoneMeansComplete(cfg: Config, actions: seq<Action>)
    requires Reach(cfg, actions).host.outcome.LoopDone?
    ensures Complete(cfg, Reach(cfg, actions))
  {
    EveryReachableStateIsOk(cfg, actions);
    DoneStateIsComplete(cfg, Reach(cfg, actions));
  }

  lemma DoneStateIsComplete(cfg: Config, s: System)
    requires Inv(cfg, s) && s.host.outcome.LoopDone?
    ensures Complete(cfg, s)
  {
    DrainedIsWritten(cfg, s);
    DoneIsAccounted(cfg, s);
  }

  lemma DoneIsAccounted(cfg: Config, s: System)
    requires Inv(cfg, s) && s.host.outcome.LoopDone?
    ensures var m := s.host.monitor;
      && m.totalBytes == |m.received| && m.forwarded == m.received[..Cap(|m.received|, cfg.limit)]
      && m.limitExceeded == (cfg.limit.Some? && |m.received| > cfg.limit.value)
      && s.sends == (if m.limitExceeded then 1 else 0)
      && s.launcherEnd == Some(s.host.outcome.status)
  {
  }

  lemma DrainedIsWritten(cfg: Config, s: System)
    requires Inv(cfg, s) && s.host.outcome.LoopDone?
    ensures !s.out.open && !s.err.open
    ensures Only(s.host.monitor.received, Stdout) == s.out.written
    ensures Only(s.host.monitor.received, Stderr) == s.err.written
    ensures |s.host.monitor.received| == |s.out.written| + |s.err.written|
  {
    ReceivedWasWritten(s.host.monitor.received);
    assert s.out.queue == [] && s.err.queue == [];
  }
}
