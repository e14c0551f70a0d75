/** The host's loop in `run_app`: it watches the launcher, drains the application's
    output and announces an exceeded output limit once. */
module Host {
  import opened Kernel
  import opened Control
  import opened Output

  datatype HostFault = LauncherWaitFault | DrainFailed(drain: DrainFault) | SendFailed(send: SendResult)

  datatype HostOutcome = Looping | LoopDone(status: WaitStatus) | HostFailed(fault: HostFault)

  datatype State = State(
    monitor: Monitor,
    launcherStatus: Option<WaitStatus>,
    notified: bool,
    outcome: HostOutcome)

  const INITIAL_HOST := State(Output.INITIAL, None, false, Looping)

  /** The answers of one iteration.  `send` is what the control pipe answers if the
      loop writes to it. */
  datatype HostTurn = HostTurn(launcher: WaitAnswer, drain: PollAnswer, send: SendResult)

  // ---------- the steps of one iteration ----------

  function AwaitLauncher(h: State, a: WaitAnswer): State {
    if !h.outcome.Looping? || h.launcherStatus.Some? then h
    else match a
      case Status(status) => if status.StillAlive? then h else h.(launcherStatus := Some(status))
      case Interrupted => h
      case NoChild => h.(outcome := HostFailed(LauncherWaitFault))
      case WaitError => h.(outcome := HostFailed(LauncherWaitFault))
  }

  function WithMonitor(h: State, m: Monitor): State {
    h.(monitor := m, outcome := if m.fault.Some? then HostFailed(DrainFailed(m.fault.value)) else h.outcome)
  }

  function DrainStep(h: State, a: PollAnswer, limit: Option<nat>): State {
    if !h.outcome.Looping? then h else WithMonitor(h, Drain(h.monitor, a, limit))
  }

  /** The loop is about to write to the control pipe. */
  predicate MustNotify(h: State) {
    h.outcome.Looping? && h.monitor.limitExceeded && !h.notified
  }

  function NotifyStep(h: State, send: SendResult): State {
    if !MustNotify(h) then h
    else if send.Accepted? then h.(notified := true)
    else h.(outcome := HostFailed(SendFailed(send)))
  }

  function CheckDone(h: State): State {
    if h.outcome.Looping? && h.launcherStatus.Some? && !h.monitor.stdoutOpen && !h.monitor.stderrOpen
    then h.(outcome := LoopDone(h.launcherStatus.value))
    else h
  }

  function Step(h: State, t: HostTurn, limit: Option<nat>): State {
    CheckDone(NotifyStep(DrainStep(AwaitLauncher(h, t.launcher), t.drain, limit), t.send))
  }

  function Run(turns: seq<HostTurn>, limit: Option<nat>): State {
    if turns == [] then INITIAL_HOST
    else
      var h := Run(turns[..|turns| - 1], limit);
      if h.outcome.Looping? then Step(h, turns[|turns| - 1], limit) else h
  }

  /** The loop itself, over the answers of one run. */
  method RunHostLoop(turns: seq<HostTurn>, limit: Option<nat>) returns (h: State)
    ensures h == Run(turns, limit)
  {
    var output := new OutputState();
    var terminal := new Terminal();
    var launcherStatus: Option<WaitStatus> := None;
    var outputLimitNotified := false;
    var outcome := Looping;
    var fault: Option<DrainFault> := None;
    var i := 0;
    while i < |turns| && outcome.Looping?
      invariant 0 <= i <= |turns|
      invariant fresh(output) && fresh(terminal)
      invariant outcome.Looping? ==> fault.None?
      invariant Run(turns[..i], limit)
             == State(output.View(terminal, fault), launcherStatus, outputLimitNotified, outcome)
    {
      var t := turns[i];
      i := i + 1;
      assert turns[..i][..i - 1] == turns[..i - 1];
      if launcherStatus.None? {
        match t.launcher
        case Status(status) =>
          if !status.StillAlive? {
            launcherStatus := Some(status);
          }
        case Interrupted =>
        case NoChild => outcome := HostFailed(LauncherWaitFault);
        case WaitError => outcome := HostFailed(LauncherWaitFault);
      }
      if outcome.Looping? {
        fault := output.DrainAvailableOutput(terminal, t.drain, limit);
        if fault.Some? {
          outcome := HostFailed(DrainFailed(fault.value));
        }
      }
      if outcome.Looping? && output.limitExceeded && !outputLimitNotified {
        if t.send.Accepted? {
          outputLimitNotified := true;
        } else {
          outcome := HostFailed(SendFailed(t.send));
        }
      }
      if outcome.Looping? && launcherStatus.Some? && !output.stdoutOpen && !output.stderrOpen {
        outcome := LoopDone(launcherStatus.value);
      }
    }
    h := State(Monitor(output.stdoutOpen, output.stderrOpen, output.totalBytes, output.limitExceeded,
                       output.received, terminal.written, fault),
               launcherStatus, outputLimitNotified, outcome);
    Stays(turns, limit, i);
  }

  /** Once a run has ended, further answers change nothing. */
  lemma {:induction false} Stays(turns: seq<HostTurn>, limit: Option<nat>, i: nat)
    requires i <= |turns|
    requires i < |turns| ==> !Run(turns[..i], limit).outcome.Looping?
    ensures Run(turns, limit) == Run(turns[..i], limit)
    decreases |turns|
  {
    if i < |turns| {
      var front := turns[..|turns| - 1];
      assert front[..i] == turns[..i];
      assert i == |front| ==> front == turns[..i];
      Stays(front, limit, i);
    } else {
      assert turns[..i] == turns;
    }
  }

  // ---------- when the loop fails and when it ends ----------

  predicate Used(turns: seq<HostTurn>, limit: Option<nat>) {
    turns == [] || Run(turns[..|turns| - 1], limit).outcome.Looping?
  }

  /** The wait for the launcher reports its end. */
  predicate Reports(t: HostTurn) {
    t.launcher.Status? && !t.launcher.status.StillAlive?
  }

  /** Between two iterations: no fault, the launcher's status is known exactly if it has
      been reported, and the overrun is announced exactly if there is one. */
  lemma {:induction false} BetweenIterations(turns: seq<HostTurn>, limit: Option<nat>)
    requires Run(turns, limit).outcome.Looping?
    ensures var h := Run(turns, limit);
      && h.monitor.fault.None? && Accounted(h.monitor, limit) && h.notified == h.monitor.limitExceeded
      && (h.launcherStatus.Some? <==> exists j :: 0 <= j < |turns| && Reports(turns[j]))
  {
    if turns == [] {
    } else {
      var n := |turns| - 1;
      var front, t := turns[..n], turns[n];
      var h := Run(front, limit);
      BetweenIterations(front, limit);
      DrainKeepsBudget(h.monitor, t.drain, limit);
      StepGoesOn(h, t, limit);
      ReportedSoFar(turns);
    }
  }

  lemma StepGoesOn(h: State, t: HostTurn, limit: Option<nat>)
    requires h.outcome.Looping? && h.monitor.fault.None? && h.notified == h.monitor.limitExceeded
    requires Accounted(h.monitor, limit) && Accounted(Drain(h.monitor, t.drain, limit), limit)
    requires Step(h, t, limit).outcome.Looping?
    ensures var h' := Step(h, t, limit);
      && h'.monitor == Drain(h.monitor, t.drain, limit) && h'.monitor.fault.None?
      && h'.notified == h'.monitor.limitExceeded
      && (h'.launcherStatus.Some? <==> h.launcherStatus.Some? || Reports(t))
  {
    DrainGrows(h.monitor, t.drain, limit);
  }

  lemma DrainGrows(m: Monitor, a: PollAnswer, limit: Option<nat>)
    requires m.fault.None?
    ensures m.limitExceeded ==> Drain(m, a, limit).limitExceeded
  {
  }

  lemma ReportedSoFar(turns: seq<HostTurn>)
    requires turns != []
    ensures var n := |turns| - 1;
            (exists j :: 0 <= j < |turns| && Reports(turns[j]))
            <==> Reports(turns[n]) || exists j :: 0 <= j < n && Reports(turns[..n][j])
  {
    var n := |turns| - 1;
    assert forall j | 0 <= j < n :: turns[..n][j] == turns[j];
  }

  /** The total passes the limit with what is read in this iteration. */
  predicate Passes(m: Monitor, m': Monitor, limit: Option<nat>) {
    limit.Some? && |m.received| <= limit.value < |m'.received|
  }

  /** What makes an iteration fail, in this order: the wait for a launcher not yet
      reported, the drain, the announcement. */
  function TurnFault(t: HostTurn, reported: bool, drain: Option<DrainFault>, due: bool): Option<HostFault> {
    if !reported && (t.launcher.NoChild? || t.launcher.WaitError?) then Some(LauncherWaitFault)
    else if drain.Some? then Some(DrainFailed(drain.value))
    else if due && !t.send.Accepted? then Some(SendFailed(t.send))
    else None
  }

  function FaultOf(outcome: HostOutcome): Option<HostFault> {
    match outcome
    case Looping => None
    case LoopDone(_) => None
    case HostFailed(fault) => Some(fault)
  }

  /** A whole run fails exactly if in its last iteration the wait for a launcher whose
      end has never been reported fails, or the drain does, or the total passes the
      limit and the announcement is refused; it ends exactly if it does not fail, the
      launcher's end has been reported in some iteration and both streams are closed. */
  lemma {:induction false} FailsExactly(turns: seq<HostTurn>, limit: Option<nat>)
    requires turns != [] && Used(turns, limit)
    ensures var n, t := |turns| - 1, turns[|turns| - 1];
            var m := Run(turns[..n], limit).monitor;
            var m' := Drain(m, t.drain, limit);
            var reported := exists j :: 0 <= j < n && Reports(turns[..n][j]);
            var fault := TurnFault(t, reported, m'.fault, Passes(m, m', limit));
      && FaultOf(Run(turns, limit).outcome) == fault
      && (Run(turns, limit).outcome.LoopDone? <==>
            fault.None? && (reported || Reports(t)) && !m'.stdoutOpen && !m'.stderrOpen)
  {
    var n := |turns| - 1;
    var h := Run(turns[..n], limit);
    BetweenIterations(turns[..n], limit);
    DrainKeepsBudget(h.monitor, turns[n].drain, limit);
    DrainGrows(h.monitor, turns[n].drain, limit);
    StepFailsExactly(h, turns[n], limit);
  }

  lemma StepFailsExactly(h: State, t: HostTurn, limit: Option<nat>)
    requires h.outcome.Looping? && h.monitor.fault.None?
    ensures var m := Drain(h.monitor, t.drain, limit);
            var fault := TurnFault(t, h.launcherStatus.Some?, m.fault, m.limitExceeded && !h.notified);
      && FaultOf(Step(h, t, limit).outcome) == fault
      && (Step(h, t, limit).outcome.LoopDone? <==>
            fault.None? && (h.launcherStatus.Some? || Reports(t)) && !m.stdoutOpen && !m.stderrOpen)
  {
    var h1 := AwaitLauncher(h, t.launcher);
    if h1.outcome.Looping? {
      EndFailsExactly(h1, Drain(h.monitor, t.drain, limit), t.send);
    }
  }

  lemma EndFailsExactly(h: State, m: Monitor, send: SendResult)
    requires h.outcome.Looping?
    ensures var fault := if m.fault.Some? then Some(DrainFailed(m.fault.value))
                         else if m.limitExceeded && !h.notified && !send.Accepted? then Some(SendFailed(send))
                         else None;
            var outcome := CheckDone(NotifyStep(WithMonitor(h, m), send)).outcome;
      && FaultOf(outcome) == fault
      && (outcome.LoopDone? <==> fault.None? && h.launcherStatus.Some? && !m.stdoutOpen && !m.stderrOpen)
  {
  }
}
