/** What the host concludes of a whole run, told from what happened in it: whether the
    launcher heard of an overrun, whether the time ran out, how the application ended. */
module Verdicts {
  import opened Kernel
  import opened ExitCodes
  import opened Runtime
  import opened Composition
  import LauncherWait
  import Supervisor
  import ProcessTable
  import Escalation

  // ---------- what happened, told from the actions ----------

  /** A running launcher begins a turn. */
  predicate Looks(s: System, a: Action) {
    && LauncherRuns(s) && !s.midTurn
    && ((a.DirectLooks? && s.launcher.Direct?) || (a.WatchLooks? && s.launcher.ThroughPid1?))
  }

  /** The process that has the timeout finds the application past its deadline: the
      launcher by a poll of the live application, PID 1 at the beginning of a turn with
      the application's main process not yet reaped. */
  predicate FindsExpiry(cfg: Config, s: System, a: Action) {
    cfg.execution.Some? &&
    match a
    case DirectWaits(turn) =>
      && LauncherRuns(s) && s.midTurn && s.launcher.Direct? && DirectAnswers(cfg, s, turn.wait)
      && turn.wait.Alive() && turn.check >= cfg.execution.value
    case Pid1Turns(t) =>
      && Pid1Runs(cfg, s) && Pid1Answers(cfg, s, t) && Supervisor.ForwardStep(s.pid1, t).outcome.Running?
      && cfg.main in s.world.table && t.check >= cfg.execution.value
    case _ => false
  }

  ghost predicate TimeRanOut(cfg: Config, actions: seq<Action>) {
    actions != [] &&
    var front, a := actions[..|actions| - 1], actions[|actions| - 1];
    TimeRanOut(cfg, front) || FindsExpiry(cfg, Reach(cfg, front), a)
  }

  /** A look hears of the overrun: it is not disturbed, the host has made its
      announcement, and a launcher with a timeout of its own has not yet timed out. */
  ghost predicate Hears(cfg: Config, before: seq<Action>, a: Action) {
    var s := Reach(cfg, before);
    && Looks(s, a) && a.trouble.NoTrouble?
    && s.host.notified && (cfg.pidNamespace || !TimeRanOut(cfg, before))
  }

  ghost predicate Heard(cfg: Config, actions: seq<Action>) {
    actions != [] &&
    var front, a := actions[..|actions| - 1], actions[|actions| - 1];
    Heard(cfg, front) || Hears(cfg, front, a)
  }

  // ---------- the flags are what happened ----------

  lemma LookHears(cfg: Config, s: System, a: Action)
    requires Inv(cfg, s) && Looks(s, a)
    ensures var s' := Apply(cfg, s, a);
            var deaf := s.launcher.Direct? && s.launcher.wait.timedOut;
      && s'.launcher.Direct? == s.launcher.Direct?
      && (s.launcher.Direct? ==> s'.launcher.wait.timedOut == s.launcher.wait.timedOut)
      && (s'.launcher.Overrun() <==> s.launcher.Overrun() || (a.trouble.NoTrouble? && s.host.notified && !deaf))
  {
  }

  lemma OthersLeaveFlags(cfg: Config, s: System, a: Action)
    requires !Looks(s, a) && s.launcher.Direct? == !cfg.pidNamespace
    ensures var s' := Apply(cfg, s, a);
      && s'.launcher.Direct? == s.launcher.Direct?
      && s'.launcher.Overrun() == s.launcher.Overrun()
      && (s.launcher.Direct? && !s.launcher.Overrun() ==>
            (s'.launcher.wait.timedOut <==> s.launcher.wait.timedOut || FindsExpiry(cfg, s, a)))
  {
  }

  /** The launcher's flags are set exactly by what they stand for. */
  lemma {:induction false} LauncherFlagsTold(cfg: Config, actions: seq<Action>)
    ensures var s := Reach(cfg, actions);
      && (s.launcher.Overrun() <==> Heard(cfg, actions))
      && s.launcher.Direct? == !cfg.pidNamespace
      && (s.launcher.Direct? && !s.launcher.Overrun() ==> (s.launcher.wait.timedOut <==> TimeRanOut(cfg, actions)))
  {
    if actions == [] {
    } else {
      var front, a := actions[..|actions| - 1], actions[|actions| - 1];
      var s := Reach(cfg, front);
      LauncherFlagsTold(cfg, front);
      EveryReachableStateIsOk(cfg, front);
      if Looks(s, a) {
        LookHears(cfg, s, a);
      } else {
        OthersLeaveFlags(cfg, s, a);
      }
    }
  }

  lemma StepTimesOut(s: Supervisor.Sup, main: int, execution: Option<nat>, t: Supervisor.Turn)
    requires s.outcome.Running?
    ensures Supervisor.Step(s, main, execution, t).timedOut <==>
              || s.timedOut
              || (Supervisor.ForwardStep(s, t).outcome.Running? && s.status.None? && Supervisor.Expires(t, execution))
  {
  }

  lemma Pid1TurnFlags(cfg: Config, s: System, a: Action)
    requires s.pid1.status.None? <==> cfg.main in s.world.table
    requires s.launcher.ThroughPid1? && cfg.pidNamespace
    ensures Apply(cfg, s, a).pid1.timedOut <==> s.pid1.timedOut || FindsExpiry(cfg, s, a)
  {
    if a.Pid1Turns? && Pid1Runs(cfg, s) && Pid1Answers(cfg, s, a.supervised) {
      StepTimesOut(s.pid1, cfg.main, cfg.execution, a.supervised);
      Pid1TurnEffect(cfg, s, a);
    } else if !a.ProcessMoves? {
      OthersLeavePid1(cfg, s, a);
    }
  }

  /** The main process is in the table as long as PID 1 has not reaped it. */
  lemma MainInTable(cfg: Config, actions: seq<Action>)
    requires cfg.main != ProcessTable.INIT
    ensures var s := Reach(cfg, actions);
            ProcessTable.Balanced(s.world, s.pid1.reaped, s.pid1.status, cfg.main)
  {
    var slots, moves := Pid1RunsItsLoop(cfg, actions);
    var s := ProcessTable.State(slots, cfg.main, cfg.execution);
    ProcessTable.Conservation(slots, cfg.main, cfg.execution);
    ProcessTable.MovesKeepBalance(ProcessTable.WorldAfter(slots, cfg.main, cfg.execution), moves,
                                  s.reaped, s.status, cfg.main);
  }

  lemma {:induction false} Pid1FlagTold(cfg: Config, actions: seq<Action>)
    requires cfg.main != ProcessTable.INIT && cfg.pidNamespace
    ensures Reach(cfg, actions).pid1.timedOut <==> TimeRanOut(cfg, actions)
  {
    if actions == [] {
    } else {
      var front := actions[..|actions| - 1];
      Pid1FlagTold(cfg, front);
      MainInTable(cfg, front);
      LauncherFlagsTold(cfg, front);
      Pid1TurnFlags(cfg, Reach(cfg, front), actions[|actions| - 1]);
    }
  }

  // ---------- the end of the application ----------

  /** The process has ended for good. */
  ghost predicate Settled(w: ProcessTable.World, pid: int) {
    pid in w.used && (pid in w.fates ==> !ProcessTable.Live(w, pid))
  }

  lemma MoveSettles(w: ProcessTable.World, m: ProcessTable.Move, pid: int)
    requires Settled(w, pid)
    ensures var w' := ProcessTable.Apply(w, m);
            Settled(w', pid) && (pid in w.fates ==> pid in w'.fates && w'.fates[pid] == w.fates[pid])
  {
  }

  lemma {:induction false} MovesSettle(w: ProcessTable.World, moves: seq<ProcessTable.Move>, pid: int)
    requires Settled(w, pid)
    ensures var w' := ProcessTable.ApplyAll(w, moves);
            Settled(w', pid) && (pid in w.fates ==> pid in w'.fates && w'.fates[pid] == w.fates[pid])
    decreases |moves|
  {
    if moves == [] {
    } else {
      MoveSettles(w, moves[0], pid);
      MovesSettle(ProcessTable.Apply(w, moves[0]), moves[1..], pid);
    }
  }

  /** A launcher that waited for the application itself has its true end. */
  ghost predicate DirectResultOk(cfg: Config, s: System) {
    s.launcher.Direct? && s.launcher.wait.outcome.Done? ==>
      && cfg.main in s.world.fates
      && s.launcher.wait.outcome.result == LauncherWait.Verdict(s.launcher.wait, s.world.fates[cfg.main])
  }

  lemma ActionSettles(cfg: Config, s: System, a: Action)
    requires Settled(s.world, cfg.main) && DirectResultOk(cfg, s)
    ensures Settled(Apply(cfg, s, a).world, cfg.main) && DirectResultOk(cfg, Apply(cfg, s, a))
  {
    if a.ProcessMoves? {
      MoveSettles(s.world, a.move, cfg.main);
    }
  }

  lemma {:induction false} DirectResultIsTrue(cfg: Config, actions: seq<Action>)
    ensures Settled(Reach(cfg, actions).world, cfg.main) && DirectResultOk(cfg, Reach(cfg, actions))
  {
    if actions == [] {
    } else {
      DirectResultIsTrue(cfg, actions[..|actions| - 1]);
      ActionSettles(cfg, Reach(cfg, actions[..|actions| - 1]), actions[|actions| - 1]);
    }
  }

  /** PID 1 concludes only when nothing is left, and then with the timeout or the true
      end of the application. */
  lemma Pid1ResultIsTrue(cfg: Config, actions: seq<Action>)
    requires cfg.main != ProcessTable.INIT && Reach(cfg, actions).pid1.outcome.Done?
    ensures var s := Reach(cfg, actions);
      && cfg.main in s.world.fates
      && s.pid1.outcome.result == if s.pid1.timedOut then TimedOut else Finished(s.world.fates[cfg.main])
  {
    var slots, moves := Pid1RunsItsLoop(cfg, actions);
    var n := |slots| - 1;
    var w := ProcessTable.WorldAfter(slots, cfg.main, cfg.execution);
    Escalation.OnlyNoChildIsDone(ProcessTable.State(slots[..n], cfg.main, cfg.execution), cfg.main, cfg.execution,
                                 slots[n].turn);
    ProcessTable.NothingLeftBehind(slots, cfg.main, cfg.execution);
    ProcessTable.Conservation(slots, cfg.main, cfg.execution);
    MovesSettle(w, moves, cfg.main);
  }

  // ---------- the verdict ----------

  datatype Verdict =
    | LauncherFailed
    | OutputOverran
    | Pid1WasKilled(signal: int)
    | Pid1Failed
    | TimeOver
    | OwnEnd(status: WaitStatus)

  function VerdictIn(cfg: Config, s: System, heard: bool, late: bool): Verdict {
    if s.launcher.Outcome().Failed? then LauncherFailed
    else if heard then OutputOverran
    else if cfg.pidNamespace && s.pid1End.Some? && s.pid1End.value.Signaled? then Pid1WasKilled(s.pid1End.value.signal)
    else if cfg.pidNamespace && s.pid1.outcome.Failed? then Pid1Failed
    else if late then TimeOver
    else OwnEnd(if cfg.main in s.world.fates then s.world.fates[cfg.main] else StillAlive)
  }

  /** Why a finished run ended as it did, by what happened in it. */
  ghost function VerdictOf(cfg: Config, actions: seq<Action>): Verdict {
    VerdictIn(cfg, Reach(cfg, actions), Heard(cfg, actions), TimeRanOut(cfg, actions))
  }

  function VerdictCode(v: Verdict): int {
    match v
    case LauncherFailed => RUNTIME_ERROR
    case OutputOverran => OUTPUT_LIMIT
    case Pid1WasKilled(signal) => 128 + signal
    case Pid1Failed => RUNTIME_ERROR
    case TimeOver => TIMED_OUT
    case OwnEnd(status) => ExitCode(status)
  }

  /** The flags and the results stand for what happened. */
  ghost predicate FactsOk(cfg: Config, s: System, heard: bool, late: bool) {
    && s.launcher.Direct? == !cfg.pidNamespace && s.launcher.Overrun() == heard
    && DirectResultOk(cfg, s)
    && (s.launcher.Direct? && !heard ==> s.launcher.wait.timedOut == late)
    && (cfg.pidNamespace ==> s.pid1.timedOut == late)
    && (cfg.pidNamespace && s.pid1.outcome.Done? ==>
          && cfg.main in s.world.fates
          && s.pid1.outcome.result == if late then TimedOut else Finished(s.world.fates[cfg.main]))
    && LauncherOk(cfg, s.launcher, s.launcherEnd, s.pid1End) && Pid1Ok(cfg, s.pid1, s.pid1End)
  }

  lemma FactsTold(cfg: Config, actions: seq<Action>)
    requires cfg.main != ProcessTable.INIT
    ensures FactsOk(cfg, Reach(cfg, actions), Heard(cfg, actions), TimeRanOut(cfg, actions))
  {
    EveryReachableStateIsOk(cfg, actions);
    LauncherFlagsTold(cfg, actions);
    DirectResultIsTrue(cfg, actions);
    if cfg.pidNamespace {
      Pid1FlagTold(cfg, actions);
      if Reach(cfg, actions).pid1.outcome.Done? {
        Pid1ResultIsTrue(cfg, actions);
      }
    }
  }

  lemma DirectEndedWith(cfg: Config, s: System, heard: bool, late: bool)
    requires FactsOk(cfg, s, heard, late) && s.launcher.Direct? && !s.launcher.Outcome().Running?
    ensures var v := VerdictIn(cfg, s, heard, late);
      && CodeOf(s.launcher.Outcome()) == VerdictCode(v)
      && (v.OwnEnd? ==> cfg.main in s.world.fates)
  {
  }

  lemma WatchEndedWith(cfg: Config, s: System, heard: bool, late: bool)
    requires FactsOk(cfg, s, heard, late) && s.launcher.ThroughPid1? && !s.launcher.Outcome().Running?
    ensures var v := VerdictIn(cfg, s, heard, late);
      && CodeOf(s.launcher.Outcome()) % 256 == VerdictCode(v) % 256
      && (v.OwnEnd? ==> cfg.main in s.world.fates)
  {
    if s.launcher.Outcome().Done? && !heard {
      assert s.launcher.Outcome().result == Finished(s.pid1End.value);
    }
  }

  lemma LauncherEndedWith(cfg: Config, actions: seq<Action>)
    requires cfg.main != ProcessTable.INIT && !Reach(cfg, actions).launcher.Outcome().Running?
    ensures CodeOf(Reach(cfg, actions).launcher.Outcome()) % 256 == VerdictCode(VerdictOf(cfg, actions)) % 256
    ensures VerdictOf(cfg, actions).OwnEnd? ==> cfg.main in Reach(cfg, actions).world.fates
  {
    FactsTold(cfg, actions);
    if Reach(cfg, actions).launcher.Direct? {
      DirectEndedWith(cfg, Reach(cfg, actions), Heard(cfg, actions), TimeRanOut(cfg, actions));
    } else {
      WatchEndedWith(cfg, Reach(cfg, actions), Heard(cfg, actions), TimeRanOut(cfg, actions));
    }
  }

  /** End to end: a finished host returns the code of what happened, or the signal that
      killed the launcher. */
  lemma HostSeesTheVerdict(cfg: Config, actions: seq<Action>)
    requires cfg.main != ProcessTable.INIT && Reach(cfg, actions).host.outcome.LoopDone?
    ensures var status := Reach(cfg, actions).host.outcome.status;
      && status.Terminal()
      && (status.Exited? ==> status.code == VerdictCode(VerdictOf(cfg, actions)) % 256)
  {
    EveryReachableStateIsOk(cfg, actions);
    if Reach(cfg, actions).host.outcome.status.Exited? {
      LauncherEndedWith(cfg, actions);
    }
  }

  /** The exit codes are honest, with or without a PID namespace.  The host returns 125
      exactly if the launcher heard of the overrun, which then was a real one, and 124
      exactly if the time ran out, in both cases unless the application ended by itself
      with that code; and otherwise, failures apart, it returns the application's own
      code. */
  lemma CodesAreHonest(cfg: Config, actions: seq<Action>)
    requires cfg.main != ProcessTable.INIT
    requires var h := Reach(cfg, actions).host.outcome;
             h.LoopDone? && h.status.Exited?
    ensures var v, code := VerdictOf(cfg, actions), Reach(cfg, actions).host.outcome.status.code;
      && (code == OUTPUT_LIMIT <==> v.OutputOverran? || (v.OwnEnd? && ExitCode(v.status) % 256 == OUTPUT_LIMIT))
      && (code == TIMED_OUT <==> v.TimeOver? || (v.OwnEnd? && ExitCode(v.status) % 256 == TIMED_OUT))
      && (v.OwnEnd? ==> code == ExitCode(v.status) % 256)
    ensures VerdictMeans(cfg, actions)
  {
    HostSeesTheVerdict(cfg, actions);
    FactsTold(cfg, actions);
    CodesApart(cfg, Reach(cfg, actions), Heard(cfg, actions), TimeRanOut(cfg, actions));
    VerdictIsMeant(cfg, actions);
  }

  /** An overrun, a timeout and an end that a verdict speaks of have really been. */
  ghost predicate VerdictMeans(cfg: Config, actions: seq<Action>) {
    var s, v := Reach(cfg, actions), VerdictOf(cfg, actions);
    && (v.OutputOverran? ==>
          && Heard(cfg, actions)
          && cfg.limit.Some? && |s.out.written| + |s.err.written| > cfg.limit.value)
    && (v.TimeOver? ==> cfg.execution.Some? && TimeRanOut(cfg, actions) && !Heard(cfg, actions))
    && (v.OwnEnd? ==>
          && cfg.main in s.world.fates && v.status == s.world.fates[cfg.main]
          && !Heard(cfg, actions) && !TimeRanOut(cfg, actions))
  }

  lemma VerdictIsMeant(cfg: Config, actions: seq<Action>)
    requires cfg.main != ProcessTable.INIT && Reach(cfg, actions).host.outcome.LoopDone?
    requires Reach(cfg, actions).host.outcome.status.Exited?
    ensures VerdictMeans(cfg, actions)
  {
    EveryReachableStateIsOk(cfg, actions);
    LauncherEndedWith(cfg, actions);
    LauncherFlagsTold(cfg, actions);
    OverrunIsReal(cfg, actions);
    if TimeRanOut(cfg, actions) {
      TimeNeedsTimeout(cfg, actions);
    }
  }

  lemma CodesApart(cfg: Config, s: System, heard: bool, late: bool)
    requires FactsOk(cfg, s, heard, late)
    ensures var v := VerdictIn(cfg, s, heard, late);
      && (VerdictCode(v) % 256 == OUTPUT_LIMIT <==>
            v.OutputOverran? || (v.OwnEnd? && ExitCode(v.status) % 256 == OUTPUT_LIMIT))
      && (VerdictCode(v) % 256 == TIMED_OUT <==>
            v.TimeOver? || (v.OwnEnd? && ExitCode(v.status) % 256 == TIMED_OUT))
  {
  }

  lemma {:induction false} TimeNeedsTimeout(cfg: Config, actions: seq<Action>)
    requires TimeRanOut(cfg, actions)
    ensures cfg.execution.Some?
  {
    if TimeRanOut(cfg, actions[..|actions| - 1]) {
      TimeNeedsTimeout(cfg, actions[..|actions| - 1]);
    }
  }

  /** When an overrun is reported as one.  In every finished run whose output exceeded
      the limit the announcement was made; it was heard exactly if the byte is no
      longer in the pipe; and the host returns the dedicated code exactly if it was
      heard and the launcher did not fail, or if the application's own code is 125. */
  lemma OverrunReportedExactly(cfg: Config, actions: seq<Action>)
    requires cfg.main != ProcessTable.INIT
    requires var h := Reach(cfg, actions).host.outcome;
             h.LoopDone? && h.status.Exited?
    requires var s := Reach(cfg, actions);
             cfg.limit.Some? && |s.out.written| + |s.err.written| > cfg.limit.value
    ensures var s := Reach(cfg, actions);
            var v := VerdictOf(cfg, actions);
      && s.host.notified && s.sends == 1
      && (Heard(cfg, actions) <==> s.control == [])
      && (s.host.outcome.status.code == OUTPUT_LIMIT <==>
            || (s.control == [] && !s.launcher.Outcome().Failed?)
            || (v.OwnEnd? && ExitCode(v.status) % 256 == OUTPUT_LIMIT))
  {
    DoneMeansComplete(cfg, actions);
    EveryReachableStateIsOk(cfg, actions);
    LauncherFlagsTold(cfg, actions);
    CodesAreHonest(cfg, actions);
  }

  // ---------- what a missing timeout costs ----------

  function LooksMade(cfg: Config, actions: seq<Action>): nat {
    if actions == [] then 0
    else
      var front, a := actions[..|actions| - 1], actions[|actions| - 1];
      LooksMade(cfg, front) + if Looks(Reach(cfg, front), a) then 1 else 0
  }

  /** No wait of the launcher for the application is interrupted or reports a stop. */
  predicate NeverIdle(actions: seq<Action>) {
    forall i | 0 <= i < |actions| && actions[i].DirectWaits? :: !actions[i].turn.wait.Idle()
  }

  /** Before its first look a launcher is as it was at the start; after it, it is in a
      blocking wait or its loop has ended. */
  ghost predicate OneLookState(s: System, looks: nat) {
    && s.launcher.Direct?
    && match looks
       case 0 => !s.midTurn && s.launcher.wait == LauncherWait.INITIAL
       case 1 => s.midTurn ==> s.blocking
       case _ => false
  }

  lemma OneLookStep(cfg: Config, s: System, a: Action, looks: nat)
    requires cfg.execution.None? && OneLookState(s, looks)
    requires looks == 1 ==> s.midTurn || !s.launcher.Outcome().Running?
    requires a.DirectWaits? ==> !a.turn.wait.Idle()
    ensures var s', n := Apply(cfg, s, a), looks + if Looks(s, a) then 1 else 0;
            OneLookState(s', n) && (n == 1 ==> s'.midTurn || !s'.launcher.Outcome().Running?)
  {
  }

  lemma {:induction false} AtMostOneLook(cfg: Config, actions: seq<Action>)
    requires cfg.execution.None? && !cfg.pidNamespace && NeverIdle(actions)
    ensures var s, n := Reach(cfg, actions), LooksMade(cfg, actions);
            OneLookState(s, n) && (n == 1 ==> s.midTurn || !s.launcher.Outcome().Running?)
  {
    if actions == [] {
    } else {
      var front, a := actions[..|actions| - 1], actions[|actions| - 1];
      AtMostOneLook(cfg, front);
      OneLookStep(cfg, Reach(cfg, front), a, LooksMade(cfg, front));
    }
  }

  /** Without a timeout and without a PID namespace, an overrun is heard only if the
      host announces it before the launcher's first look: while the launcher sits in its
      blocking wait it is deaf. */
  lemma WithoutTimeoutOnlyTheFirstLook(cfg: Config, before: seq<Action>, a: Action)
    requires cfg.execution.None? && !cfg.pidNamespace && NeverIdle(before)
    ensures Hears(cfg, before, a) <==>
              && LooksMade(cfg, before) == 0 && Reach(cfg, before).launcherEnd.None? && a.DirectLooks?
              && a.trouble.NoTrouble? && Reach(cfg, before).host.notified
  {
    AtMostOneLook(cfg, before);
    if TimeRanOut(cfg, before) {
      TimeNeedsTimeout(cfg, before);
    }
  }
}
