/** Every interleaving of the runtime is, seen by one of its loops, a run of that loop:
    what is proved of the loops over lists of answers holds in the composition. */
module Composition {
  import opened Kernel
  import opened Control
  import opened Output
  import opened Runtime
  import Host
  import LauncherWait
  import Pid1Wait
  import Supervisor
  import ProcessTable

  // ---------- the host ----------

  /** The state of the host at `pc` in an iteration that began in `h0` and has got the
      answers of `t` so far. */
  ghost predicate HostAt(pc: HostPc, h: Host.State, h0: Host.State, t: Host.HostTurn, limit: Option<nat>) {
    var h1 := Host.AwaitLauncher(h0, t.launcher);
    var h2 := Host.DrainStep(h1, t.drain, limit);
    && h0.outcome.Looping? && h0.monitor.fault.None?
    && (pc.Halted? <==> !h.outcome.Looping?)
    && match pc
       case AtLauncher => h == h0
       case AtPoll => h == h1
       case AtStdout(_, _) => h == h1
       case AtStderr(_) =>
         t.drain.Polled? && h == Host.WithMonitor(h1, Receive(h1.monitor, Stdout, t.drain.stdout, limit))
       case AtNotify => h == h2
       case AtCheck => h == Host.NotifyStep(h2, t.send)
       case Halted => h == Host.Step(h0, t, limit)
  }

  lemma HostWaitsAt(cfg: Config, s: System, a: Action, h0: Host.State, t: Host.HostTurn) returns (t': Host.HostTurn)
    requires HostAt(s.hostPc, s.host, h0, t, cfg.limit) && a.HostWaits?
    ensures HostAt(Apply(cfg, s, a).hostPc, Apply(cfg, s, a).host, h0, t', cfg.limit)
  {
    t' := if Apply(cfg, s, a) == s then t else t.(launcher := a.launcher);
  }

  lemma HostPollsAt(cfg: Config, s: System, a: Action, h0: Host.State, t: Host.HostTurn) returns (t': Host.HostTurn)
    requires HostAt(s.hostPc, s.host, h0, t, cfg.limit) && a.HostPolls?
    ensures HostAt(Apply(cfg, s, a).hostPc, Apply(cfg, s, a).host, h0, t', cfg.limit)
  {
    t' := if s.hostPc.AtPoll? && a.failed then t.(drain := PollFailed) else t;
  }

  lemma HostReadsStdoutAt(cfg: Config, s: System, a: Action, h0: Host.State, t: Host.HostTurn)
    returns (t': Host.HostTurn)
    requires HostAt(s.hostPc, s.host, h0, t, cfg.limit) && a.HostReadsStdout?
    ensures HostAt(Apply(cfg, s, a).hostPc, Apply(cfg, s, a).host, h0, t', cfg.limit)
  {
    t' := if Apply(cfg, s, a) == s then t
          else t.(drain := Polled(a.answer, StreamAnswer(false, ReadFailed, Written)));
  }

  lemma HostReadsStderrAt(cfg: Config, s: System, a: Action, h0: Host.State, t: Host.HostTurn)
    returns (t': Host.HostTurn)
    requires HostAt(s.hostPc, s.host, h0, t, cfg.limit) && a.HostReadsStderr?
    ensures HostAt(Apply(cfg, s, a).hostPc, Apply(cfg, s, a).host, h0, t', cfg.limit)
  {
    t' := if Apply(cfg, s, a) == s then t else t.(drain := Polled(t.drain.stdout, a.answer));
  }

  lemma HostNotifiesAt(cfg: Config, s: System, h0: Host.State, t: Host.HostTurn) returns (t': Host.HostTurn)
    requires HostAt(s.hostPc, s.host, h0, t, cfg.limit)
    ensures var s' := Apply(cfg, s, HostNotifies);
            HostAt(s'.hostPc, s'.host, h0, t', cfg.limit)
  {
    t' := if s.hostPc.AtNotify? then t.(send := SendOn(s.control, s.launcherEnd.None?).1) else t;
  }

  predicate ByHost(a: Action) {
    a.HostWaits? || a.HostPolls? || a.HostReadsStdout? || a.HostReadsStderr? || a.HostNotifies? || a.HostChecks?
  }

  lemma OthersLeaveHost(cfg: Config, s: System, a: Action)
    requires !ByHost(a) || (a.HostChecks? && !s.hostPc.AtCheck?)
    ensures Apply(cfg, s, a).host == s.host && Apply(cfg, s, a).hostPc == s.hostPc
  {
  }

  /** One action inside an iteration of the host. */
  lemma HostMoves(cfg: Config, s: System, a: Action, h0: Host.State, t: Host.HostTurn) returns (t': Host.HostTurn)
    requires HostAt(s.hostPc, s.host, h0, t, cfg.limit) && !s.hostPc.AtCheck?
    ensures HostAt(Apply(cfg, s, a).hostPc, Apply(cfg, s, a).host, h0, t', cfg.limit)
  {
    t' := t;
    if a.HostWaits? {
      t' := HostWaitsAt(cfg, s, a, h0, t);
    } else if a.HostPolls? {
      t' := HostPollsAt(cfg, s, a, h0, t);
    } else if a.HostReadsStdout? {
      t' := HostReadsStdoutAt(cfg, s, a, h0, t);
    } else if a.HostReadsStderr? {
      t' := HostReadsStderrAt(cfg, s, a, h0, t);
    } else if a.HostNotifies? {
      t' := HostNotifiesAt(cfg, s, h0, t);
    } else {
      OthersLeaveHost(cfg, s, a);
    }
  }

  /** The check at the end of an iteration begins the next one or ends the loop. */
  lemma HostTurnsOver(cfg: Config, s: System, a: Action, h0: Host.State, t: Host.HostTurn)
    requires HostAt(s.hostPc, s.host, h0, t, cfg.limit) && s.hostPc.AtCheck?
    ensures var s' := Apply(cfg, s, a);
      && (!a.HostChecks? ==> s'.host == s.host && s'.hostPc == s.hostPc)
      && (a.HostChecks? ==>
            && s'.host == Host.Step(h0, t, cfg.limit)
            && (s'.hostPc.AtLauncher? ==> s'.host.outcome.Looping? && s'.host.monitor.fault.None?)
            && s'.hostPc == (if s'.host.outcome.Looping? then AtLauncher else Halted))
  {
  }

  lemma OneMoreHostTurn(turns: seq<Host.HostTurn>, t: Host.HostTurn, limit: Option<nat>)
    requires Host.Run(turns, limit).outcome.Looping?
    ensures Host.Run(turns + [t], limit) == Host.Step(Host.Run(turns, limit), t, limit)
  {
    assert (turns + [t])[..|turns + [t]| - 1] == turns;
  }

  /** In every interleaving the host is where its loop is after some whole iterations
      and a part of one more. */
  lemma {:induction false} HostRunsItsLoop(cfg: Config, actions: seq<Action>)
    returns (turns: seq<Host.HostTurn>, t: Host.HostTurn)
    ensures var s := Reach(cfg, actions);
            HostAt(s.hostPc, s.host, Host.Run(turns, cfg.limit), t, cfg.limit)
  {
    if actions == [] {
      return [], Host.HostTurn(Interrupted, PollFailed, Accepted);
    }
    var front, a := actions[..|actions| - 1], actions[|actions| - 1];
    var s := Reach(cfg, front);
    turns, t := HostRunsItsLoop(cfg, front);
    if !s.hostPc.AtCheck? {
      t := HostMoves(cfg, s, a, Host.Run(turns, cfg.limit), t);
    } else {
      HostTurnsOver(cfg, s, a, Host.Run(turns, cfg.limit), t);
      if Apply(cfg, s, a).hostPc.AtLauncher? {
        OneMoreHostTurn(turns, t, cfg.limit);
        turns := turns + [t];
      }
    }
  }

  /** What the host concludes is what its loop concludes. */
  lemma HostConcludes(cfg: Config, actions: seq<Action>) returns (turns: seq<Host.HostTurn>)
    requires var s := Reach(cfg, actions);
             s.hostPc.AtLauncher? || s.hostPc.Halted?
    ensures Reach(cfg, actions).host == Host.Run(turns, cfg.limit)
  {
    var t;
    turns, t := HostRunsItsLoop(cfg, actions);
    if Reach(cfg, actions).hostPc.Halted? {
      OneMoreHostTurn(turns, t, cfg.limit);
      turns := turns + [t];
    }
  }

  // ---------- PID 1 ----------

  lemma OneMoreMove(w: ProcessTable.World, moves: seq<ProcessTable.Move>, m: ProcessTable.Move)
    ensures ProcessTable.ApplyAll(w, moves + [m]) == ProcessTable.Apply(ProcessTable.ApplyAll(w, moves), m)
    decreases |moves|
  {
    if moves == [] {
      assert [m][1..] == [];
    } else {
      assert (moves + [m])[1..] == moves[1..] + [m];
      OneMoreMove(ProcessTable.Apply(w, moves[0]), moves[1..], m);
    }
  }

  lemma OneMoreSlot(cfg: Config, slots: seq<ProcessTable.Slot>, slot: ProcessTable.Slot)
    requires ProcessTable.Faithful(slots, cfg.main, cfg.execution)
    requires var s := ProcessTable.State(slots, cfg.main, cfg.execution);
             ProcessTable.ReachesWait(s, cfg.execution, slot.turn) ==>
               ProcessTable.CanAnswer(
                 ProcessTable.ApplyAll(ProcessTable.WorldAfter(slots, cfg.main, cfg.execution), slot.moves),
                 slot.turn.wait,
                 Supervisor.Blocking(Supervisor.BeforeWait(s, cfg.execution, slot.turn), cfg.execution))
    ensures (slots + [slot])[..|slots + [slot]| - 1] == slots
    ensures ProcessTable.Faithful(slots + [slot], cfg.main, cfg.execution)
    ensures var s := ProcessTable.State(slots, cfg.main, cfg.execution);
            var w := ProcessTable.ApplyAll(ProcessTable.WorldAfter(slots, cfg.main, cfg.execution), slot.moves);
      && ProcessTable.State(slots + [slot], cfg.main, cfg.execution)
         == Supervisor.Step(s, cfg.main, cfg.execution, slot.turn)
      && ProcessTable.WorldAfter(slots + [slot], cfg.main, cfg.execution)
         == if ProcessTable.ReachesWait(s, cfg.execution, slot.turn)
            then ProcessTable.AfterAnswer(w, slot.turn.wait) else w
  {
    assert (slots + [slot])[..|slots + [slot]| - 1] == slots;
  }

  lemma OthersLeavePid1(cfg: Config, s: System, a: Action)
    requires !a.ProcessMoves? && !(a.Pid1Turns? && Pid1Runs(cfg, s) && Pid1Answers(cfg, s, a.supervised))
    ensures Apply(cfg, s, a).pid1 == s.pid1 && Apply(cfg, s, a).world == s.world
  {
  }

  lemma Pid1TurnEffect(cfg: Config, s: System, a: Action)
    requires a.Pid1Turns? && Pid1Runs(cfg, s) && Pid1Answers(cfg, s, a.supervised)
    ensures var s' := Apply(cfg, s, a);
      && s'.pid1 == Supervisor.Step(s.pid1, cfg.main, cfg.execution, a.supervised)
      && s'.world == if ProcessTable.ReachesWait(s.pid1, cfg.execution, a.supervised)
                     then ProcessTable.AfterAnswer(s.world, a.supervised.wait) else s.world
  {
  }

  /** In every interleaving PID 1 is where its loop is after some whole turns answered
      by the process table, which has made some moves since. */
  lemma {:induction false} Pid1RunsItsLoop(cfg: Config, actions: seq<Action>)
    returns (slots: seq<ProcessTable.Slot>, moves: seq<ProcessTable.Move>)
    ensures ProcessTable.Faithful(slots, cfg.main, cfg.execution)
    ensures slots != [] ==> ProcessTable.State(slots[..|slots| - 1], cfg.main, cfg.execution).outcome.Running?
    ensures var s := Reach(cfg, actions);
      && s.pid1 == ProcessTable.State(slots, cfg.main, cfg.execution)
      && s.world == ProcessTable.ApplyAll(ProcessTable.WorldAfter(slots, cfg.main, cfg.execution), moves)
  {
    if actions == [] {
      return [], [];
    }
    var front, a := actions[..|actions| - 1], actions[|actions| - 1];
    var s := Reach(cfg, front);
    slots, moves := Pid1RunsItsLoop(cfg, front);
    if a.ProcessMoves? {
      OneMoreMove(ProcessTable.WorldAfter(slots, cfg.main, cfg.execution), moves, a.move);
      moves := moves + [a.move];
    } else if a.Pid1Turns? && Pid1Runs(cfg, s) && Pid1Answers(cfg, s, a.supervised) {
      OneMoreSlot(cfg, slots, ProcessTable.Slot(moves, a.supervised));
      Pid1TurnEffect(cfg, s, a);
      slots, moves := slots + [ProcessTable.Slot(moves, a.supervised)], [];
    } else {
      OthersLeavePid1(cfg, s, a);
    }
  }

  // ---------- the launcher ----------

  /** The launcher after the turns `turns`, and after the look of `t` if `midTurn`. */
  ghost predicate DirectAt(s: System, cfg: Config, turns: seq<LauncherWait.Turn>, t: LauncherWait.Turn) {
    && s.launcher.Direct? && LauncherWait.Used(turns, cfg.execution)
    && LauncherWait.WaitsHonestly(turns, cfg.execution)
    && var w := LauncherWait.Run(turns, cfg.execution);
       if s.midTurn then
         && w.outcome.Running? && s.blocking == LauncherWait.Blocking(w, cfg.execution)
         && s.launcher.wait == LauncherWait.CheckControl(w, t)
       else s.launcher.wait == w
  }

  lemma OneMoreDirectTurn(turns: seq<LauncherWait.Turn>, t: LauncherWait.Turn, execution: Option<nat>)
    requires LauncherWait.Run(turns, execution).outcome.Running? && LauncherWait.WaitsHonestly(turns, execution)
    requires LauncherWait.Blocking(LauncherWait.Run(turns, execution), execution) ==> !t.wait.Alive()
    ensures LauncherWait.Used(turns + [t], execution) && LauncherWait.WaitsHonestly(turns + [t], execution)
    ensures LauncherWait.Run(turns + [t], execution)
         == LauncherWait.Step(LauncherWait.Run(turns, execution), execution, t)
  {
    assert (turns + [t])[..|turns + [t]| - 1] == turns;
  }

  lemma OthersLeaveDirect(cfg: Config, s: System, a: Action)
    requires s.launcher.Direct? && !a.DirectLooks? && !a.DirectWaits?
    ensures var s' := Apply(cfg, s, a);
      s'.launcher == s.launcher && s'.midTurn == s.midTurn && s'.blocking == s.blocking
  {
  }

  lemma DirectLookTurns(cfg: Config, s: System, a: Action, turns: seq<LauncherWait.Turn>, t: LauncherWait.Turn)
    returns (t': LauncherWait.Turn)
    requires DirectAt(s, cfg, turns, t) && a.DirectLooks?
    ensures DirectAt(Apply(cfg, s, a), cfg, turns, t')
  {
    t' := if Apply(cfg, s, a) == s then t else a.turn.(control := LookAt(s.control, a.trouble).1);
  }

  /** A turn is the look of one and the wait of the other. */
  function Whole(look: LauncherWait.Turn, wait: LauncherWait.Turn): LauncherWait.Turn {
    wait.(control := look.control, overrunTerm := look.overrunTerm, overrunBase := look.overrunBase)
  }

  lemma WholeTurn(w: LauncherWait.Waiter, execution: Option<nat>, look: LauncherWait.Turn, wait: LauncherWait.Turn)
    requires w.outcome.Running?
    ensures LauncherWait.Step(w, execution, Whole(look, wait))
         == LauncherWait.PollChild(LauncherWait.CheckControl(w, look), execution, wait)
  {
  }

  lemma DirectWaitTurns(cfg: Config, s: System, a: Action, turns: seq<LauncherWait.Turn>, t: LauncherWait.Turn)
    returns (turns': seq<LauncherWait.Turn>)
    requires DirectAt(s, cfg, turns, t) && a.DirectWaits?
    ensures DirectAt(Apply(cfg, s, a), cfg, turns', t)
  {
    turns' := turns;
    if LauncherRuns(s) && s.midTurn && DirectAnswers(cfg, s, a.turn.wait) {
      OneMoreDirectTurn(turns, Whole(t, a.turn), cfg.execution);
      WholeTurn(LauncherWait.Run(turns, cfg.execution), cfg.execution, t, a.turn);
      turns' := turns + [Whole(t, a.turn)];
    }
  }

  /** In every interleaving without a PID namespace the launcher is where its loop is
      after some whole turns and, between a look and a wait, a part of one more. */
  lemma {:induction false} DirectRunsItsLoop(cfg: Config, actions: seq<Action>)
    returns (turns: seq<LauncherWait.Turn>, t: LauncherWait.Turn)
    requires !cfg.pidNamespace
    ensures DirectAt(Reach(cfg, actions), cfg, turns, t)
  {
    if actions == [] {
      return [], LauncherWait.Turn(NotRequested, Delivered, 0, Interrupted, 0, Delivered, 0, 0, Delivered);
    }
    var front, a := actions[..|actions| - 1], actions[|actions| - 1];
    turns, t := DirectRunsItsLoop(cfg, front);
    if a.DirectLooks? {
      t := DirectLookTurns(cfg, Reach(cfg, front), a, turns, t);
    } else if a.DirectWaits? {
      turns := DirectWaitTurns(cfg, Reach(cfg, front), a, turns, t);
    } else {
      OthersLeaveDirect(cfg, Reach(cfg, front), a);
    }
  }

  ghost predicate WatchAt(s: System, turns: seq<Pid1Wait.Turn>, t: Pid1Wait.Turn) {
    && s.launcher.ThroughPid1? && Pid1Wait.Used(turns)
    && var w := Pid1Wait.Run(turns);
       if s.midTurn then w.outcome.Running? && s.launcher.watch == Pid1Wait.CheckControl(w, t)
       else s.launcher.watch == w
  }

  lemma OneMoreWatchTurn(turns: seq<Pid1Wait.Turn>, t: Pid1Wait.Turn)
    requires Pid1Wait.Run(turns).outcome.Running?
    ensures Pid1Wait.Used(turns + [t])
    ensures Pid1Wait.Run(turns + [t]) == Pid1Wait.Step(Pid1Wait.Run(turns), t)
  {
    assert (turns + [t])[..|turns + [t]| - 1] == turns;
  }

  lemma OthersLeaveWatch(cfg: Config, s: System, a: Action)
    requires s.launcher.ThroughPid1? && !a.WatchLooks? && !a.WatchWaits?
    ensures var s' := Apply(cfg, s, a);
      s'.launcher == s.launcher && s'.midTurn == s.midTurn
  {
  }

  lemma WatchLookTurns(cfg: Config, s: System, a: Action, turns: seq<Pid1Wait.Turn>, t: Pid1Wait.Turn)
    returns (t': Pid1Wait.Turn)
    requires WatchAt(s, turns, t) && a.WatchLooks?
    ensures WatchAt(Apply(cfg, s, a), turns, t')
  {
    t' := if Apply(cfg, s, a) == s then t else a.watched.(control := LookAt(s.control, a.trouble).1);
  }

  /** A turn is the look of one and the wait of the other. */
  function Joined(look: Pid1Wait.Turn, wait: Pid1Wait.Turn): Pid1Wait.Turn {
    wait.(control := look.control, term := look.term, termBase := look.termBase)
  }

  lemma JoinedTurn(w: Pid1Wait.Waiter, look: Pid1Wait.Turn, wait: Pid1Wait.Turn)
    requires w.outcome.Running?
    ensures Pid1Wait.Step(w, Joined(look, wait)) == Pid1Wait.PollPid1(Pid1Wait.CheckControl(w, look), wait)
  {
  }

  lemma WatchWaitTurns(cfg: Config, s: System, a: Action, turns: seq<Pid1Wait.Turn>, t: Pid1Wait.Turn)
    returns (turns': seq<Pid1Wait.Turn>)
    requires WatchAt(s, turns, t) && a.WatchWaits?
    ensures WatchAt(Apply(cfg, s, a), turns', t)
  {
    turns' := turns;
    if LauncherRuns(s) && s.midTurn && WaitAnswers(a.watched.wait, s.pid1End) {
      OneMoreWatchTurn(turns, Joined(t, a.watched));
      JoinedTurn(Pid1Wait.Run(turns), t, a.watched);
      turns' := turns + [Joined(t, a.watched)];
    }
  }

  /** The same for the launcher that waits for PID 1. */
  lemma {:induction false} WatchRunsItsLoop(cfg: Config, actions: seq<Action>)
    returns (turns: seq<Pid1Wait.Turn>, t: Pid1Wait.Turn)
    requires cfg.pidNamespace
    ensures WatchAt(Reach(cfg, actions), turns, t)
  {
    if actions == [] {
      return [], Pid1Wait.Turn(NotRequested, Delivered, 0, Interrupted, 0, Delivered);
    }
    var front, a := actions[..|actions| - 1], actions[|actions| - 1];
    turns, t := WatchRunsItsLoop(cfg, front);
    if a.WatchLooks? {
      t := WatchLookTurns(cfg, Reach(cfg, front), a, turns, t);
    } else if a.WatchWaits? {
      turns := WatchWaitTurns(cfg, Reach(cfg, front), a, turns, t);
    } else {
      OthersLeaveWatch(cfg, Reach(cfg, front), a);
    }
  }
}
