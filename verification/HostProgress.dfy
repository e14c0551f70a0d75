/** The host's loop comes to its end: once the launcher has exited and the application
    has closed its output, only so many iterations are left. */
module HostProgress {
  import opened Kernel
  import opened Output
  import opened Runtime

  /** The state after `more` actions. */
  function After(cfg: Config, s: System, more: seq<Action>): System {
    if more == [] then s else Apply(cfg, After(cfg, s, more[..|more| - 1]), more[|more| - 1])
  }

  lemma {:induction false} ReachAfter(cfg: Config, before: seq<Action>, more: seq<Action>)
    ensures Reach(cfg, before + more) == After(cfg, Reach(cfg, before), more)
  {
    if more == [] {
      assert before + more == before;
    } else {
      var front := more[..|more| - 1];
      ReachAfter(cfg, before, front);
      assert (before + more)[..|before + more| - 1] == before + front;
    }
  }

  /** `poll` reports the pipes that are closed, and the wait for the launcher is not
      interrupted. */
  predicate Prompt(s: System, a: Action) {
    match a
    case HostPolls(_, outReady, errReady) => s.hostPc == AtPoll ==> outReady && errReady
    case HostWaits(answer) => s.hostPc == AtLauncher && s.host.launcherStatus.None? ==> !answer.Interrupted?
    case _ => true
  }

  ghost predicate AllPrompt(cfg: Config, s: System, more: seq<Action>) {
    more != [] ==>
      var front := more[..|more| - 1];
      AllPrompt(cfg, s, front) && Prompt(After(cfg, s, front), more[|more| - 1])
  }

  /** How many iterations of the host's loop `more` completes. */
  function Iterations(cfg: Config, s: System, more: seq<Action>): nat {
    if more == [] then 0
    else
      var front := more[..|more| - 1];
      Iterations(cfg, s, front)
      + if After(cfg, s, front).hostPc == AtCheck && more[|more| - 1].HostChecks? then 1 else 0
  }

  // ---------- the iterations that are left ----------

  /** The reads a stream still needs: one for each byte at most, and one for its end. */
  function Reads(open: bool, pipe: OutputPipe): nat {
    if open then |pipe.queue| + 1 else 0
  }

  /** The iterations it takes to do something `n` times, at most once in each, if the
      current one still does it or not. */
  function Needed(n: nat, now: bool): nat {
    if n == 0 || now then n else n + 1
  }

  function Max(a: nat, b: nat): nat {
    if a < b then b else a
  }

  function Left(s: System): nat {
    var pc := s.hostPc;
    var beforeReads := pc.AtLauncher? || pc.AtPoll?;
    Max(1, Max(Needed(if s.host.launcherStatus.None? then 1 else 0, pc.AtLauncher?),
               Max(Needed(Reads(s.host.monitor.stdoutOpen, s.out), beforeReads || (pc.AtStdout? && pc.outReady)),
                   Needed(Reads(s.host.monitor.stderrOpen, s.err),
                          beforeReads || (pc.AtStdout? && pc.errReady) || (pc.AtStderr? && pc.errReady)))))
  }

  /** The launcher has exited and the application has closed its output. */
  predicate Over(s: System) {
    s.launcherEnd.Some? && !s.out.open && !s.err.open
  }

  lemma OverLasts(cfg: Config, s: System, a: Action)
    requires Over(s)
    ensures Over(Apply(cfg, s, a))
  {
  }

  predicate ByHost(a: Action) {
    a.HostWaits? || a.HostPolls? || a.HostReadsStdout? || a.HostReadsStderr? || a.HostNotifies? || a.HostChecks?
  }

  lemma OthersLeaveLeft(cfg: Config, s: System, a: Action)
    requires Over(s) && !ByHost(a)
    ensures Left(Apply(cfg, s, a)) == Left(s) && Apply(cfg, s, a).host == s.host
  {
  }

  lemma ReadStdoutTakesOne(cfg: Config, s: System, a: Action)
    requires Over(s) && a.HostReadsStdout? && s.host.outcome.Looping? && s.host.monitor.fault.None?
    requires Apply(cfg, s, a).host.outcome.Looping?
    ensures Left(Apply(cfg, s, a)) <= Left(s)
  {
    if Apply(cfg, s, a) != s {
      var m := Receive(s.host.monitor, Stdout, a.answer, cfg.limit);
      ReceiveLogs(s.host.monitor, Stdout, a.answer, cfg.limit);
      assert Apply(cfg, s, a).host.monitor == m;
      assert a.answer.ready && s.host.monitor.stdoutOpen ==> a.answer.read.Data?;
    }
  }

  lemma ReadStderrTakesOne(cfg: Config, s: System, a: Action)
    requires Over(s) && a.HostReadsStderr? && s.host.outcome.Looping? && s.host.monitor.fault.None?
    requires Apply(cfg, s, a).host.outcome.Looping?
    ensures Left(Apply(cfg, s, a)) <= Left(s)
  {
    if Apply(cfg, s, a) != s {
      var m := Receive(s.host.monitor, Stderr, a.answer, cfg.limit);
      ReceiveLogs(s.host.monitor, Stderr, a.answer, cfg.limit);
      assert Apply(cfg, s, a).host.monitor == m;
      assert a.answer.ready && s.host.monitor.stderrOpen ==> a.answer.read.Data?;
    }
  }

  lemma WaitKeepsLeft(cfg: Config, s: System, a: Action)
    requires Over(s) && a.HostWaits? && Prompt(s, a) && s.launcherEnd.value.Terminal()
    requires s.host.outcome.Looping? && Apply(cfg, s, a).host.outcome.Looping?
    ensures Left(Apply(cfg, s, a)) <= Left(s)
  {
  }

  lemma PollKeepsLeft(cfg: Config, s: System, a: Action)
    requires Over(s) && a.HostPolls? && Prompt(s, a)
    requires s.host.outcome.Looping? && Apply(cfg, s, a).host.outcome.Looping?
    ensures Left(Apply(cfg, s, a)) <= Left(s)
  {
  }

  lemma NotifyKeepsLeft(cfg: Config, s: System)
    requires s.host.outcome.Looping? && Apply(cfg, s, HostNotifies).host.outcome.Looping?
    ensures Left(Apply(cfg, s, HostNotifies)) <= Left(s)
  {
  }

  lemma CheckTakesOne(cfg: Config, s: System)
    requires s.host.outcome.Looping? && s.hostPc == AtCheck && Apply(cfg, s, HostChecks).host.outcome.Looping?
    ensures Left(Apply(cfg, s, HostChecks)) + 1 <= Left(s)
  {
  }

  lemma ActionTakesItsShare(cfg: Config, s: System, a: Action)
    requires Inv(cfg, s) && Over(s) && Prompt(s, a)
    requires s.host.outcome.Looping? && Apply(cfg, s, a).host.outcome.Looping?
    ensures Left(Apply(cfg, s, a)) + (if s.hostPc == AtCheck && a.HostChecks? then 1 else 0) <= Left(s)
  {
    if a.HostReadsStdout? {
      ReadStdoutTakesOne(cfg, s, a);
    } else if a.HostReadsStderr? {
      ReadStderrTakesOne(cfg, s, a);
    } else if a.HostChecks? {
      if s.hostPc == AtCheck {
        CheckTakesOne(cfg, s);
      }
    } else if a.HostWaits? {
      WaitKeepsLeft(cfg, s, a);
    } else if a.HostPolls? {
      PollKeepsLeft(cfg, s, a);
    } else if a.HostNotifies? {
      NotifyKeepsLeft(cfg, s);
    } else {
      OthersLeaveLeft(cfg, s, a);
    }
  }

  lemma LoopingBefore(cfg: Config, s: System, a: Action)
    requires s.hostPc.Halted? <==> !s.host.outcome.Looping?
    requires Apply(cfg, s, a).host.outcome.Looping?
    ensures s.host.outcome.Looping?
  {
  }

  lemma {:induction false} IterationsAreUsedUp(cfg: Config, s: System, more: seq<Action>)
    requires Inv(cfg, s) && Over(s) && AllPrompt(cfg, s, more)
    requires After(cfg, s, more).host.outcome.Looping?
    ensures Inv(cfg, After(cfg, s, more)) && Over(After(cfg, s, more)) && s.host.outcome.Looping?
    ensures Iterations(cfg, s, more) + Left(After(cfg, s, more)) <= Left(s)
  {
    if more == [] {
    } else {
      var front, a := more[..|more| - 1], more[|more| - 1];
      InvAfter(cfg, s, front);
      LoopingBefore(cfg, After(cfg, s, front), a);
      IterationsAreUsedUp(cfg, s, front);
      ActionKeeps(cfg, After(cfg, s, front), a);
      OverLasts(cfg, After(cfg, s, front), a);
      ActionTakesItsShare(cfg, After(cfg, s, front), a);
    }
  }

  lemma {:induction false} InvAfter(cfg: Config, s: System, more: seq<Action>)
    requires Inv(cfg, s)
    ensures Inv(cfg, After(cfg, s, more))
  {
    if more == [] {
    } else {
      InvAfter(cfg, s, more[..|more| - 1]);
      ActionKeeps(cfg, After(cfg, s, more[..|more| - 1]), more[|more| - 1]);
    }
  }

  /** When the launcher has exited and the application has closed its output, the host
      completes at most one iteration more than there are bytes left in the pipes without
      its loop being done, or failed, whatever the other processes do meanwhile. */
  lemma HostFinishesSoon(cfg: Config, before: seq<Action>, more: seq<Action>)
    requires Over(Reach(cfg, before)) && AllPrompt(cfg, Reach(cfg, before), more)
    requires Reach(cfg, before + more).host.outcome.Looping?
    ensures var s := Reach(cfg, before);
            Iterations(cfg, s, more) <= |s.out.queue| + |s.err.queue| + 1
  {
    ReachAfter(cfg, before, more);
    EveryReachableStateIsOk(cfg, before);
    IterationsAreUsedUp(cfg, Reach(cfg, before), more);
  }

  /** As much of the queue as fits into the buffer. */
  function Piece(pipe: OutputPipe): Chunk {
    pipe.queue[..Min(|pipe.queue|, BUFFER_SIZE)]
  }

  lemma NextStep(cfg: Config, s: System) returns (a: Action)
    requires Inv(cfg, s) && Over(s) && s.host.outcome.Looping?
    ensures ByHost(a) && Prompt(s, a) && Apply(cfg, s, a).hostPc != s.hostPc
  {
    match s.hostPc
    case AtLauncher => a := HostWaits(Status(s.launcherEnd.value));
    case AtPoll => a := HostPolls(false, true, true);
    case AtStdout(ready, _) => a := HostReadsStdout(StreamAnswer(ready, Data(Piece(s.out)), Written));
    case AtStderr(ready) => a := HostReadsStderr(StreamAnswer(ready, Data(Piece(s.err)), Written));
    case AtNotify => a := HostNotifies;
    case AtCheck => a := HostChecks;
    case Halted => assert false;
  }

  /** Until then the host is never stuck: some prompt action of its own is possible, and
      it is the next step of the iteration. */
  lemma HostCanMove(cfg: Config, actions: seq<Action>) returns (a: Action)
    requires Over(Reach(cfg, actions)) && Reach(cfg, actions).host.outcome.Looping?
    ensures ByHost(a) && Prompt(Reach(cfg, actions), a)
    ensures Reach(cfg, actions + [a]).hostPc != Reach(cfg, actions).hostPc
  {
    EveryReachableStateIsOk(cfg, actions);
    a := NextStep(cfg, Reach(cfg, actions));
    assert (actions + [a])[..|actions + [a]| - 1] == actions;
  }
}
