/** `wait_with_timeout`: the launcher waits for the application itself, when there
    is no PID namespace.  One `Turn` holds everything the kernel can answer during
    one iteration of the loop; a list of turns is one run of it. */
module LauncherWait {
  import opened Kernel
  import opened Control

  datatype Turn = Turn(
    control: ControlAnswer,
    overrunTerm: KillAnswer,
    overrunBase: nat,
    wait: WaitAnswer,
    check: nat,
    timeoutTerm: KillAnswer,
    timeoutBase: nat,
    killCheck: nat,
    kill: KillAnswer)

  datatype Waiter = Waiter(
    timedOut: bool,
    overrun: bool,
    deadline: Option<nat>,
    killed: bool,
    sent: seq<Sent>,
    outcome: Outcome)

  const INITIAL := Waiter(false, false, None, false, [], Running)

  // ---------- one iteration ----------

  /** The flags of `waitpid`, computed before the control pipe is looked at. */
  predicate Blocking(w: Waiter, execution: Option<nat>) {
    execution.None? && w.deadline.None?
  }

  function CheckControl(w: Waiter, t: Turn): Waiter {
    if w.overrun || w.timedOut || t.control.NotRequested? then w
    else if t.control.ControlError? then w.(outcome := Failed(ControlFault))
    else if t.overrunTerm.KillError? then w.(overrun := true, outcome := Failed(KillFault))
    else w.(overrun := true,
            deadline := Some(t.overrunBase + GRACE),
            sent := w.sent + [Sent(SIGTERM, AfterOverrun, t.overrunBase)])
  }

  function Expire(w: Waiter, execution: Option<nat>, t: Turn): Waiter {
    if w.timedOut || w.overrun || execution.None? || t.check < execution.value then w
    else if t.timeoutTerm.KillError? then w.(timedOut := true, outcome := Failed(KillFault))
    else w.(timedOut := true,
            deadline := Some(t.timeoutBase + GRACE),
            sent := w.sent + [Sent(SIGTERM, AfterTimeout, t.timeoutBase)])
  }

  function Escalate(w: Waiter, t: Turn): Waiter {
    if !w.outcome.Running? || !(w.timedOut || w.overrun) || w.killed then w
    else if w.deadline.None? || t.killCheck < w.deadline.value then w
    else if t.kill.KillError? then w.(outcome := Failed(KillFault))
    else w.(killed := true, sent := w.sent + [Sent(SIGKILL, AfterGrace, t.killCheck)])
  }

  function Verdict(w: Waiter, status: WaitStatus): ApplicationResult {
    if w.overrun then OutputLimitExceeded else if w.timedOut then TimedOut else Finished(status)
  }

  function PollChild(w: Waiter, execution: Option<nat>, t: Turn): Waiter {
    if !w.outcome.Running? then w
    else match t.wait
      case Status(status) =>
        if status.Terminal() then w.(outcome := Done(Verdict(w, status)))
        else if status.StillAlive? then Escalate(Expire(w, execution, t), t)
        else w
      case Interrupted => w
      case NoChild => w.(outcome := Failed(WaitFault))
      case WaitError => w.(outcome := Failed(WaitFault))
  }

  function Step(w: Waiter, execution: Option<nat>, t: Turn): Waiter {
    if w.outcome.Running? then PollChild(CheckControl(w, t), execution, t) else w
  }

  function Run(turns: seq<Turn>, execution: Option<nat>): Waiter {
    if turns == [] then INITIAL
    else Step(Run(turns[..|turns| - 1], execution), execution, turns[|turns| - 1])
  }

  /** The loop itself, over the answers of one run.  An outcome `Running` means
      the answers ran out first. */
  method WaitWithTimeout(turns: seq<Turn>, start: nat, timeoutSeconds: Option<nat>) returns (w: Waiter)
    ensures timeoutSeconds.None? ==> w == Run(turns, None)
    ensures timeoutSeconds.Some? ==> w == Run(turns, Some(start + 1000 * timeoutSeconds.value))
  {
    var execution := ExecutionDeadline(start, timeoutSeconds);
    var timedOut, overrun, killed := false, false, false;
    var deadline: Option<nat> := None;
    var sent: seq<Sent> := [];
    var outcome := Running;
    var i := 0;
    while i < |turns| && outcome.Running?
      invariant 0 <= i <= |turns|
      invariant Run(turns[..i], execution) == Waiter(timedOut, overrun, deadline, killed, sent, outcome)
    {
      var t := turns[i];
      i := i + 1;
      assert turns[..i][..i - 1] == turns[..i - 1];
      if !overrun && !timedOut {
        if t.control.ControlError? {
          outcome := Failed(ControlFault);
          continue;
        }
        if t.control.Requested? {
          overrun := true;
          if t.overrunTerm.KillError? {
            outcome := Failed(KillFault);
            continue;
          }
          sent := sent + [Sent(SIGTERM, AfterOverrun, t.overrunBase)];
          deadline := Some(t.overrunBase + GRACE);
        }
      }
      match t.wait
      case Status(status) =>
        if status.Terminal() {
          if overrun {
            outcome := Done(OutputLimitExceeded);
          } else if timedOut {
            outcome := Done(TimedOut);
          } else {
            outcome := Done(Finished(status));
          }
        } else if status.StillAlive? {
          if !timedOut && !overrun && execution.Some? && t.check >= execution.value {
            timedOut := true;
            if t.timeoutTerm.KillError? {
              outcome := Failed(KillFault);
              continue;
            }
            sent := sent + [Sent(SIGTERM, AfterTimeout, t.timeoutBase)];
            deadline := Some(t.timeoutBase + GRACE);
          }
          if (timedOut || overrun) && !killed && deadline.Some? && t.killCheck >= deadline.value {
            if t.kill.KillError? {
              outcome := Failed(KillFault);
              continue;
            }
            sent := sent + [Sent(SIGKILL, AfterGrace, t.killCheck)];
            killed := true;
          }
        }
      case Interrupted =>
      case NoChild => outcome := Failed(WaitFault);
      case WaitError => outcome := Failed(WaitFault);
    }
    w := Waiter(timedOut, overrun, deadline, killed, sent, outcome);
    Stays(turns, execution, i);
  }

  /** Once a run has ended, further answers change nothing. */
  lemma {:induction false} Stays(turns: seq<Turn>, execution: Option<nat>, i: nat)
    requires i <= |turns|
    requires i < |turns| ==> !Run(turns[..i], execution).outcome.Running?
    ensures Run(turns, execution) == Run(turns[..i], execution)
    decreases |turns|
  {
    if i < |turns| {
      var front := turns[..|turns| - 1];
      assert front[..i] == turns[..i];
      assert i == |front| ==> front == turns[..i];
      Stays(front, execution, i);
    } else {
      assert turns[..i] == turns;
    }
  }

  // ---------- first cause wins ----------

  /** Why the application is being stopped, and in which turn that was decided. */
  datatype Cause = NoCause | OverrunAt(turn: nat) | TimeoutAt(turn: nat)

  predicate Expires(t: Turn, execution: Option<nat>) {
    t.wait.Alive() && execution.Some? && t.check >= execution.value
  }

  predicate Quiet(t: Turn, execution: Option<nat>) {
    !t.control.Requested? && !Expires(t, execution)
  }

  ghost predicate QuietUntil(turns: seq<Turn>, execution: Option<nat>, n: nat)
    requires n <= |turns|
  {
    forall j | 0 <= j < n :: Quiet(turns[j], execution)
  }

  /** `cause` is the earliest cause in the answers.  It looks at the answers only,
      not at what the loop did with them. */
  ghost predicate IsFirstCause(turns: seq<Turn>, execution: Option<nat>, cause: Cause) {
    match cause
    case NoCause => QuietUntil(turns, execution, |turns|)
    case OverrunAt(i) => i < |turns| && QuietUntil(turns, execution, i) && turns[i].control.Requested?
    case TimeoutAt(i) => i < |turns| && QuietUntil(turns, execution, i) && !turns[i].control.Requested?
                         && Expires(turns[i], execution)
  }

  /** The SIGTERM that turn `t` sends on account of `cause`. */
  function TermIn(t: Turn, cause: Cause): Sent
    requires !cause.NoCause?
  {
    if cause.OverrunAt? then Sent(15, AfterOverrun, t.overrunBase)
    else Sent(15, AfterTimeout, t.timeoutBase)
  }

  /** A poll that finds the application alive when its grace has run out. */
  predicate Overdue(t: Turn, base: nat) {
    t.wait.Alive() && t.killCheck >= base + 3000
  }

  /** `kill` is the first overdue poll since the cause, if there is one. */
  ghost predicate IsKillTurn(turns: seq<Turn>, cause: Cause, kill: Option<nat>)
    requires !cause.NoCause? ==> cause.turn < |turns|
  {
    if cause.NoCause? then kill.None?
    else
      var base := TermIn(turns[cause.turn], cause).at;
      match kill
      case None => forall j | cause.turn <= j < |turns| :: !Overdue(turns[j], base)
      case Some(k) => cause.turn <= k < |turns| && Overdue(turns[k], base)
                      && forall j | cause.turn <= j < k :: !Overdue(turns[j], base)
  }

  /** The run used every one of the answers: it had not ended before the last. */
  ghost predicate Used(turns: seq<Turn>, execution: Option<nat>) {
    turns == [] || Run(turns[..|turns| - 1], execution).outcome.Running?
  }

  /** Flags, deadline and signals of a wait whose SIGTERM was `term`, if any, and
      whose SIGKILL was sent at `kill`, if at all. */
  ghost predicate Explains(w: Waiter, term: Option<Sent>, kill: Option<nat>) {
    && (kill.Some? ==> term.Some?)
    && w.overrun == (term.Some? && term.value.reason.AfterOverrun?)
    && w.timedOut == (term.Some? && term.value.reason.AfterTimeout?)
    && w.killed == kill.Some?
    && w.deadline == (if term.None? then None else Some(term.value.at + 3000))
    && w.sent == (if term.None? then [] else [term.value])
                 + (if kill.None? then [] else [Sent(9, AfterGrace, kill.value)])
  }

  function TermOf(turns: seq<Turn>, cause: Cause): Option<Sent>
    requires !cause.NoCause? ==> cause.turn < |turns|
  {
    if cause.NoCause? then None else Some(TermIn(turns[cause.turn], cause))
  }

  function KillTimeOf(turns: seq<Turn>, kill: Option<nat>): Option<nat>
    requires kill.Some? ==> kill.value < |turns|
  {
    if kill.None? then None else Some(turns[kill.value].killCheck)
  }

  /** In every run exactly the first cause is flagged, exactly its SIGTERM is sent,
      exactly one SIGKILL follows if and only if a poll finds the application alive
      at least the grace period later, and the result names that cause, or the
      application's own status when there was none. */
  lemma {:induction false} FirstCauseWins(turns: seq<Turn>, execution: Option<nat>, cause: Cause, kill: Option<nat>)
    requires Used(turns, execution) && !Run(turns, execution).outcome.Failed?
    requires IsFirstCause(turns, execution, cause) && IsKillTurn(turns, cause, kill)
    ensures Explains(Run(turns, execution), TermOf(turns, cause), KillTimeOf(turns, kill))
    ensures Run(turns, execution).outcome.Done? ==>
              && turns != [] && turns[|turns| - 1].wait.Ended()
              && Run(turns, execution).outcome.result ==
                 match cause
                 case OverrunAt(_) => OutputLimitExceeded
                 case TimeoutAt(_) => TimedOut
                 case NoCause => Finished(turns[|turns| - 1].wait.status)
  {
    if turns == [] {
    } else {
      var n := |turns| - 1;
      var front := turns[..n];
      UsedBefore(turns, execution);
      var earlier, earlierKill := OneTurnEarlier(turns, execution, cause, kill);
      FirstCauseWins(front, execution, earlier, earlierKill);
      StepExplained(Run(front, execution), execution, turns[n], TermOf(front, earlier), KillTimeOf(front, earlierKill));
    }
  }

  lemma OneTurnEarlier(turns: seq<Turn>, execution: Option<nat>, cause: Cause, kill: Option<nat>)
    returns (earlier: Cause, earlierKill: Option<nat>)
    requires turns != [] && IsFirstCause(turns, execution, cause) && IsKillTurn(turns, cause, kill)
    ensures var front := turns[..|turns| - 1];
            var last := turns[|turns| - 1];
      && IsFirstCause(front, execution, earlier) && IsKillTurn(front, earlier, earlierKill)
      && TermOf(turns, cause) == NextTerm(TermOf(front, earlier), execution, last)
      && KillTimeOf(turns, kill) == NextKill(TermOf(turns, cause), KillTimeOf(front, earlierKill), last)
      && (!earlier.NoCause? <==> !cause.NoCause? && cause.turn < |turns| - 1)
      && (earlierKill.Some? <==> kill.Some? && kill.value < |turns| - 1)
  {
    var n := |turns| - 1;
    earlier := if !cause.NoCause? && cause.turn == n then NoCause else cause;
    earlierKill := if kill == Some(n) then None else kill;
  }

  function NextTerm(term: Option<Sent>, execution: Option<nat>, t: Turn): Option<Sent> {
    if term.Some? then term
    else if t.control.Requested? then Some(TermIn(t, OverrunAt(0)))
    else if Expires(t, execution) then Some(TermIn(t, TimeoutAt(0)))
    else None
  }

  function NextKill(term: Option<Sent>, kill: Option<nat>, t: Turn): Option<nat> {
    if kill.None? && term.Some? && Overdue(t, term.value.at) then Some(t.killCheck) else kill
  }

  lemma StepExplained(w: Waiter, execution: Option<nat>, t: Turn, term: Option<Sent>, kill: Option<nat>)
    requires w.outcome.Running? && Explains(w, term, kill)
    requires term.Some? ==> term.value.reason.AfterOverrun? || term.value.reason.AfterTimeout?
    requires !Step(w, execution, t).outcome.Failed?
    ensures var term' := NextTerm(term, execution, t);
            Explains(Step(w, execution, t), term', NextKill(term', kill, t))
    ensures Step(w, execution, t).outcome.Done? ==> t.wait.Ended()
  {
  }

  lemma {:induction false} UsedBefore(turns: seq<Turn>, execution: Option<nat>)
    requires turns != [] && Used(turns, execution)
    ensures Used(turns[..|turns| - 1], execution)
  {
    var front := turns[..|turns| - 1];
    if front == [] {
    } else {
      assert Run(front, execution) ==
             Step(Run(front[..|front| - 1], execution), execution, front[|front| - 1]);
    }
  }

  /** There always is a first cause and a kill turn (or the absence of one). */
  lemma {:induction false} SomeCauseIsFirst(turns: seq<Turn>, execution: Option<nat>)
    returns (cause: Cause, kill: Option<nat>)
    ensures IsFirstCause(turns, execution, cause)
    ensures IsKillTurn(turns, cause, kill)
  {
    var i := 0;
    while i < |turns| && Quiet(turns[i], execution)
      invariant i <= |turns| && QuietUntil(turns, execution, i)
    {
      i := i + 1;
    }
    cause := if i == |turns| then NoCause
             else if turns[i].control.Requested? then OverrunAt(i) else TimeoutAt(i);
    kill := SomeKillTurn(turns, cause);
  }

  lemma {:induction false} SomeKillTurn(turns: seq<Turn>, cause: Cause) returns (kill: Option<nat>)
    requires !cause.NoCause? ==> cause.turn < |turns|
    ensures IsKillTurn(turns, cause, kill)
  {
    if cause.NoCause? {
      return None;
    }
    var base := TermIn(turns[cause.turn], cause).at;
    var k := cause.turn;
    while k < |turns| && !Overdue(turns[k], base)
      invariant cause.turn <= k <= |turns| && forall j | cause.turn <= j < k :: !Overdue(turns[j], base)
    {
      k := k + 1;
    }
    kill := if k == |turns| then None else Some(k);
  }

  /** Never both flags, and a deadline exactly while one of them is set. */
  ghost predicate Consistent(w: Waiter) {
    && !(w.timedOut && w.overrun)
    && (w.deadline.Some? <==> w.timedOut || w.overrun)
    && (w.killed ==> w.deadline.Some? && w.sent != [])
  }

  /** The signals are none, a SIGTERM, or a SIGTERM and then a SIGKILL at least the grace
      period later. */
  ghost predicate TermThenKill(w: Waiter) {
    && (w.sent == [] <==> w.deadline.None?)
    && |w.sent| <= 2
    && (|w.sent| >= 1 ==> w.sent[0].signal == 15 && w.deadline == Some(w.sent[0].at + 3000))
    && (|w.sent| == 2 ==> w.sent[1].signal == 9 && w.sent[1].at >= w.sent[0].at + 3000)
  }

  /** Stated without the cause: never both flags, a deadline exactly while one of
      them is set, and the signals are none, a SIGTERM, or a SIGTERM and then a
      SIGKILL at least the grace period later. */
  lemma OneCauseAtATime(turns: seq<Turn>, execution: Option<nat>)
    requires !Run(turns, execution).outcome.Failed?
    ensures Consistent(Run(turns, execution)) && TermThenKill(Run(turns, execution))
  {
    var n := UsedPart(turns, execution);
    UsedCauseAtATime(turns[..n], execution);
  }

  lemma UsedCauseAtATime(turns: seq<Turn>, execution: Option<nat>)
    requires Used(turns, execution) && !Run(turns, execution).outcome.Failed?
    ensures Consistent(Run(turns, execution)) && TermThenKill(Run(turns, execution))
  {
    var cause, kill := SomeCauseIsFirst(turns, execution);
    FirstCauseWins(turns, execution, cause, kill);
  }

  /** What makes a turn fail: an unreadable control pipe before any cause, a signal that
      is due and refused, or a failing wait. */
  function TurnFault(t: Turn, noCauseBefore: bool, overrunNow: bool, timeoutNow: bool, killNow: bool): Option<Fault> {
    if noCauseBefore && t.control.ControlError? then Some(ControlFault)
    else if overrunNow && t.overrunTerm.KillError? then Some(KillFault)
    else if t.wait.NoChild? || t.wait.WaitError? then Some(WaitFault)
    else if (timeoutNow && t.timeoutTerm.KillError?) || (killNow && t.kill.KillError?) then Some(KillFault)
    else None
  }

  function LastFault(turns: seq<Turn>, cause: Cause, kill: Option<nat>): Option<Fault>
    requires turns != []
  {
    var n := |turns| - 1;
    TurnFault(turns[n], cause.NoCause? || cause.turn == n,
              cause == OverrunAt(n), cause == TimeoutAt(n), kill == Some(n))
  }

  /** A run fails exactly when its last turn gives it a reason to, and with that fault;
      it concludes exactly when the child's end is reported otherwise, and else it goes on. */
  lemma {:induction false} FailsExactly(turns: seq<Turn>, execution: Option<nat>, cause: Cause, kill: Option<nat>)
    requires turns != [] && Used(turns, execution)
    requires IsFirstCause(turns, execution, cause) && IsKillTurn(turns, cause, kill)
    ensures var outcome := Run(turns, execution).outcome;
      && FaultOf(outcome) == LastFault(turns, cause, kill)
      && (outcome.Done? <==> LastFault(turns, cause, kill).None? && turns[|turns| - 1].wait.Ended())
  {
    var n := |turns| - 1;
    var earlier, earlierKill := OneTurnEarlier(turns, execution, cause, kill);
    UsedBefore(turns, execution);
    FirstCauseWins(turns[..n], execution, earlier, earlierKill);
    StepFailsExactly(Run(turns[..n], execution), execution, turns[n],
                     TermOf(turns[..n], earlier), KillTimeOf(turns[..n], earlierKill));
    LastDecisions(turns, execution, cause, kill, TermOf(turns[..n], earlier), KillTimeOf(turns[..n], earlierKill));
  }

  /** The causes that fall into the last turn, by what the turn itself answers. */
  lemma LastDecisions(
      turns: seq<Turn>, execution: Option<nat>, cause: Cause, kill: Option<nat>,
      term: Option<Sent>, killTime: Option<nat>)
    requires turns != [] && IsFirstCause(turns, execution, cause) && IsKillTurn(turns, cause, kill)
    requires term.Some? <==> !cause.NoCause? && cause.turn < |turns| - 1
    requires killTime.Some? <==> kill.Some? && kill.value < |turns| - 1
    requires TermOf(turns, cause) == NextTerm(term, execution, turns[|turns| - 1])
    ensures var n, t := |turns| - 1, turns[|turns| - 1];
      && (cause == OverrunAt(n) <==> term.None? && t.control.Requested?)
      && (cause == TimeoutAt(n) <==> term.None? && !t.control.Requested? && Expires(t, execution))
      && (kill == Some(n) <==>
            killTime.None? && TermOf(turns, cause).Some? && Overdue(t, TermOf(turns, cause).value.at))
  {
    var n := |turns| - 1;
    assert kill.None? && !cause.NoCause? ==> !Overdue(turns[n], TermIn(turns[cause.turn], cause).at);
  }

  lemma StepFailsExactly(w: Waiter, execution: Option<nat>, t: Turn, term: Option<Sent>, kill: Option<nat>)
    requires w.outcome.Running? && Explains(w, term, kill)
    requires term.Some? ==> term.value.reason.AfterOverrun? || term.value.reason.AfterTimeout?
    ensures var term' := NextTerm(term, execution, t);
            var fault := TurnFault(
              t, term.None?, term.None? && t.control.Requested?,
              term.None? && !t.control.Requested? && Expires(t, execution),
              kill.None? && term'.Some? && Overdue(t, term'.value.at));
      && FaultOf(Step(w, execution, t).outcome) == fault
      && (Step(w, execution, t).outcome.Done? <==> fault.None? && t.wait.Ended())
  {
  }

  /** Every run is the run of the answers it used, so what is said of used answers
      is said of all runs. */
  lemma {:induction false} UsedPart(turns: seq<Turn>, execution: Option<nat>) returns (n: nat)
    ensures n <= |turns| && Used(turns[..n], execution)
    ensures Run(turns[..n], execution) == Run(turns, execution)
    decreases |turns|
  {
    if Used(turns, execution) {
      n := |turns|;
      assert turns[..n] == turns;
    } else {
      var front := turns[..|turns| - 1];
      n := UsedPart(front, execution);
      assert front[..n] == turns[..n];
    }
  }

  /** The state is explained by the first cause in the answers and the first overdue poll
      after it. */
  ghost predicate Told(w: Waiter, turns: seq<Turn>, execution: Option<nat>, cause: Cause, kill: Option<nat>) {
    && IsFirstCause(turns, execution, cause) && IsKillTurn(turns, cause, kill)
    && FaultOf(w.outcome) == (if turns == [] then None else LastFault(turns, cause, kill))
    && (w.outcome.Done? <==>
          turns != [] && LastFault(turns, cause, kill).None? && turns[|turns| - 1].wait.Ended())
    && (!w.outcome.Failed? ==> Explains(w, TermOf(turns, cause), KillTimeOf(turns, kill)))
    && (w.outcome.Done? ==>
          w.outcome.result == match cause
                              case OverrunAt(_) => OutputLimitExceeded
                              case TimeoutAt(_) => TimedOut
                              case NoCause => Finished(turns[|turns| - 1].wait.status))
  }

  /** Every run of the wait, on any answers, is determined by those it used. */
  lemma EveryRunIsTold(turns: seq<Turn>, execution: Option<nat>) returns (n: nat, cause: Cause, kill: Option<nat>)
    ensures n <= |turns| && Used(turns[..n], execution) && Run(turns[..n], execution) == Run(turns, execution)
    ensures Told(Run(turns, execution), turns[..n], execution, cause, kill)
  {
    n := UsedPart(turns, execution);
    cause, kill := SomeCauseIsFirst(turns[..n], execution);
    if turns[..n] != [] {
      FailsExactly(turns[..n], execution, cause, kill);
    }
    if !Run(turns, execution).outcome.Failed? {
      FirstCauseWins(turns[..n], execution, cause, kill);
    }
  }

  // ---------- the timeout in seconds ----------

  /** A poll that finds the application alive `seconds` after the start. */
  predicate PastTimeout(t: Turn, start: nat, seconds: Option<nat>) {
    t.wait.Alive() && seconds.Some? && t.check >= start + 1000 * seconds.value
  }

  /** Turn `i` is the first such poll, and no overrun has been announced so far. */
  ghost predicate TimesOutAt(turns: seq<Turn>, start: nat, seconds: Option<nat>, i: nat) {
    && i < |turns| && PastTimeout(turns[i], start, seconds)
    && (forall j | 0 <= j < i :: !PastTimeout(turns[j], start, seconds))
    && (forall j | 0 <= j <= i :: !turns[j].control.Requested?)
  }

  /** A wait that is given a number of seconds sends its SIGTERM for the timeout exactly
      in the first turn in which they have passed, unless an overrun came first, and a
      wait that is given none never sends one. */
  lemma TimeoutExactly(turns: seq<Turn>, start: nat, seconds: Option<nat>)
    requires Used(turns, ExecutionDeadline(start, seconds))
    requires !Run(turns, ExecutionDeadline(start, seconds)).outcome.Failed?
    ensures var w := Run(turns, ExecutionDeadline(start, seconds));
      && (w.timedOut <==> exists i: nat :: TimesOutAt(turns, start, seconds, i))
      && (forall i: nat | TimesOutAt(turns, start, seconds, i) ::
            w.sent != [] && w.sent[0] == Sent(15, AfterTimeout, turns[i].timeoutBase))
      && (!w.timedOut ==> forall x | x in w.sent :: !x.reason.AfterTimeout?)
      && (seconds.None? ==> !w.timedOut)
  {
    var execution := ExecutionDeadline(start, seconds);
    var cause, kill := SomeCauseIsFirst(turns, execution);
    FirstCauseWins(turns, execution, cause, kill);
    assert forall t :: Expires(t, execution) <==> PastTimeout(t, start, seconds);
    if cause.TimeoutAt? {
      assert TimesOutAt(turns, start, seconds, cause.turn);
    }
    forall i: nat | TimesOutAt(turns, start, seconds, i)
      ensures cause == TimeoutAt(i)
    {
      assert !Quiet(turns[i], execution);
    }
  }

  // ---------- how long it can take ----------

  function TimeAfter(t: Turn): nat {
    t.killCheck + if t.wait.Alive() then POLL_INTERVAL else 0
  }

  function Clock(turns: seq<Turn>, start: nat): nat {
    if turns == [] then start else TimeAfter(turns[|turns| - 1])
  }

  /** The clock never runs backwards, and each poll of a live child is followed by
      a sleep of at least the poll interval. */
  ghost predicate ClockFrom(turns: seq<Turn>, start: nat) {
    turns != [] ==>
      var front, t := turns[..|turns| - 1], turns[|turns| - 1];
      && ClockFrom(front, start)
      && Clock(front, start) <= t.overrunBase <= t.check <= t.timeoutBase <= t.killCheck
  }

  /** A blocking `waitpid` never answers that the child is still alive. */
  ghost predicate WaitsHonestly(turns: seq<Turn>, execution: Option<nat>) {
    turns != [] ==>
      var front, t := turns[..|turns| - 1], turns[|turns| - 1];
      && WaitsHonestly(front, execution)
      && (Blocking(Run(front, execution), execution) ==> !t.wait.Alive())
  }

  /** `patience` ms after a SIGKILL the child is no longer reported alive. */
  ghost predicate KillTakesEffect(turns: seq<Turn>, execution: Option<nat>, patience: nat) {
    turns != [] ==>
      var front, t := turns[..|turns| - 1], turns[|turns| - 1];
      && KillTakesEffect(front, execution, patience)
      && (Run(front, execution).killed && t.wait.Alive() ==>
            KillTime(Run(front, execution)) + patience > t.overrunBase)
  }

  function KillTime(w: Waiter): nat {
    if w.sent == [] then 0 else w.sent[|w.sent| - 1].at
  }

  /** Milliseconds slept between polls: one poll interval for each poll that finds
      the child alive. */
  function Slept(turns: seq<Turn>): nat {
    if turns == [] then 0
    else Slept(turns[..|turns| - 1]) + if turns[|turns| - 1].wait.Alive() then 5 else 0
  }

  /** Milliseconds of polling that are still possible in state `w` at time `now`. */
  function Remaining(w: Waiter, execution: Option<nat>, now: nat, patience: nat): nat {
    if w.killed then AtLeastZero(KillTime(w) + patience + POLL_INTERVAL - now)
    else (match w.deadline
          case Some(deadline) => AtLeastZero(deadline + POLL_INTERVAL - now)
          case None => GRACE + POLL_INTERVAL
                       + if execution.None? then 0 else AtLeastZero(execution.value + POLL_INTERVAL - now))
         + patience + POLL_INTERVAL
  }

  lemma PollUsesUpTime(w: Waiter, execution: Option<nat>, t: Turn, now: nat, patience: nat)
    requires w.outcome.Running? && Consistent(w) && !Step(w, execution, t).outcome.Failed?
    requires now <= t.overrunBase <= t.check <= t.timeoutBase <= t.killCheck
    requires Blocking(w, execution) ==> !t.wait.Alive()
    requires w.killed && t.wait.Alive() ==> KillTime(w) + patience > t.overrunBase
    ensures (if t.wait.Alive() then POLL_INTERVAL else 0)
            + Remaining(Step(w, execution, t), execution, TimeAfter(t), patience)
         <= Remaining(w, execution, now, patience)
  {
    if t.wait.Alive() {
      var x := CheckControl(w, t);
      var y := Expire(x, execution, t);
      assert Step(w, execution, t) == Escalate(y, t);
    }
  }

  lemma {:induction false} PollingUsesUpTime(turns: seq<Turn>, start: nat, execution: Option<nat>, patience: nat)
    requires Used(turns, execution) && !Run(turns, execution).outcome.Failed?
    requires ClockFrom(turns, start) && WaitsHonestly(turns, execution)
    requires KillTakesEffect(turns, execution, patience)
    ensures Slept(turns) + Remaining(Run(turns, execution), execution, Clock(turns, start), patience)
         <= Remaining(INITIAL, execution, start, patience)
  {
    if turns == [] {
    } else {
      var n := |turns| - 1;
      var front := turns[..n];
      UsedBefore(turns, execution);
      PollingUsesUpTime(front, start, execution, patience);
      OneCauseAtATime(front, execution);
      PollUsesUpTime(Run(front, execution), execution, turns[n], Clock(front, start), patience);
    }
  }

  /** The wait is over after an explicit number of polls: the timeout, the grace
      period and the time a SIGKILL takes, at one poll per poll interval.  Without a
      timeout the first of these is nothing, because the wait blocks instead. */
  lemma WaitIsBounded(turns: seq<Turn>, start: nat, timeoutSeconds: Option<nat>, patience: nat)
    requires var execution := ExecutionDeadline(start, timeoutSeconds);
      && Used(turns, execution) && !Run(turns, execution).outcome.Failed?
      && ClockFrom(turns, start) && WaitsHonestly(turns, execution)
      && KillTakesEffect(turns, execution, patience)
    ensures Slept(turns)
         <= (if timeoutSeconds.None? then 0 else 1000 * timeoutSeconds.value + 5) + 3000 + patience + 10
  {
    PollingUsesUpTime(turns, start, ExecutionDeadline(start, timeoutSeconds), patience);
  }

  // ---------- what a missing timeout costs ----------

  /** The wait blocks exactly when no timeout was given and no overrun has been
      noticed in an earlier turn. */
  lemma {:induction false} BlocksExactlyWhen(turns: seq<Turn>, execution: Option<nat>)
    requires Used(turns, execution) && Run(turns, execution).outcome.Running?
    ensures Blocking(Run(turns, execution), execution)
       <==> execution.None? && forall i | 0 <= i < |turns| :: !turns[i].control.Requested?
  {
    var cause, kill := SomeCauseIsFirst(turns, execution);
    FirstCauseWins(turns, execution, cause, kill);
    if execution.None? && (forall i | 0 <= i < |turns| :: !turns[i].control.Requested?) {
      assert forall i | 0 <= i < |turns| :: Quiet(turns[i], execution);
      assert cause.NoCause?;
    }
  }

  /** Without a timeout and with no interrupted wait there is only one turn, so
      only an overrun that is already announced at the first look is acted upon,
      and a SIGKILL is never sent. */
  lemma {:induction false} WithoutTimeoutOneLook(turns: seq<Turn>)
    requires turns != [] && Used(turns, None) && WaitsHonestly(turns, None)
    requires forall i | 0 <= i < |turns| :: !turns[i].wait.Idle()
    ensures |turns| == 1
    ensures !Run(turns, None).killed
  {
    if |turns| > 1 {
      RunsThrough(turns, None, 1);
    }
    HonestAt(turns, None, 0);
    assert turns[..1][..0] == [];
    assert Run(turns[..1], None) == Step(INITIAL, None, turns[0]);
    assert |turns| == 1 ==> turns[..1] == turns;
  }

  /** Without a timeout, a SIGKILL is sent only if the blocking wait that followed
      the SIGTERM was interrupted. */
  lemma EscalationWithoutTimeout(turns: seq<Turn>, cause: Cause, kill: Option<nat>)
    requires Used(turns, None) && !Run(turns, None).outcome.Failed? && WaitsHonestly(turns, None)
    requires IsFirstCause(turns, None, cause) && IsKillTurn(turns, cause, kill)
    requires Run(turns, None).killed
    ensures cause.OverrunAt? && kill.Some? && kill.value > cause.turn && turns[cause.turn].wait.Idle()
  {
    KillNeedsOverrun(turns, cause, kill);
    WaitBlocksAtTheCause(turns, cause);
    NotTheLastIsIdle(turns, None, cause.turn);
  }

  /** A wait after which the loop goes on, and which found no live child, was idle. */
  lemma NotTheLastIsIdle(turns: seq<Turn>, execution: Option<nat>, i: nat)
    requires Used(turns, execution) && i + 1 < |turns| && !turns[i].wait.Alive()
    ensures turns[i].wait.Idle()
  {
    RunsThrough(turns, execution, i + 1);
    assert turns[..i + 1][|turns[..i + 1]| - 1] == turns[i];
    GoesOnAfter(turns[..i + 1], execution);
  }

  lemma KillNeedsOverrun(turns: seq<Turn>, cause: Cause, kill: Option<nat>)
    requires Used(turns, None) && !Run(turns, None).outcome.Failed? && Run(turns, None).killed
    requires IsFirstCause(turns, None, cause) && IsKillTurn(turns, cause, kill)
    ensures cause.OverrunAt? && kill.Some?
  {
    FirstCauseWins(turns, None, cause, kill);
  }

  lemma WaitBlocksAtTheCause(turns: seq<Turn>, cause: Cause)
    requires Used(turns, None) && WaitsHonestly(turns, None)
    requires IsFirstCause(turns, None, cause) && cause.OverrunAt?
    ensures !turns[cause.turn].wait.Alive()
  {
    RunsThrough(turns, None, cause.turn);
    BlocksExactlyWhen(turns[..cause.turn], None);
    HonestAt(turns, None, cause.turn);
  }

  lemma GoesOnAfter(turns: seq<Turn>, execution: Option<nat>)
    requires turns != [] && Used(turns, execution) && Run(turns, execution).outcome.Running?
    requires !turns[|turns| - 1].wait.Alive()
    ensures turns[|turns| - 1].wait.Idle()
  {
    assert Run(turns, execution) ==
           Step(Run(turns[..|turns| - 1], execution), execution, turns[|turns| - 1]);
  }

  lemma {:induction false} HonestAt(turns: seq<Turn>, execution: Option<nat>, i: nat)
    requires WaitsHonestly(turns, execution) && i < |turns|
    requires Blocking(Run(turns[..i], execution), execution)
    ensures !turns[i].wait.Alive()
    decreases |turns|
  {
    var front := turns[..|turns| - 1];
    if i < |front| {
      assert front[..i] == turns[..i];
      HonestAt(front, execution, i);
    } else {
      assert front == turns[..i];
    }
  }

  lemma {:induction false} RunsThrough(turns: seq<Turn>, execution: Option<nat>, i: nat)
    requires Used(turns, execution) && i < |turns|
    ensures Used(turns[..i], execution) && Run(turns[..i], execution).outcome.Running?
    decreases |turns|
  {
    var front := turns[..|turns| - 1];
    UsedBefore(turns, execution);
    if i < |front| {
      RunsThrough(front, execution, i);
      assert front[..i] == turns[..i];
    } else {
      assert front == turns[..i];
    }
  }
}
