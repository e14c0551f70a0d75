/** `wait_for_pid1`: the launcher waits for the supervisor that is PID 1 of the
    sandbox.  It has no deadline of its own; only an announced overrun makes it act. */
module Pid1Wait {
  import opened Kernel
  import opened Control

  datatype Turn = Turn(
    control: ControlAnswer,
    term: KillAnswer,
    termBase: nat,
    wait: WaitAnswer,
    killCheck: nat,
    kill: KillAnswer)
  {
    /** Every status but `StillAlive` ends this wait, stop reports included. */
    predicate Ends() {
      wait.Status? && !wait.status.StillAlive?
    }
  }

  datatype Waiter = Waiter(
    overrun: bool,
    deadline: Option<nat>,
    killed: bool,
    sent: seq<Sent>,
    outcome: Outcome)

  const INITIAL := Waiter(false, None, false, [], Running)

  // ---------- one iteration ----------

  function CheckControl(w: Waiter, t: Turn): Waiter {
    if w.overrun || t.control.NotRequested? then w
    else if t.control.ControlError? then w.(outcome := Failed(ControlFault))
    else if t.term.KillError? then w.(overrun := true, outcome := Failed(KillFault))
    else w.(overrun := true,
            deadline := Some(t.termBase + GRACE),
            sent := w.sent + [Sent(SIGTERM, AfterOverrun, t.termBase)])
  }

  function Escalate(w: Waiter, t: Turn): Waiter {
    if !w.overrun || w.killed || w.deadline.None? || t.killCheck < w.deadline.value then w
    else if t.kill.KillError? then w.(outcome := Failed(KillFault))
    else w.(killed := true, sent := w.sent + [Sent(SIGKILL, AfterGrace, t.killCheck)])
  }

  function PollPid1(w: Waiter, t: Turn): Waiter {
    if !w.outcome.Running? then w
    else match t.wait
      case Status(status) =>
        if status.StillAlive? then Escalate(w, t)
        else w.(outcome := Done(if w.overrun then OutputLimitExceeded else Finished(status)))
      case Interrupted => w
      case NoChild => w.(outcome := Failed(WaitFault))
      case WaitError => w.(outcome := Failed(WaitFault))
  }

  function Step(w: Waiter, t: Turn): Waiter {
    if w.outcome.Running? then PollPid1(CheckControl(w, t), t) else w
  }

  function Run(turns: seq<Turn>): Waiter {
    if turns == [] then INITIAL else Step(Run(turns[..|turns| - 1]), turns[|turns| - 1])
  }

  /** The loop itself, over the answers of one run. */
  method WaitForPid1(turns: seq<Turn>) returns (w: Waiter)
    ensures w == Run(turns)
  {
    var overrun, killed := false, false;
    var deadline: Option<nat> := None;
    var sent: seq<Sent> := [];
    var outcome := Running;
    var i := 0;
    while i < |turns| && outcome.Running?
      invariant 0 <= i <= |turns|
      invariant Run(turns[..i]) == Waiter(overrun, deadline, killed, sent, outcome)
    {
      var t := turns[i];
      i := i + 1;
      assert turns[..i][..i - 1] == turns[..i - 1];
      if !overrun {
        if t.control.ControlError? {
          outcome := Failed(ControlFault);
          continue;
        }
        if t.control.Requested? {
          overrun := true;
          if t.term.KillError? {
            outcome := Failed(KillFault);
            continue;
          }
          sent := sent + [Sent(SIGTERM, AfterOverrun, t.termBase)];
          deadline := Some(t.termBase + GRACE);
        }
      }
      match t.wait
      case Status(status) =>
        if status.StillAlive? {
          if overrun && !killed && deadline.Some? && t.killCheck >= deadline.value {
            if t.kill.KillError? {
              outcome := Failed(KillFault);
              continue;
            }
            sent := sent + [Sent(SIGKILL, AfterGrace, t.killCheck)];
            killed := true;
          }
        } else if overrun {
          outcome := Done(OutputLimitExceeded);
        } else {
          outcome := Done(Finished(status));
        }
      case Interrupted =>
      case NoChild => outcome := Failed(WaitFault);
      case WaitError => outcome := Failed(WaitFault);
    }
    w := Waiter(overrun, deadline, killed, sent, outcome);
    Stays(turns, i);
  }

  /** Once a run has ended, further answers change nothing. */
  lemma {:induction false} Stays(turns: seq<Turn>, i: nat)
    requires i <= |turns|
    requires i < |turns| ==> !Run(turns[..i]).outcome.Running?
    ensures Run(turns) == Run(turns[..i])
    decreases |turns|
  {
    if i < |turns| {
      var front := turns[..|turns| - 1];
      assert front[..i] == turns[..i];
      assert i == |front| ==> front == turns[..i];
      Stays(front, i);
    } else {
      assert turns[..i] == turns;
    }
  }

  // ---------- what a run did, told from the answers alone ----------

  /** The run used every one of the answers: it had not ended before the last. */
  ghost predicate Used(turns: seq<Turn>) {
    turns == [] || Run(turns[..|turns| - 1]).outcome.Running?
  }

  /** `request` is the first turn in which an overrun is announced, if there is one. */
  ghost predicate IsFirstRequest(turns: seq<Turn>, request: Option<nat>) {
    match request
    case None => forall j | 0 <= j < |turns| :: !turns[j].control.Requested?
    case Some(i) => i < |turns| && turns[i].control.Requested?
                    && forall j | 0 <= j < i :: !turns[j].control.Requested?
  }

  predicate Overdue(t: Turn, base: nat) {
    t.wait.Alive() && t.killCheck >= base + 3000
  }

  /** `kill` is the first overdue poll since the request, if there is one. */
  ghost predicate IsKillTurn(turns: seq<Turn>, request: Option<nat>, kill: Option<nat>)
    requires request.Some? ==> request.value < |turns|
  {
    if request.None? then kill.None?
    else
      var i := request.value;
      match kill
      case None => forall j | i <= j < |turns| :: !Overdue(turns[j], turns[i].termBase)
      case Some(k) => i <= k < |turns| && Overdue(turns[k], turns[i].termBase)
                      && forall j | i <= j < k :: !Overdue(turns[j], turns[i].termBase)
  }

  /** Flags, deadline and signals of a wait whose SIGTERM was sent at `term`, if at
      all, and whose SIGKILL was sent at `kill`, if at all. */
  ghost predicate Explains(w: Waiter, term: Option<nat>, kill: Option<nat>) {
    && (kill.Some? ==> term.Some?)
    && w.overrun == term.Some?
    && w.killed == kill.Some?
    && w.deadline == (if term.None? then None else Some(term.value + 3000))
    && w.sent == (if term.None? then [] else [Sent(15, AfterOverrun, term.value)])
                 + (if kill.None? then [] else [Sent(9, AfterGrace, kill.value)])
  }

  function TermOf(turns: seq<Turn>, request: Option<nat>): Option<nat>
    requires request.Some? ==> request.value < |turns|
  {
    if request.None? then None else Some(turns[request.value].termBase)
  }

  function KillOf(turns: seq<Turn>, kill: Option<nat>): Option<nat>
    requires kill.Some? ==> kill.value < |turns|
  {
    if kill.None? then None else Some(turns[kill.value].killCheck)
  }

  /** The wait reports an exceeded output limit if and only if one was announced
      before PID 1 ended; otherwise it reports PID 1's own status.  It signals PID 1
      exactly once for the announcement, and once more exactly if PID 1 outlives the
      grace period. */
  lemma {:induction false} AnnouncedOverrunDecides(turns: seq<Turn>, request: Option<nat>, kill: Option<nat>)
    requires Used(turns) && !Run(turns).outcome.Failed?
    requires IsFirstRequest(turns, request) && IsKillTurn(turns, request, kill)
    ensures Explains(Run(turns), TermOf(turns, request), KillOf(turns, kill))
    ensures Run(turns).outcome.Done? <==> turns != [] && turns[|turns| - 1].Ends()
    ensures Run(turns).outcome.Done? ==>
              Run(turns).outcome.result ==
                if request.Some? then OutputLimitExceeded else Finished(turns[|turns| - 1].wait.status)
  {
    if turns == [] {
    } else {
      var n := |turns| - 1;
      var front := turns[..n];
      var earlier := if request == Some(n) then None else request;
      var earlierKill := if kill == Some(n) then None else kill;
      UsedBefore(turns);
      AnnouncedOverrunDecides(front, earlier, earlierKill);
      StepExplained(Run(front), turns[n], TermOf(front, earlier), KillOf(front, earlierKill));
    }
  }

  lemma StepExplained(w: Waiter, t: Turn, term: Option<nat>, kill: Option<nat>)
    requires w.outcome.Running? && Explains(w, term, kill) && !Step(w, t).outcome.Failed?
    ensures var term' := if term.None? && t.control.Requested? then Some(t.termBase) else term;
            var kill' := if kill.None? && term'.Some? && Overdue(t, term'.value) then Some(t.killCheck) else kill;
            Explains(Step(w, t), term', kill')
    ensures Step(w, t).outcome.Done? <==> t.Ends()
  {
  }

  /** What makes a turn fail: an unreadable control pipe before any request, a signal
      that is due and refused, or a failing wait. */
  function TurnFault(t: Turn, noRequestBefore: bool, requestNow: bool, killNow: bool): Option<Fault> {
    if noRequestBefore && t.control.ControlError? then Some(ControlFault)
    else if requestNow && t.term.KillError? then Some(KillFault)
    else if t.wait.NoChild? || t.wait.WaitError? then Some(WaitFault)
    else if killNow && t.kill.KillError? then Some(KillFault)
    else None
  }

  function LastFault(turns: seq<Turn>, request: Option<nat>, kill: Option<nat>): Option<Fault>
    requires turns != []
  {
    var n := |turns| - 1;
    TurnFault(turns[n], request.None? || request == Some(n), request == Some(n), kill == Some(n))
  }

  /** A run fails exactly when its last turn gives it a reason to, and with that fault. */
  lemma {:induction false} FailsExactly(turns: seq<Turn>, request: Option<nat>, kill: Option<nat>)
    requires turns != [] && Used(turns)
    requires IsFirstRequest(turns, request) && IsKillTurn(turns, request, kill)
    ensures FaultOf(Run(turns).outcome) == LastFault(turns, request, kill)
  {
    var n := |turns| - 1;
    var front := turns[..n];
    var earlier := if request == Some(n) then None else request;
    var earlierKill := if kill == Some(n) then None else kill;
    UsedBefore(turns);
    AnnouncedOverrunDecides(front, earlier, earlierKill);
    StepFailsExactly(Run(front), turns[n], TermOf(front, earlier), KillOf(front, earlierKill));
    assert kill.None? && request.Some? ==> !Overdue(turns[n], turns[request.value].termBase);
  }

  lemma StepFailsExactly(w: Waiter, t: Turn, term: Option<nat>, kill: Option<nat>)
    requires w.outcome.Running? && Explains(w, term, kill)
    ensures var term' := if term.None? && t.control.Requested? then Some(t.termBase) else term;
            FaultOf(Step(w, t).outcome) ==
            TurnFault(t, term.None?, term.None? && t.control.Requested?,
                      kill.None? && term'.Some? && Overdue(t, term'.value))
  {
  }

  lemma {:induction false} UsedBefore(turns: seq<Turn>)
    requires turns != [] && Used(turns)
    ensures Used(turns[..|turns| - 1])
  {
    var front := turns[..|turns| - 1];
    if front == [] {
    } else {
      assert Run(front) == Step(Run(front[..|front| - 1]), front[|front| - 1]);
    }
  }

  lemma {:induction false} SomeKillTurn(turns: seq<Turn>, request: Option<nat>) returns (kill: Option<nat>)
    requires request.Some? ==> request.value < |turns|
    ensures IsKillTurn(turns, request, kill)
  {
    if request.None? {
      return None;
    }
    var base := turns[request.value].termBase;
    var k := request.value;
    while k < |turns| && !Overdue(turns[k], base)
      invariant request.value <= k <= |turns| && forall j | request.value <= j < k :: !Overdue(turns[j], base)
    {
      k := k + 1;
    }
    kill := if k == |turns| then None else Some(k);
  }

  /** Every run is the run of the answers it used. */
  lemma {:induction false} UsedPart(turns: seq<Turn>) returns (n: nat)
    ensures n <= |turns| && Used(turns[..n])
    ensures Run(turns[..n]) == Run(turns)
    decreases |turns|
  {
    if Used(turns) {
      n := |turns|;
      assert turns[..n] == turns;
    } else {
      var front := turns[..|turns| - 1];
      n := UsedPart(front);
      assert front[..n] == turns[..n];
    }
  }

  lemma {:induction false} SomeFirstRequest(turns: seq<Turn>) returns (request: Option<nat>)
    ensures IsFirstRequest(turns, request)
  {
    var i := 0;
    while i < |turns| && !turns[i].control.Requested?
      invariant i <= |turns| && forall j | 0 <= j < i :: !turns[j].control.Requested?
    {
      i := i + 1;
    }
    request := if i == |turns| then None else Some(i);
  }

  /** The state is explained by the first request in the answers and the first overdue
      poll after it. */
  ghost predicate Told(w: Waiter, turns: seq<Turn>, request: Option<nat>, kill: Option<nat>) {
    && IsFirstRequest(turns, request) && IsKillTurn(turns, request, kill)
    && FaultOf(w.outcome) == (if turns == [] then None else LastFault(turns, request, kill))
    && (!w.outcome.Failed? ==>
          && Explains(w, TermOf(turns, request), KillOf(turns, kill))
          && (w.outcome.Done? <==> turns != [] && turns[|turns| - 1].Ends())
          && (w.outcome.Done? ==>
                w.outcome.result ==
                if request.Some? then OutputLimitExceeded else Finished(turns[|turns| - 1].wait.status)))
  }

  /** Every run of the wait, on any answers, is determined by those it used. */
  lemma EveryRunIsTold(turns: seq<Turn>) returns (n: nat, request: Option<nat>, kill: Option<nat>)
    ensures n <= |turns| && Used(turns[..n]) && Run(turns[..n]) == Run(turns)
    ensures Told(Run(turns), turns[..n], request, kill)
  {
    n := UsedPart(turns);
    request := SomeFirstRequest(turns[..n]);
    kill := SomeKillTurn(turns[..n], request);
    if turns[..n] != [] {
      FailsExactly(turns[..n], request, kill);
    }
    if !Run(turns).outcome.Failed? {
      AnnouncedOverrunDecides(turns[..n], request, kill);
    }
  }

  // ---------- how long it can take once the overrun is announced ----------

  function TimeAfter(t: Turn): nat {
    t.killCheck + if t.wait.Alive() then POLL_INTERVAL else 0
  }

  function Clock(turns: seq<Turn>): nat {
    if turns == [] then 0 else TimeAfter(turns[|turns| - 1])
  }

  ghost predicate ClockAdvances(turns: seq<Turn>) {
    turns != [] ==>
      var front, t := turns[..|turns| - 1], turns[|turns| - 1];
      ClockAdvances(front) && Clock(front) <= t.termBase <= t.killCheck
  }

  function KillTime(w: Waiter): nat {
    if w.sent == [] then 0 else w.sent[|w.sent| - 1].at
  }

  /** `patience` ms after a SIGKILL PID 1 is no longer reported alive. */
  ghost predicate KillTakesEffect(turns: seq<Turn>, patience: nat) {
    turns != [] ==>
      var front, t := turns[..|turns| - 1], turns[|turns| - 1];
      && KillTakesEffect(front, patience)
      && (Run(front).killed && t.wait.Alive() ==> KillTime(Run(front)) + patience > t.termBase)
  }

  /** Milliseconds slept between polls from turn `i` on: one poll interval for each
      poll that finds PID 1 alive. */
  function SleptFrom(turns: seq<Turn>, i: nat): nat {
    if |turns| <= i then 0
    else SleptFrom(turns[..|turns| - 1], i) + if turns[|turns| - 1].wait.Alive() then 5 else 0
  }

  function Remaining(w: Waiter, now: nat, patience: nat): nat {
    if w.killed then AtLeastZero(KillTime(w) + patience + POLL_INTERVAL - now)
    else (match w.deadline
          case Some(deadline) => AtLeastZero(deadline + POLL_INTERVAL - now)
          case None => GRACE + POLL_INTERVAL)
         + patience + POLL_INTERVAL
  }

  ghost predicate Consistent(w: Waiter) {
    w.overrun == w.deadline.Some? && (w.killed ==> w.overrun && w.sent != [])
  }

  lemma {:induction false} RunIsConsistent(turns: seq<Turn>)
    requires Used(turns) && !Run(turns).outcome.Failed?
    ensures Consistent(Run(turns))
  {
    if turns == [] {
    } else {
      UsedBefore(turns);
      RunIsConsistent(turns[..|turns| - 1]);
    }
  }

  lemma PollUsesUpTime(w: Waiter, t: Turn, now: nat, patience: nat)
    requires w.outcome.Running? && !Step(w, t).outcome.Failed? && Consistent(w)
    requires now <= t.termBase <= t.killCheck
    requires w.overrun || t.control.Requested?
    requires w.killed && t.wait.Alive() ==> KillTime(w) + patience > t.termBase
    ensures Step(w, t).overrun
    ensures (if t.wait.Alive() then POLL_INTERVAL else 0) + Remaining(Step(w, t), TimeAfter(t), patience)
         <= Remaining(w, now, patience)
  {
  }

  lemma {:induction false} PollingUsesUpTime(turns: seq<Turn>, i: nat, patience: nat)
    requires Used(turns) && !Run(turns).outcome.Failed?
    requires i < |turns| && turns[i].control.Requested? && !Run(turns[..i]).overrun
    requires ClockAdvances(turns) && KillTakesEffect(turns, patience)
    ensures Run(turns).overrun
    ensures SleptFrom(turns, i)
            + Remaining(Run(turns), Clock(turns), patience)
         <= GRACE + patience + 2 * POLL_INTERVAL
  {
    var n := |turns| - 1;
    var front := turns[..n];
    UsedBefore(turns);
    RunIsConsistent(front);
    if i < n {
      assert front[..i] == turns[..i];
      PollingUsesUpTime(front, i, patience);
      PollUsesUpTime(Run(front), turns[n], Clock(front), patience);
    } else {
      PollUsesUpTime(Run(front), turns[n], turns[n].termBase, patience);
    }
  }

  lemma {:induction false} NoRequestNoOverrun(turns: seq<Turn>)
    requires forall j | 0 <= j < |turns| :: !turns[j].control.Requested?
    ensures !Run(turns).overrun
  {
    if turns == [] {
    } else {
      NoRequestNoOverrun(turns[..|turns| - 1]);
    }
  }

  /** Once the announcement has been read the wait is over after an explicit number
      of polls: the grace period and the time a SIGKILL takes, one poll per poll
      interval. */
  lemma WaitIsBounded(turns: seq<Turn>, request: nat, patience: nat)
    requires Used(turns) && !Run(turns).outcome.Failed? && IsFirstRequest(turns, Some(request))
    requires ClockAdvances(turns) && KillTakesEffect(turns, patience)
    ensures SleptFrom(turns, request) <= 3000 + patience + 10
  {
    NoRequestNoOverrun(turns[..request]);
    PollingUsesUpTime(turns, request, patience);
  }
}
