/** `run_pid1_supervisor`: PID 1 of the sandbox forwards signals, reaps every child,
    enforces the timeout and shuts the application's process group down. */
module Supervisor {
  import opened Kernel
  import opened SignalCell

  /** Everything that reaches the loop in one iteration: the signals handled since
      the previous swap, the clock before the wait (`check`, `base`) and after it
      (`after`), and the answers of the kernel. */
  datatype Turn = Turn(
    stores: seq<int>,
    forward: KillAnswer,
    check: nat,
    timeoutTerm: KillAnswer,
    base: nat,
    wait: WaitAnswer,
    exitTerm: KillAnswer,
    after: nat,
    kill: KillAnswer)

  datatype Sup = Sup(
    status: Option<WaitStatus>,
    deadline: Option<nat>,
    timedOut: bool,
    killed: bool,
    sent: seq<Sent>,
    forwarded: seq<int>,
    reaped: seq<int>,
    outcome: Outcome)

  const INITIAL := Sup(None, None, false, false, [], [], [], Running)

  // ---------- one iteration ----------

  function Pending(stores: seq<int>): int {
    if stores == [] then 0 else stores[|stores| - 1]
  }

  function ForwardStep(s: Sup, t: Turn): Sup {
    match ForwardOf(Pending(t.stores), t.forward)
    case NothingPending => s
    case Forwarded(signal) => s.(forwarded := s.forwarded + [signal])
    case ForwardFailed => s.(outcome := Failed(ForwardFault))
  }

  function Expire(s: Sup, execution: Option<nat>, t: Turn): Sup {
    if !s.outcome.Running? || s.timedOut || s.status.Some? then s
    else if execution.None? || t.check < execution.value then s
    else if t.timeoutTerm.KillError? then s.(timedOut := true, outcome := Failed(KillFault))
    else s.(timedOut := true,
            deadline := Some(t.base + GRACE),
            sent := s.sent + [Sent(SIGTERM, AfterTimeout, t.base)])
  }

  /** The state in which `waitpid` is called. */
  function BeforeWait(s: Sup, execution: Option<nat>, t: Turn): Sup {
    Expire(ForwardStep(s, t), execution, t)
  }

  predicate Blocking(s: Sup, execution: Option<nat>) {
    s.deadline.None? && execution.None?
  }

  function Reap(s: Sup, main: int, status: WaitStatus, t: Turn): Sup
    requires status.Terminal()
  {
    var r := s.(reaped := s.reaped + [status.pid]);
    if status.pid != main then r
    else if t.exitTerm.KillError? then r.(status := Some(status), outcome := Failed(KillFault))
    else r.(status := Some(status),
            deadline := Some(t.after + GRACE),
            sent := s.sent + [Sent(SIGTERM, AfterExit, t.after)])
  }

  function Escalate(s: Sup, t: Turn): Sup {
    if s.killed || s.deadline.None? || t.after < s.deadline.value then s
    else if t.kill.KillError? then s.(outcome := Failed(KillFault))
    else s.(killed := true, sent := s.sent + [Sent(SIGKILL, AfterGrace, t.after)])
  }

  function AllGone(s: Sup): Sup {
    s.(outcome :=
      if s.timedOut then Done(TimedOut)
      else match s.status
        case Some(status) => Done(Finished(status))
        case None => Failed(MissingStatus))
  }

  function WaitStep(s: Sup, main: int, t: Turn): Sup {
    if !s.outcome.Running? then s
    else match t.wait
      case Status(status) =>
        if status.Terminal() then Reap(s, main, status, t)
        else if status.StillAlive? then Escalate(s, t)
        else s
      case Interrupted => s
      case NoChild => AllGone(s)
      case WaitError => s.(outcome := Failed(WaitFault))
  }

  function Step(s: Sup, main: int, execution: Option<nat>, t: Turn): Sup {
    if s.outcome.Running? then WaitStep(BeforeWait(s, execution, t), main, t) else s
  }

  function Run(turns: seq<Turn>, main: int, execution: Option<nat>): Sup {
    if turns == [] then INITIAL
    else Step(Run(turns[..|turns| - 1], main, execution), main, execution, turns[|turns| - 1])
  }

  /** The loop's variables, and its iteration in the three phases it goes through. */
  class Loop {
    const main: int
    const execution: Option<nat>
    const cell: AtomicCell
    var mainStatus: Option<WaitStatus>
    var shutdownDeadline: Option<nat>
    var timeoutTriggered: bool
    var sigkillSent: bool
    var sent: seq<Sent>
    var forwarded: seq<int>
    var reaped: seq<int>
    var outcome: Outcome

    ghost predicate Valid()
      reads this, cell
    {
      cell.Valid() && cell.value == 0
    }

    ghost function View(): Sup
      reads this
    {
      Sup(mainStatus, shutdownDeadline, timeoutTriggered, sigkillSent, sent, forwarded, reaped, outcome)
    }

    constructor (main: int, execution: Option<nat>)
      ensures Valid() && fresh(cell) && View() == INITIAL
      ensures this.main == main && this.execution == execution
    {
      this.main, this.execution := main, execution;
      cell := new AtomicCell();
      mainStatus, shutdownDeadline := None, None;
      timeoutTriggered, sigkillSent := false, false;
      sent, forwarded, reaped := [], [], [];
      outcome := Running;
    }

    /** `stores` arrive, the handler running once for each; then the loop swaps. */
    method ForwardReceivedSignal(stores: seq<int>, answer: KillAnswer)
      requires Valid()
      modifies this, cell
      ensures Valid() && cell.events == old(cell.events) + Arrivals(stores) + [Swap]
      ensures var pending := if stores == [] then 0 else stores[|stores| - 1];
              View() == if pending == 0 then old(View())
                        else if 1 <= pending <= 31 && !answer.KillError?
                        then old(View()).(forwarded := old(forwarded) + [pending])
                        else old(View()).(outcome := Failed(ForwardFault))
    {
      assert old(cell.events) + Arrivals(stores[..0]) == old(cell.events);
      for k := 0 to |stores|
        invariant View() == old(View())
        invariant cell.Valid() && cell.value == Pending(stores[..k])
        invariant cell.events == old(cell.events) + Arrivals(stores[..k])
      {
        cell.HandleSignal(stores[k]);
        assert Arrivals(stores[..k + 1]) == Arrivals(stores[..k]) + [Store(stores[k])];
      }
      assert stores[..|stores|] == stores;
      var f := cell.ForwardReceivedSignal(answer);
      match f
      case NothingPending =>
      case Forwarded(signal) => forwarded := forwarded + [signal];
      case ForwardFailed => outcome := Failed(ForwardFault);
    }

    method CheckTimeout(t: Turn)
      requires Valid() && outcome.Running?
      modifies this
      ensures Valid() && View() == Expire(old(View()), execution, t)
    {
      if !timeoutTriggered && mainStatus.None? {
        if execution.Some? && t.check >= execution.value {
          timeoutTriggered := true;
          if t.timeoutTerm.KillError? {
            outcome := Failed(KillFault);
            return;
          }
          sent := sent + [Sent(SIGTERM, AfterTimeout, t.base)];
          shutdownDeadline := Some(t.base + GRACE);
        }
      }
    }

    method WaitOnce(t: Turn)
      requires Valid() && outcome.Running?
      modifies this
      ensures Valid() && View() == WaitStep(old(View()), main, t)
    {
      match t.wait
      case Status(status) =>
        if status.Terminal() {
          reaped := reaped + [status.pid];
          if status.pid == main {
            mainStatus := Some(status);
            if t.exitTerm.KillError? {
              outcome := Failed(KillFault);
              return;
            }
            sent := sent + [Sent(SIGTERM, AfterExit, t.after)];
            shutdownDeadline := Some(t.after + GRACE);
          }
        } else if status.StillAlive? {
          if shutdownDeadline.Some? && t.after >= shutdownDeadline.value && !sigkillSent {
            if t.kill.KillError? {
              outcome := Failed(KillFault);
              return;
            }
            sent := sent + [Sent(SIGKILL, AfterGrace, t.after)];
            sigkillSent := true;
          }
        }
      case Interrupted =>
      case NoChild =>
        if timeoutTriggered {
          outcome := Done(TimedOut);
        } else if mainStatus.None? {
          outcome := Failed(MissingStatus);
        } else {
          outcome := Done(Finished(mainStatus.value));
        }
      case WaitError => outcome := Failed(WaitFault);
    }

    /** One iteration of the loop. */
    method Iterate(t: Turn)
      requires Valid() && outcome.Running?
      modifies this, cell
      ensures Valid() && View() == Step(old(View()), main, execution, t)
    {
      ForwardReceivedSignal(t.stores, t.forward);
      if outcome.Running? {
        CheckTimeout(t);
      }
      if outcome.Running? {
        WaitOnce(t);
      }
    }
  }

  /** The whole loop, over the answers of one run. */
  method RunPid1Supervisor(turns: seq<Turn>, main: int, start: nat, timeoutSeconds: Option<nat>)
    returns (s: Sup)
    ensures timeoutSeconds.None? ==> s == Run(turns, main, None)
    ensures timeoutSeconds.Some? ==> s == Run(turns, main, Some(start + 1000 * timeoutSeconds.value))
  {
    var execution := ExecutionDeadline(start, timeoutSeconds);
    var loop := new Loop(main, execution);
    var i := 0;
    while i < |turns| && loop.outcome.Running?
      invariant 0 <= i <= |turns|
      invariant fresh(loop) && fresh(loop.cell) && loop.Valid()
      invariant loop.View() == Run(turns[..i], main, execution)
    {
      assert turns[..i + 1][..i] == turns[..i];
      loop.Iterate(turns[i]);
      i := i + 1;
    }
    s := Sup(loop.mainStatus, loop.shutdownDeadline, loop.timeoutTriggered, loop.sigkillSent,
             loop.sent, loop.forwarded, loop.reaped, loop.outcome);
    Stays(turns, main, execution, i);
  }

  /** Once a run has ended, further answers change nothing. */
  lemma {:induction false} Stays(turns: seq<Turn>, main: int, execution: Option<nat>, i: nat)
    requires i <= |turns|
    requires i < |turns| ==> !Run(turns[..i], main, execution).outcome.Running?
    ensures Run(turns, main, execution) == Run(turns[..i], main, execution)
    decreases |turns|
  {
    if i < |turns| {
      var front := turns[..|turns| - 1];
      assert front[..i] == turns[..i];
      assert i == |front| ==> front == turns[..i];
      Stays(front, main, execution, i);
    } else {
      assert turns[..i] == turns;
    }
  }

  // ---------- forwarding ----------

  function Arrivals(stores: seq<int>): seq<Event> {
    seq(|stores|, i requires 0 <= i < |stores| => Store(stores[i]))
  }

  /** All handler stores and swaps of a run, in order. */
  function Events(turns: seq<Turn>): seq<Event> {
    if turns == [] then []
    else Events(turns[..|turns| - 1]) + Arrivals(turns[|turns| - 1].stores) + [Swap]
  }

  /** The supervisor forwards exactly what the swaps take out of the mailbox, in
      that order (see `TakenOutExactly` for what that is). */
  lemma {:induction false} ForwardsWhatItTakes(turns: seq<Turn>, main: int, execution: Option<nat>)
    requires Used(turns, main, execution) && !Run(turns, main, execution).outcome.Failed?
    ensures Run(turns, main, execution).forwarded == TakenOut(Events(turns))
  {
    if turns == [] {
    } else {
      var front, t := turns[..|turns| - 1], turns[|turns| - 1];
      UsedBefore(turns, main, execution);
      ForwardsWhatItTakes(front, main, execution);
      StepForwards(Run(front, main, execution), main, execution, t);
      TurnTakesPending(Events(front), t.stores);
      EventsEndWithSwap(front);
    }
  }

  /** For every interleaving of the handler with the loop, the forwarded signals are
      received ones, in order, none twice, and a received signal is passed over only
      if a later one replaced it before the next swap. */
  lemma ForwardingExactly(turns: seq<Turn>, main: int, execution: Option<nat>) returns (picks: seq<nat>)
    requires Used(turns, main, execution) && !Run(turns, main, execution).outcome.Failed?
    requires forall i | 0 <= i < |Events(turns)| && Events(turns)[i].Store? :: Events(turns)[i].signal != 0
    ensures Explains(picks, Run(turns, main, execution).forwarded, Events(turns))
  {
    ForwardsWhatItTakes(turns, main, execution);
    picks := TakenOutExactly(Events(turns));
  }

  lemma StepForwards(s: Sup, main: int, execution: Option<nat>, t: Turn)
    requires s.outcome.Running? && !Step(s, main, execution, t).outcome.Failed?
    ensures Step(s, main, execution, t).forwarded ==
            s.forwarded + if Pending(t.stores) == 0 then [] else [Pending(t.stores)]
  {
  }

  lemma TurnTakesPending(events: seq<Event>, stores: seq<int>)
    requires Content(events) == 0
    ensures TakenOut(events + Arrivals(stores) + [Swap]) ==
            TakenOut(events) + if Pending(stores) == 0 then [] else [Pending(stores)]
  {
    var before := events + Arrivals(stores);
    StoresTakeNothing(events, Arrivals(stores));
    assert (before + [Swap])[..|before|] == before;
    assert stores == [] ==> before == events;
    assert stores != [] ==> before[|before| - 1] == Store(stores[|stores| - 1]);
    assert Content(before) == Pending(stores);
  }

  lemma EventsEndWithSwap(turns: seq<Turn>)
    ensures Content(Events(turns)) == 0
  {
  }

  lemma {:induction false} StoresTakeNothing(events: seq<Event>, stores: seq<Event>)
    requires forall i | 0 <= i < |stores| :: stores[i].Store?
    ensures TakenOut(events + stores) == TakenOut(events)
  {
    if stores == [] {
      assert events + stores == events;
    } else {
      var n := |stores| - 1;
      assert (events + stores)[..|events + stores| - 1] == events + stores[..n];
      StoresTakeNothing(events, stores[..n]);
    }
  }

  /** Signals 1 to 31, those with a handler among them, are forwarded unless refused, and
      a run ends with a forwarding fault for no other reason. */
  lemma ForwardFaultExactly(turns: seq<Turn>, main: int, execution: Option<nat>)
    requires turns != [] && Used(turns, main, execution)
    ensures var n, t := |turns| - 1, turns[|turns| - 1];
            var before, s := Run(turns[..n], main, execution), Run(turns, main, execution);
      && (s.outcome == Failed(ForwardFault) <==> CannotForward(t))
      && (t.stores != [] && 1 <= t.stores[|t.stores| - 1] <= 31 && !t.forward.KillError? ==>
            s.forwarded == before.forwarded + [t.stores[|t.stores| - 1]])
      && (t.stores == [] ==> s.forwarded == before.forwarded)
  {
    var n := |turns| - 1;
    StepForwardsExactly(Run(turns[..n], main, execution), main, execution, turns[n]);
  }

  lemma StepForwardsExactly(s: Sup, main: int, execution: Option<nat>, t: Turn)
    requires s.outcome.Running?
    ensures Step(s, main, execution, t).outcome == Failed(ForwardFault) <==> CannotForward(t)
    ensures Step(s, main, execution, t).forwarded == ForwardStep(s, t).forwarded
    ensures t.stores != [] && 1 <= t.stores[|t.stores| - 1] <= 31 && !t.forward.KillError? ==>
              ForwardStep(s, t).forwarded == s.forwarded + [t.stores[|t.stores| - 1]]
    ensures t.stores == [] ==> ForwardStep(s, t).forwarded == s.forwarded
  {
  }

  /** The signal that is pending at the swap of turn `i` is forwarded in that turn, so a
      stored signal waits for the next turn to begin and for nothing else. */
  lemma {:induction false} PendingIsForwarded(turns: seq<Turn>, main: int, execution: Option<nat>, i: nat)
    requires Used(turns, main, execution) && !Run(turns, main, execution).outcome.Failed?
    requires i < |turns| && Pending(turns[i].stores) != 0
    ensures Run(turns[..i], main, execution).forwarded + [Pending(turns[i].stores)]
         <= Run(turns, main, execution).forwarded
    decreases |turns|
  {
    var n := |turns| - 1;
    UsedBefore(turns, main, execution);
    StepForwards(Run(turns[..n], main, execution), main, execution, turns[n]);
    if i < n {
      assert turns[..n][..i] == turns[..i];
      PendingIsForwarded(turns[..n], main, execution, i);
    }
  }

  /** The turn that a stored signal waits for may be held up without limit by the wait
      before it exactly if that wait blocks: when there is no timeout and the end of
      the main child has not been reported. */
  lemma {:induction false} BlocksExactlyWhen(turns: seq<Turn>, main: int, execution: Option<nat>)
    requires turns != [] && Used(turns, main, execution)
    ensures var n := |turns| - 1;
            var s := BeforeWait(Run(turns[..n], main, execution), execution, turns[n]);
            Blocking(s, execution) <==> execution.None? && forall j | 0 <= j < n :: !EndsMain(turns[j], main)
  {
    var front := turns[..|turns| - 1];
    if execution.None? {
      NoDeadlineBeforeEnd(front, main);
      assert forall j | 0 <= j < |front| :: front[j] == turns[j];
    }
  }

  lemma {:induction false} NoDeadlineBeforeEnd(turns: seq<Turn>, main: int)
    requires Run(turns, main, None).outcome.Running?
    ensures Run(turns, main, None).deadline.None? <==> forall j | 0 <= j < |turns| :: !EndsMain(turns[j], main)
  {
    if turns == [] {
    } else {
      var n := |turns| - 1;
      var front := turns[..n];
      NoDeadlineBeforeEnd(front, main);
      assert forall j | 0 <= j < n :: front[j] == turns[j];
    }
  }

  // ---------- what a run did, told from the answers alone ----------

  /** The run used every one of the answers: it had not ended before the last. */
  ghost predicate Used(turns: seq<Turn>, main: int, execution: Option<nat>) {
    turns == [] || Run(turns[..|turns| - 1], main, execution).outcome.Running?
  }

  predicate EndsMain(t: Turn, main: int) {
    t.wait.Ended() && t.wait.status.pid == main
  }

  predicate Expires(t: Turn, execution: Option<nat>) {
    execution.Some? && t.check >= execution.value
  }

  /** `end` is the one turn that reports the end of the main child, if there is one. */
  ghost predicate IsMainEnd(turns: seq<Turn>, main: int, end: Option<nat>) {
    && (end.Some? ==> end.value < |turns| && EndsMain(turns[end.value], main))
    && forall j | 0 <= j < |turns| && end != Some(j) :: !EndsMain(turns[j], main)
  }

  /** `expiry` is the first turn past the execution deadline, if that is not after
      the main child's end. */
  ghost predicate IsExpiry(turns: seq<Turn>, execution: Option<nat>, end: Option<nat>, expiry: Option<nat>) {
    match expiry
    case None => forall j | 0 <= j < |turns| && (end.None? || j <= end.value) :: !Expires(turns[j], execution)
    case Some(i) => i < |turns| && (end.None? || i <= end.value) && Expires(turns[i], execution)
                    && forall j | 0 <= j < i :: !Expires(turns[j], execution)
  }

  /** A poll at which the grace period that is in force has run out: the one given at
      the main child's end or, before that, at the timeout. */
  predicate Overdue(t: Turn, term: Option<nat>, end: Option<nat>) {
    && t.wait.Alive()
    && if end.Some? then t.after >= end.value + 3000 else term.Some? && t.after >= term.value + 3000
  }

  function TermAt(turns: seq<Turn>, expiry: Option<nat>, k: nat): Option<nat>
    requires k < |turns|
  {
    if expiry.Some? && expiry.value <= k then Some(turns[expiry.value].base) else None
  }

  function EndAt(turns: seq<Turn>, end: Option<nat>, k: nat): Option<nat>
    requires k < |turns|
  {
    if end.Some? && end.value < k then Some(turns[end.value].after) else None
  }

  ghost predicate OverdueAt(turns: seq<Turn>, end: Option<nat>, expiry: Option<nat>, k: nat)
    requires k < |turns|
  {
    Overdue(turns[k], TermAt(turns, expiry, k), EndAt(turns, end, k))
  }

  /** `kill` is the first overdue poll, if there is one. */
  ghost predicate IsKillTurn(turns: seq<Turn>, end: Option<nat>, expiry: Option<nat>, kill: Option<nat>) {
    match kill
    case None => forall j | 0 <= j < |turns| :: !OverdueAt(turns, end, expiry, j)
    case Some(k) => k < |turns| && OverdueAt(turns, end, expiry, k)
                    && forall j | 0 <= j < k :: !OverdueAt(turns, end, expiry, j)
  }

  /** The state after a SIGTERM for the timeout at `term`, the main child's end at
      `end` and a SIGKILL at `kill`, each if at all, the SIGKILL before the end or not. */
  ghost predicate Tells(
      s: Sup, term: Option<nat>, end: Option<(WaitStatus, nat)>, kill: Option<nat>, killFirst: bool)
  {
    var exitTerm := if end.None? then [] else [Sent(15, AfterExit, end.value.1)];
    var graceKill := if kill.None? then [] else [Sent(9, AfterGrace, kill.value)];
    && s.timedOut == term.Some? && s.killed == kill.Some?
    && s.status == (if end.None? then None else Some(end.value.0))
    && s.deadline == (if end.Some? then Some(end.value.1 + 3000)
                      else if term.Some? then Some(term.value + 3000) else None)
    && s.sent == (if term.None? then [] else [Sent(15, AfterTimeout, term.value)])
                 + (if killFirst then graceKill + exitTerm else exitTerm + graceKill)
  }

  lemma ExpireTells(s: Sup, execution: Option<nat>, t: Turn, term: Option<nat>, end: Option<(WaitStatus, nat)>,
                    kill: Option<nat>, killFirst: bool)
    requires s.outcome.Running? && BeforeWait(s, execution, t).outcome.Running?
    requires Tells(s, term, end, kill, killFirst) && (term.None? && end.None? ==> kill.None?)
    ensures var term' := if term.None? && end.None? && Expires(t, execution) then Some(t.base) else term;
            Tells(BeforeWait(s, execution, t), term', end, kill, killFirst)
  {
  }

  lemma WaitTells(s: Sup, main: int, t: Turn, term: Option<nat>, end: Option<(WaitStatus, nat)>,
                  kill: Option<nat>, killFirst: bool)
    requires s.outcome.Running? && !WaitStep(s, main, t).outcome.Failed?
    requires Tells(s, term, end, kill, killFirst)
    requires (EndsMain(t, main) ==> end.None?) && (kill.Some? && end.None? ==> killFirst) && (killFirst ==> kill.Some?)
    ensures var overdue := kill.None? && Overdue(t, term, if end.None? then None else Some(end.value.1));
            Tells(WaitStep(s, main, t), term,
                  if EndsMain(t, main) then Some((t.wait.status, t.after)) else end,
                  if overdue then Some(t.after) else kill,
                  killFirst || (overdue && end.None?))
    ensures WaitStep(s, main, t).outcome.Done? <==> t.wait.NoChild?
  {
  }

  lemma StepGoesThrough(s: Sup, main: int, execution: Option<nat>, t: Turn)
    requires s.outcome.Running? && !Step(s, main, execution, t).outcome.Failed?
    ensures BeforeWait(s, execution, t).outcome.Running?
    ensures Step(s, main, execution, t) == WaitStep(BeforeWait(s, execution, t), main, t)
  {
  }

  function EndOf(turns: seq<Turn>, end: Option<nat>): Option<(WaitStatus, nat)>
    requires end.Some? ==> end.value < |turns| && turns[end.value].wait.Status?
  {
    if end.None? then None else Some((turns[end.value].wait.status, turns[end.value].after))
  }

  /** What the supervisor does in a run is determined by three turns of it: the first
      one past the execution deadline, unless the main child's end comes earlier; the
      one that reports that end; and the first poll at which the grace period in
      force has run out.  Each is answered by one signal, in this order of turns, and
      by nothing else. */
  lemma {:induction false} SignalsExactly(
      turns: seq<Turn>, main: int, execution: Option<nat>, end: Option<nat>, expiry: Option<nat>, kill: Option<nat>)
    requires Used(turns, main, execution) && !Run(turns, main, execution).outcome.Failed?
    requires IsMainEnd(turns, main, end) && IsExpiry(turns, execution, end, expiry)
    requires IsKillTurn(turns, end, expiry, kill)
    ensures Tells(Run(turns, main, execution),
                  BaseOf(turns, expiry), EndOf(turns, end), AfterOf(turns, kill),
                  kill.Some? && (end.None? || kill.value < end.value))
    ensures Run(turns, main, execution).outcome.Done? <==> turns != [] && turns[|turns| - 1].wait.NoChild?
    decreases |turns|
  {
    if turns == [] {
    } else {
      var n := |turns| - 1;
      var front, t := turns[..n], turns[n];
      var end0 := if end == Some(n) then None else end;
      var expiry0 := if expiry == Some(n) then None else expiry;
      var kill0 := if kill == Some(n) then None else kill;
      UsedBefore(turns, main, execution);
      FrontCauses(turns, main, execution, end, expiry, kill);
      SignalsExactly(front, main, execution, end0, expiry0, kill0);
      LastTurnTells(turns, Run(front, main, execution), main, execution, end, expiry, kill);
    }
  }

  lemma LastTurnTells(turns: seq<Turn>, s: Sup, main: int, execution: Option<nat>,
                      end: Option<nat>, expiry: Option<nat>, kill: Option<nat>)
    requires turns != [] && s.outcome.Running?
    requires IsMainEnd(turns, main, end) && IsExpiry(turns, execution, end, expiry)
    requires IsKillTurn(turns, end, expiry, kill)
    requires var n := |turns| - 1;
             var front := turns[..n];
             var end0 := if end == Some(n) then None else end;
             var expiry0 := if expiry == Some(n) then None else expiry;
             var kill0 := if kill == Some(n) then None else kill;
             Tells(s, BaseOf(front, expiry0), EndOf(front, end0), AfterOf(front, kill0),
                   kill0.Some? && (end0.None? || kill0.value < end0.value))
    requires !Step(s, main, execution, turns[|turns| - 1]).outcome.Failed?
    ensures var s' := Step(s, main, execution, turns[|turns| - 1]);
      && Tells(s', BaseOf(turns, expiry), EndOf(turns, end), AfterOf(turns, kill),
               kill.Some? && (end.None? || kill.value < end.value))
      && (s'.outcome.Done? <==> turns[|turns| - 1].wait.NoChild?)
  {
    var n := |turns| - 1;
    var front := turns[..n];
    var end0 := if end == Some(n) then None else end;
    var expiry0 := if expiry == Some(n) then None else expiry;
    var kill0 := if kill == Some(n) then None else kill;
    LastTurn(turns, main, execution, end, expiry);
    LastKill(turns, main, execution, end, expiry, kill);
    TurnTells(s, main, execution, turns[n], BaseOf(front, expiry0), EndOf(front, end0), AfterOf(front, kill0),
              kill0.Some? && (end0.None? || kill0.value < end0.value));
  }

  function BaseOf(turns: seq<Turn>, expiry: Option<nat>): Option<nat>
    requires expiry.Some? ==> expiry.value < |turns|
  {
    if expiry.None? then None else Some(turns[expiry.value].base)
  }

  function AfterOf(turns: seq<Turn>, kill: Option<nat>): Option<nat>
    requires kill.Some? ==> kill.value < |turns|
  {
    if kill.None? then None else Some(turns[kill.value].after)
  }

  function NextTerm(t: Turn, execution: Option<nat>, term: Option<nat>, end: Option<(WaitStatus, nat)>): Option<nat> {
    if term.None? && end.None? && Expires(t, execution) then Some(t.base) else term
  }

  predicate NowOverdue(t: Turn, term: Option<nat>, end: Option<(WaitStatus, nat)>, kill: Option<nat>) {
    kill.None? && Overdue(t, term, if end.None? then None else Some(end.value.1))
  }

  lemma TurnTells(s: Sup, main: int, execution: Option<nat>, t: Turn,
                  term: Option<nat>, end: Option<(WaitStatus, nat)>, kill: Option<nat>, killFirst: bool)
    requires s.outcome.Running? && !Step(s, main, execution, t).outcome.Failed?
    requires Tells(s, term, end, kill, killFirst) && (term.None? && end.None? ==> kill.None?)
    requires (EndsMain(t, main) ==> end.None?) && (kill.Some? && end.None? ==> killFirst) && (killFirst ==> kill.Some?)
    ensures var term' := NextTerm(t, execution, term, end);
            Tells(Step(s, main, execution, t), term',
                  if EndsMain(t, main) then Some((t.wait.status, t.after)) else end,
                  if NowOverdue(t, term', end, kill) then Some(t.after) else kill,
                  killFirst || (NowOverdue(t, term', end, kill) && end.None?))
    ensures Step(s, main, execution, t).outcome.Done? <==> t.wait.NoChild?
  {
    StepGoesThrough(s, main, execution, t);
    ExpireTells(s, execution, t, term, end, kill, killFirst);
    WaitTells(BeforeWait(s, execution, t), main, t, NextTerm(t, execution, term, end), end, kill, killFirst);
  }

  /** What the last turn adds to the decisive turns. */
  lemma LastTurn(
      turns: seq<Turn>, main: int, execution: Option<nat>, end: Option<nat>, expiry: Option<nat>)
    requires turns != []
    requires IsMainEnd(turns, main, end) && IsExpiry(turns, execution, end, expiry)
    ensures var n := |turns| - 1;
            var front, t := turns[..n], turns[n];
            var ended := EndOf(front, if end == Some(n) then None else end);
      && BaseOf(turns, expiry)
         == NextTerm(t, execution, BaseOf(front, if expiry == Some(n) then None else expiry), ended)
      && EndOf(turns, end) == (if EndsMain(t, main) then Some((t.wait.status, t.after)) else ended)
      && (EndsMain(t, main) ==> ended.None?)
  {
  }

  lemma LastKill(
      turns: seq<Turn>, main: int, execution: Option<nat>, end: Option<nat>, expiry: Option<nat>, kill: Option<nat>)
    requires turns != []
    requires IsMainEnd(turns, main, end) && IsExpiry(turns, execution, end, expiry)
    requires IsKillTurn(turns, end, expiry, kill)
    ensures var n := |turns| - 1;
            var front, t := turns[..n], turns[n];
            var end0 := if end == Some(n) then None else end;
            var kill0 := if kill == Some(n) then None else kill;
            var first := kill0.Some? && (end0.None? || kill0.value < end0.value);
            var overdue := NowOverdue(t, BaseOf(turns, expiry), EndOf(front, end0), AfterOf(front, kill0));
      && AfterOf(turns, kill) == (if overdue then Some(t.after) else AfterOf(front, kill0))
      && (kill.Some? && (end.None? || kill.value < end.value) <==> first || (overdue && end0.None?))
      && ((expiry.None? || expiry == Some(n)) && end0.None? ==> kill0.None?)
  {
    var n := |turns| - 1;
    assert TermAt(turns, expiry, n) == BaseOf(turns, expiry);
    assert kill.None? ==> !OverdueAt(turns, end, expiry, n);
    assert kill.Some? ==> OverdueAt(turns, end, expiry, kill.value);
  }

  /** The latest signal stored since the previous swap is not one of 1 to 31, or is
      refused. */
  predicate CannotForward(t: Turn) {
    && t.stores != [] && t.stores[|t.stores| - 1] != 0
    && (!(1 <= t.stores[|t.stores| - 1] <= 31) || t.forward.KillError?)
  }

  /** What makes a turn fail: a signal to forward or to send that is unknown or refused,
      a wait that fails, or no child left with the main child's end neither reported
      nor forestalled by the timeout. */
  function TurnFault(t: Turn, expiryNow: bool, endNow: bool, killNow: bool, orphaned: bool): Option<Fault> {
    if CannotForward(t) then Some(ForwardFault)
    else if expiryNow && t.timeoutTerm.KillError? then Some(KillFault)
    else if t.wait.WaitError? then Some(WaitFault)
    else if t.wait.NoChild? && orphaned then Some(MissingStatus)
    else if (endNow && t.exitTerm.KillError?) || (killNow && t.kill.KillError?) then Some(KillFault)
    else None
  }

  function LastFault(turns: seq<Turn>, end: Option<nat>, expiry: Option<nat>, kill: Option<nat>): Option<Fault>
    requires turns != []
  {
    var n := |turns| - 1;
    TurnFault(turns[n], expiry == Some(n), end == Some(n), kill == Some(n), expiry.None? && end.None?)
  }

  /** A run fails exactly when its last turn gives it a reason to, and with that fault. */
  lemma {:induction false} FailsExactly(
      turns: seq<Turn>, main: int, execution: Option<nat>, end: Option<nat>, expiry: Option<nat>, kill: Option<nat>)
    requires turns != [] && Used(turns, main, execution)
    requires IsMainEnd(turns, main, end) && IsExpiry(turns, execution, end, expiry)
    requires IsKillTurn(turns, end, expiry, kill)
    ensures FaultOf(Run(turns, main, execution).outcome) == LastFault(turns, end, expiry, kill)
  {
    var n := |turns| - 1;
    var front, t := turns[..n], turns[n];
    var end0 := if end == Some(n) then None else end;
    var expiry0 := if expiry == Some(n) then None else expiry;
    var kill0 := if kill == Some(n) then None else kill;
    UsedBefore(turns, main, execution);
    FrontCauses(turns, main, execution, end, expiry, kill);
    SignalsExactly(front, main, execution, end0, expiry0, kill0);
    LastTurn(turns, main, execution, end, expiry);
    LastTurnDecides(turns, main, execution, end, expiry, kill);
    StepFailsExactly(Run(front, main, execution), main, execution, t,
                     BaseOf(front, expiry0), EndOf(front, end0), AfterOf(front, kill0),
                     kill0.Some? && (end0.None? || kill0.value < end0.value));
  }

  /** The decisive turns that are the last turn, by what the turn itself answers. */
  lemma LastTurnDecides(
      turns: seq<Turn>, main: int, execution: Option<nat>, end: Option<nat>, expiry: Option<nat>, kill: Option<nat>)
    requires turns != []
    requires IsMainEnd(turns, main, end) && IsExpiry(turns, execution, end, expiry)
    requires IsKillTurn(turns, end, expiry, kill)
    ensures var n := |turns| - 1;
            var front, t := turns[..n], turns[n];
            var expiry0 := if expiry == Some(n) then None else expiry;
            var end0 := if end == Some(n) then None else end;
            var kill0 := if kill == Some(n) then None else kill;
      && (end == Some(n) <==> EndsMain(t, main))
      && (expiry == Some(n) <==> expiry0.None? && end0.None? && Expires(t, execution))
      && (kill == Some(n) <==>
            NowOverdue(t, BaseOf(turns, expiry), EndOf(front, end0), AfterOf(front, kill0)))
  {
    var n := |turns| - 1;
    assert TermAt(turns, expiry, n) == BaseOf(turns, expiry);
    assert kill.None? ==> !OverdueAt(turns, end, expiry, n);
    assert kill.Some? ==> OverdueAt(turns, end, expiry, kill.value);
  }

  lemma StepFailsExactly(s: Sup, main: int, execution: Option<nat>, t: Turn,
                         term: Option<nat>, end: Option<(WaitStatus, nat)>, kill: Option<nat>, killFirst: bool)
    requires s.outcome.Running? && Tells(s, term, end, kill, killFirst)
    requires EndsMain(t, main) ==> end.None?
    ensures var term' := NextTerm(t, execution, term, end);
            FaultOf(Step(s, main, execution, t).outcome) ==
            TurnFault(t, term.None? && end.None? && Expires(t, execution), EndsMain(t, main),
                      NowOverdue(t, term', end, kill), term'.None? && end.None?)
  {
  }

  /** A turn that begins `seconds` after the start. */
  predicate PastTimeout(t: Turn, start: nat, seconds: Option<nat>) {
    seconds.Some? && t.check >= start + 1000 * seconds.value
  }

  /** Turn `i` is the first such, and the main child's end has not been reported before. */
  ghost predicate TimesOutAt(turns: seq<Turn>, main: int, start: nat, seconds: Option<nat>, i: nat) {
    && i < |turns| && PastTimeout(turns[i], start, seconds)
    && forall j | 0 <= j < i :: !PastTimeout(turns[j], start, seconds) && !EndsMain(turns[j], main)
  }

  lemma ExpiryIsTimeout(turns: seq<Turn>, main: int, start: nat, seconds: Option<nat>,
                        end: Option<nat>, expiry: Option<nat>)
    requires IsMainEnd(turns, main, end) && IsExpiry(turns, ExecutionDeadline(start, seconds), end, expiry)
    ensures forall i: nat :: TimesOutAt(turns, main, start, seconds, i) <==> expiry == Some(i)
  {
    var execution := ExecutionDeadline(start, seconds);
    assert forall t :: Expires(t, execution) <==> PastTimeout(t, start, seconds);
    forall i: nat | TimesOutAt(turns, main, start, seconds, i)
      ensures expiry == Some(i)
    {
      assert end.Some? ==> EndsMain(turns[end.value], main);
    }
  }

  /** A supervisor that is given a number of seconds sends its SIGTERM for the timeout
      exactly in the first turn after they have passed, unless the main child ended
      before, and one that is given none never sends it. */
  lemma TimeoutExactly(turns: seq<Turn>, main: int, start: nat, seconds: Option<nat>, end: Option<nat>)
    requires Used(turns, main, ExecutionDeadline(start, seconds)) && IsMainEnd(turns, main, end)
    requires !Run(turns, main, ExecutionDeadline(start, seconds)).outcome.Failed?
    ensures var s := Run(turns, main, ExecutionDeadline(start, seconds));
      && (s.timedOut <==> exists i: nat :: TimesOutAt(turns, main, start, seconds, i))
      && (forall i: nat | TimesOutAt(turns, main, start, seconds, i) ::
            s.sent != [] && s.sent[0] == Sent(15, AfterTimeout, turns[i].base))
      && (!s.timedOut ==> forall x | x in s.sent :: !x.reason.AfterTimeout?)
      && (seconds.None? ==> !s.timedOut)
  {
    var execution := ExecutionDeadline(start, seconds);
    var expiry, kill := SomeDecisiveTurns(turns, main, execution, end);
    ExpiryIsTimeout(turns, main, start, seconds, end, expiry);
    SignalsExactly(turns, main, execution, end, expiry, kill);
    TellsTimeout(Run(turns, main, execution), BaseOf(turns, expiry), EndOf(turns, end), AfterOf(turns, kill),
                 kill.Some? && (end.None? || kill.value < end.value));
    if expiry.Some? {
      assert TimesOutAt(turns, main, start, seconds, expiry.value);
    }
  }

  lemma TellsTimeout(s: Sup, term: Option<nat>, end: Option<(WaitStatus, nat)>, kill: Option<nat>, killFirst: bool)
    requires Tells(s, term, end, kill, killFirst)
    ensures s.timedOut == term.Some?
    ensures term.Some? ==> s.sent != [] && s.sent[0] == Sent(15, AfterTimeout, term.value)
    ensures term.None? ==> forall x | x in s.sent :: !x.reason.AfterTimeout?
  {
  }

  /** The first expiry and the first overdue poll, or their absence, always exist. */
  lemma {:induction false} SomeDecisiveTurns(turns: seq<Turn>, main: int, execution: Option<nat>, end: Option<nat>)
    returns (expiry: Option<nat>, kill: Option<nat>)
    requires IsMainEnd(turns, main, end)
    ensures IsExpiry(turns, execution, end, expiry) && IsKillTurn(turns, end, expiry, kill)
  {
    var i := 0;
    while i < |turns| && !Expires(turns[i], execution)
      invariant i <= |turns| && forall j | 0 <= j < i :: !Expires(turns[j], execution)
    {
      i := i + 1;
    }
    expiry := if i == |turns| || (end.Some? && i > end.value) then None else Some(i);
    var k := 0;
    while k < |turns| && !OverdueAt(turns, end, expiry, k)
      invariant k <= |turns| && forall j | 0 <= j < k :: !OverdueAt(turns, end, expiry, j)
    {
      k := k + 1;
    }
    kill := if k == |turns| then None else Some(k);
  }

  lemma {:induction false} UsedBefore(turns: seq<Turn>, main: int, execution: Option<nat>)
    requires turns != [] && Used(turns, main, execution)
    ensures Used(turns[..|turns| - 1], main, execution)
  {
    var front := turns[..|turns| - 1];
    if front == [] {
    } else {
      assert Run(front, main, execution)
          == Step(Run(front[..|front| - 1], main, execution), main, execution, front[|front| - 1]);
    }
  }

  lemma FrontCauses(
      turns: seq<Turn>, main: int, execution: Option<nat>, end: Option<nat>, expiry: Option<nat>, kill: Option<nat>)
    requires turns != []
    requires IsMainEnd(turns, main, end) && IsExpiry(turns, execution, end, expiry)
    requires IsKillTurn(turns, end, expiry, kill)
    ensures var n := |turns| - 1;
            var front := turns[..n];
            var end0 := if end == Some(n) then None else end;
            var expiry0 := if expiry == Some(n) then None else expiry;
            var kill0 := if kill == Some(n) then None else kill;
      && IsMainEnd(front, main, end0) && IsExpiry(front, execution, end0, expiry0)
      && IsKillTurn(front, end0, expiry0, kill0)
  {
    var n := |turns| - 1;
    var front := turns[..n];
    var end0 := if end == Some(n) then None else end;
    var expiry0 := if expiry == Some(n) then None else expiry;
    forall j: nat | j < n
      ensures OverdueAt(front, end0, expiry0, j) <==> OverdueAt(turns, end, expiry, j)
    {
    }
  }
}
