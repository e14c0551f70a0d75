/** Which signals PID 1 sends on its own account, when, and how long supervision
    can last, over every evolution of the process tree. */
module Escalation {
  import opened Kernel
  import opened Supervisor
  import opened ProcessTable

  // ---------- the language of signals ----------

  predicate IsTerm(x: Sent, reason: Reason) {
    x.signal == SIGTERM && x.reason == reason
  }

  /** `x` is a SIGKILL that leaves the SIGTERM `term` before it its full grace. */
  predicate IsKillAfter(x: Sent, term: Sent) {
    x.signal == SIGKILL && x.reason == AfterGrace && x.at >= term.at + GRACE
  }

  function Reasons(sent: seq<Sent>): seq<Reason> {
    seq(|sent|, i requires 0 <= i < |sent| => sent[i].reason)
  }

  /** The signals sent so far, by what has happened so far. */
  ghost predicate Shape(s: Sup) {
    var x := s.sent;
    && (s.deadline.Some? <==> s.timedOut || s.status.Some?)
    && if !s.timedOut && s.status.None? then !s.killed && x == []
       else if s.status.None? then
         && |x| == (if s.killed then 2 else 1)
         && IsTerm(x[0], AfterTimeout) && s.deadline == Some(x[0].at + GRACE)
         && (s.killed ==> IsKillAfter(x[1], x[0]))
       else if !s.timedOut then
         && |x| == (if s.killed then 2 else 1)
         && IsTerm(x[0], AfterExit) && s.deadline == Some(x[0].at + GRACE)
         && (s.killed ==> IsKillAfter(x[1], x[0]))
       else if !s.killed then
         && |x| == 2
         && IsTerm(x[0], AfterTimeout) && IsTerm(x[1], AfterExit) && s.deadline == Some(x[1].at + GRACE)
       else
         && |x| == 3 && IsTerm(x[0], AfterTimeout)
         && ((IsTerm(x[1], AfterExit) && IsKillAfter(x[2], x[1]) && s.deadline == Some(x[1].at + GRACE))
             || (IsKillAfter(x[1], x[0]) && IsTerm(x[2], AfterExit) && s.deadline == Some(x[2].at + GRACE)))
  }

  lemma ExpireKeepsShape(s: Sup, execution: Option<nat>, t: Turn)
    requires Shape(s) && !BeforeWait(s, execution, t).outcome.Failed?
    ensures Shape(BeforeWait(s, execution, t))
  {
  }

  lemma WaitKeepsShape(s: Sup, main: int, t: Turn)
    requires Shape(s) && !WaitStep(s, main, t).outcome.Failed?
    requires t.wait.Ended() && t.wait.status.pid == main ==> s.status.None?
    ensures Shape(WaitStep(s, main, t))
  {
    if s.outcome.Running? && t.wait.Ended() && t.wait.status.pid == main {
      assert WaitStep(s, main, t).sent == s.sent + [Sent(SIGTERM, AfterExit, t.after)];
    }
  }

  lemma FailureLasts(s: Sup, main: int, execution: Option<nat>, t: Turn)
    requires !Step(s, main, execution, t).outcome.Failed? && s.outcome.Running?
    ensures !BeforeWait(s, execution, t).outcome.Failed?
    ensures BeforeWait(s, execution, t).status == s.status
    ensures BeforeWait(s, execution, t).outcome == Running
  {
  }

  lemma TurnKeepsShape(s: Sup, main: int, execution: Option<nat>, t: Turn)
    requires s.outcome.Running? && Shape(s) && !Step(s, main, execution, t).outcome.Failed?
    requires t.wait.Ended() && t.wait.status.pid == main ==> s.status.None?
    ensures Shape(Step(s, main, execution, t))
  {
    FailureLasts(s, main, execution, t);
    ExpireKeepsShape(s, execution, t);
    WaitKeepsShape(BeforeWait(s, execution, t), main, t);
  }

  lemma {:induction false} RunHasShape(slots: seq<Slot>, main: int, execution: Option<nat>)
    requires main != INIT && Faithful(slots, main, execution)
    requires !State(slots, main, execution).outcome.Failed?
    ensures Shape(State(slots, main, execution))
  {
    if slots == [] {
    } else {
      var front, t := slots[..|slots| - 1], slots[|slots| - 1].turn;
      var s := State(front, main, execution);
      RunHasShape(front, main, execution);
      if s.outcome.Running? {
        FailureLasts(s, main, execution, t);
        MainEndsOnce(slots, main, execution);
        TurnKeepsShape(s, main, execution, t);
      }
    }
  }

  /** The main child's end is reported only while its status is still unknown. */
  lemma MainEndsOnce(slots: seq<Slot>, main: int, execution: Option<nat>)
    requires main != INIT && slots != [] && Faithful(slots, main, execution)
    ensures var s := State(slots[..|slots| - 1], main, execution);
            var t := slots[|slots| - 1].turn;
            ReachesWait(s, execution, t) && t.wait.Ended() && t.wait.status.pid == main ==> s.status.None?
  {
    var front, slot := slots[..|slots| - 1], slots[|slots| - 1];
    var s := State(front, main, execution);
    Conservation(front, main, execution);
    MovesKeepBalance(WorldAfter(front, main, execution), slot.moves, s.reaped, s.status, main);
  }

  /** At some time the application's group was killed with the main child not yet reaped. */
  ghost predicate KilledFirst(slots: seq<Slot>, main: int, execution: Option<nat>) {
    var s := State(slots, main, execution);
    || (s.killed && s.status.None?)
    || (slots != [] && KilledFirst(slots[..|slots| - 1], main, execution))
  }

  /** The order of the last two of three signals: the SIGKILL precedes the SIGTERM for
      the main child's end exactly if the kill came first. */
  ghost predicate OrderTold(s: Sup, killFirst: bool) {
    && (killFirst ==> s.killed && s.timedOut)
    && (s.killed && s.status.Some? && s.timedOut ==>
          |s.sent| == 3 && s.sent[1].reason == if killFirst then AfterGrace else AfterExit)
  }

  lemma TurnTellsOrder(s: Sup, main: int, execution: Option<nat>, t: Turn, killFirst: bool)
    requires s.outcome.Running? && Shape(s) && !Step(s, main, execution, t).outcome.Failed?
    requires t.wait.Ended() && t.wait.status.pid == main ==> s.status.None?
    requires s.killed && s.status.None? ==> killFirst
    requires OrderTold(s, killFirst)
    ensures var s' := Step(s, main, execution, t);
            OrderTold(s', killFirst || (s'.killed && s'.status.None?))
  {
    TurnKeepsShape(s, main, execution, t);
    ExpireEffect(s, execution, t);
  }

  lemma {:induction false} RunTellsOrder(slots: seq<Slot>, main: int, execution: Option<nat>)
    requires main != INIT && Faithful(slots, main, execution)
    requires !State(slots, main, execution).outcome.Failed?
    ensures OrderTold(State(slots, main, execution), KilledFirst(slots, main, execution))
  {
    if slots == [] {
    } else {
      var front, t := slots[..|slots| - 1], slots[|slots| - 1].turn;
      var s := State(front, main, execution);
      RunTellsOrder(front, main, execution);
      RunHasShape(front, main, execution);
      if s.outcome.Running? {
        FailureLasts(s, main, execution, t);
        MainEndsOnce(slots, main, execution);
        TurnTellsOrder(s, main, execution, t, KilledFirst(front, main, execution));
      }
    }
  }

  /** One of five sequences of signals, depending on whether the run timed out, whether
      it had to kill, and whether the kill came before the main child was reaped. */
  ghost predicate OneOfFive(s: Sup, killFirst: bool) {
    var r := Reasons(s.sent);
    && (!s.timedOut && !s.killed <==> r == [AfterExit])
    && (!s.timedOut && s.killed <==> r == [AfterExit, AfterGrace])
    && (s.timedOut && !s.killed <==> r == [AfterTimeout, AfterExit])
    && (s.timedOut && s.killed && !killFirst <==> r == [AfterTimeout, AfterExit, AfterGrace])
    && (killFirst <==> r == [AfterTimeout, AfterGrace, AfterExit])
  }

  /** A SIGKILL comes at least the grace period after the SIGTERM right before it. */
  ghost predicate GraceIsGiven(sent: seq<Sent>) {
    && (forall i | 0 <= i < |sent| :: sent[i].signal == if sent[i].reason.AfterGrace? then 9 else 15)
    && (forall i | 0 <= i < |sent| && sent[i].reason.AfterGrace? ::
          i > 0 && sent[i - 1].signal == 15 && sent[i].at >= sent[i - 1].at + 3000)
  }

  /** A run that returns has sent one of five sequences of signals, and each SIGKILL
      comes at least the grace period after the latest SIGTERM before it. */
  lemma {:induction false} EscalationLanguage(slots: seq<Slot>, main: int, execution: Option<nat>)
    requires main != INIT && Faithful(slots, main, execution)
    requires State(slots, main, execution).outcome.Done?
    ensures OneOfFive(State(slots, main, execution), KilledFirst(slots, main, execution))
    ensures GraceIsGiven(State(slots, main, execution).sent)
  {
    RunHasShape(slots, main, execution);
    RunTellsOrder(slots, main, execution);
    DoneMeansReaped(slots, main, execution);
    ShapeIsOneOfFive(State(slots, main, execution), KilledFirst(slots, main, execution));
  }

  lemma ShapeIsOneOfFive(s: Sup, killFirst: bool)
    requires Shape(s) && OrderTold(s, killFirst) && s.status.Some?
    ensures OneOfFive(s, killFirst) && GraceIsGiven(s.sent)
  {
    var r := Reasons(s.sent);
    if !s.timedOut {
      assert r == if s.killed then [AfterExit, AfterGrace] else [AfterExit];
    } else if !s.killed {
      assert r == [AfterTimeout, AfterExit];
    } else if killFirst {
      assert r == [AfterTimeout, AfterGrace, AfterExit];
    } else {
      assert r == [AfterTimeout, AfterExit, AfterGrace];
    }
  }

  lemma {:induction false} DoneMeansReaped(slots: seq<Slot>, main: int, execution: Option<nat>)
    requires main != INIT && Faithful(slots, main, execution)
    requires State(slots, main, execution).outcome.Done?
    ensures State(slots, main, execution).status.Some?
  {
    var front, t := slots[..|slots| - 1], slots[|slots| - 1].turn;
    var s := State(front, main, execution);
    if s.outcome.Running? {
      OnlyNoChildIsDone(s, main, execution, t);
      NothingLeftBehind(slots, main, execution);
    } else {
      DoneMeansReaped(front, main, execution);
    }
  }

  lemma OnlyNoChildIsDone(s: Sup, main: int, execution: Option<nat>, t: Turn)
    requires s.outcome.Running? && Step(s, main, execution, t).outcome.Done?
    ensures ReachesWait(s, execution, t) && t.wait.NoChild?
  {
  }

  /** The answers of the run were all used, and the last wait's is one of a wait that
      was made: a run that failed before it has no end of the main child to report. */
  ghost predicate Answered(slots: seq<Slot>, main: int, execution: Option<nat>) {
    slots != [] ==>
      var s, t := State(slots[..|slots| - 1], main, execution), slots[|slots| - 1].turn;
      s.outcome.Running? && (ReachesWait(s, execution, t) || !EndsMain(t, main))
  }

  /** Over every evolution of the process tree the end of the main child is reported
      in at most one turn. */
  lemma {:induction false} SomeMainEnd(slots: seq<Slot>, main: int, execution: Option<nat>) returns (end: Option<nat>)
    requires main != INIT && Faithful(slots, main, execution) && Answered(slots, main, execution)
    ensures IsMainEnd(Turns(slots), main, end)
    ensures end.Some? <==> State(slots, main, execution).status.Some?
  {
    if slots == [] {
      return None;
    }
    var n := |slots| - 1;
    var front, t := slots[..n], slots[n].turn;
    AnsweredBefore(slots, main, execution);
    end := SomeMainEnd(front, main, execution);
    MainEndsOnce(slots, main, execution);
    WaitLeavesLog(State(front, main, execution), main, execution, t);
    end := OneMoreEnd(slots, main, end);
  }

  lemma AnsweredBefore(slots: seq<Slot>, main: int, execution: Option<nat>)
    requires slots != [] && Answered(slots, main, execution)
    ensures Answered(slots[..|slots| - 1], main, execution)
  {
    var front := slots[..|slots| - 1];
    if front != [] {
      var before := State(front[..|front| - 1], main, execution);
      EarlierStatesRun(slots, main, execution);
      FailureLasts(before, main, execution, front[|front| - 1].turn);
    }
  }

  /** There are three turns that determine the run: the end of the main child, the first
      expiry before that, the first overdue poll.  The flags, the status, the deadline
      and the signals are those of these turns; the run ends exactly at "no child" and
      fails exactly if its last turn gives it a reason to. */
  ghost predicate Told(s: Sup, turns: seq<Turn>, main: int, execution: Option<nat>,
                       end: Option<nat>, expiry: Option<nat>, kill: Option<nat>) {
    && IsMainEnd(turns, main, end) && IsExpiry(turns, execution, end, expiry) && IsKillTurn(turns, end, expiry, kill)
    && FaultOf(s.outcome) == (if turns == [] then None else LastFault(turns, end, expiry, kill))
    && (!s.outcome.Failed? ==>
          && Tells(s, BaseOf(turns, expiry), EndOf(turns, end), AfterOf(turns, kill),
                   kill.Some? && (end.None? || kill.value < end.value))
          && (s.outcome.Done? <==> turns != [] && turns[|turns| - 1].wait.NoChild?))
  }

  lemma AnsweredRunIsTold(slots: seq<Slot>, main: int, execution: Option<nat>)
    returns (end: Option<nat>, expiry: Option<nat>, kill: Option<nat>)
    requires main != INIT && Faithful(slots, main, execution) && Answered(slots, main, execution)
    ensures Told(State(slots, main, execution), Turns(slots), main, execution, end, expiry, kill)
  {
    var turns := Turns(slots);
    end := SomeMainEnd(slots, main, execution);
    expiry, kill := SomeDecisiveTurns(turns, main, execution, end);
    TurnsAreUsed(slots, main, execution);
    StateIsRun(slots, main, execution);
    if turns != [] {
      FailsExactly(turns, main, execution, end, expiry, kill);
    }
    if !State(slots, main, execution).outcome.Failed? {
      SignalsExactly(turns, main, execution, end, expiry, kill);
    }
  }

  /** The part of `slots` that the run used.  If it failed before its last wait, that
      wait was not made, and whatever answer stood ready for it is left out. */
  function UsedSlots(slots: seq<Slot>, main: int, execution: Option<nat>): seq<Slot> {
    if slots == [] then []
    else
      var front, slot := slots[..|slots| - 1], slots[|slots| - 1];
      var s := State(front, main, execution);
      if !s.outcome.Running? then UsedSlots(front, main, execution)
      else if ReachesWait(s, execution, slot.turn) then slots
      else front + [slot.(turn := slot.turn.(wait := Interrupted))]
  }

  lemma UnmadeWaitIsIrrelevant(s: Sup, main: int, execution: Option<nat>, t: Turn)
    requires s.outcome.Running? && !ReachesWait(s, execution, t)
    ensures !ReachesWait(s, execution, t.(wait := Interrupted))
    ensures Step(s, main, execution, t.(wait := Interrupted)) == Step(s, main, execution, t)
  {
  }

  lemma {:induction false} UsedSlotsTellAll(slots: seq<Slot>, main: int, execution: Option<nat>)
    requires Faithful(slots, main, execution)
    ensures var used := UsedSlots(slots, main, execution);
      && Faithful(used, main, execution) && Answered(used, main, execution)
      && State(used, main, execution) == State(slots, main, execution)
  {
    if slots == [] {
    } else {
      var front, slot := slots[..|slots| - 1], slots[|slots| - 1];
      var s := State(front, main, execution);
      if !s.outcome.Running? {
        UsedSlotsTellAll(front, main, execution);
      } else if !ReachesWait(s, execution, slot.turn) {
        UnmadeWaitIsIrrelevant(s, main, execution, slot.turn);
        assert UsedSlots(slots, main, execution)[..|slots| - 1] == front;
      }
    }
  }

  /** Every run over every evolution of the process tree is determined by three turns of
      the answers it used. */
  lemma EveryRunIsTold(slots: seq<Slot>, main: int, execution: Option<nat>)
    returns (end: Option<nat>, expiry: Option<nat>, kill: Option<nat>)
    requires main != INIT && Faithful(slots, main, execution)
    ensures Told(State(slots, main, execution), Turns(UsedSlots(slots, main, execution)), main, execution,
                 end, expiry, kill)
  {
    UsedSlotsTellAll(slots, main, execution);
    end, expiry, kill := AnsweredRunIsTold(UsedSlots(slots, main, execution), main, execution);
  }

  lemma TurnsAreUsed(slots: seq<Slot>, main: int, execution: Option<nat>)
    requires Answered(slots, main, execution)
    ensures Used(Turns(slots), main, execution)
  {
    if slots != [] {
      var front := slots[..|slots| - 1];
      StateIsRun(front, main, execution);
      assert Turns(slots)[..|slots| - 1] == Turns(front);
    }
  }

  lemma OneMoreEnd(slots: seq<Slot>, main: int, earlier: Option<nat>) returns (end: Option<nat>)
    requires slots != [] && IsMainEnd(Turns(slots[..|slots| - 1]), main, earlier)
    requires EndsMain(slots[|slots| - 1].turn, main) ==> earlier.None?
    ensures IsMainEnd(Turns(slots), main, end)
    ensures end.Some? <==> earlier.Some? || EndsMain(slots[|slots| - 1].turn, main)
  {
    var n := |slots| - 1;
    assert forall j | 0 <= j < n :: Turns(slots)[j] == Turns(slots[..n])[j];
    end := if EndsMain(slots[n].turn, main) then Some(n) else earlier;
  }

  lemma {:induction false} EarlierStatesRun(slots: seq<Slot>, main: int, execution: Option<nat>)
    requires slots != [] && State(slots[..|slots| - 1], main, execution).outcome.Running?
    ensures var front := slots[..|slots| - 1];
            front != [] ==> State(front[..|front| - 1], main, execution).outcome.Running?
  {
    var front := slots[..|slots| - 1];
    if front == [] {
    } else {
      assert State(front, main, execution)
          == Step(State(front[..|front| - 1], main, execution), main, execution, front[|front| - 1].turn);
    }
  }

  // ---------- how long supervision can last ----------

  function TimeAfter(t: Turn): nat {
    t.after + if t.wait.Alive() then POLL_INTERVAL else 0
  }

  function Clock(slots: seq<Slot>, start: nat): nat {
    if slots == [] then start else TimeAfter(slots[|slots| - 1].turn)
  }

  /** The clock never runs backwards, and each poll of live children is followed by
      a sleep of at least the poll interval. */
  ghost predicate ClockFrom(slots: seq<Slot>, start: nat) {
    slots != [] ==>
      var front, t := slots[..|slots| - 1], slots[|slots| - 1].turn;
      ClockFrom(front, start) && Clock(front, start) <= t.check <= t.base <= t.after
  }

  function KillTime(sent: seq<Sent>): nat {
    if sent == [] then 0
    else
      var last := sent[|sent| - 1];
      if last.reason.AfterGrace? then last.at else KillTime(sent[..|sent| - 1])
  }

  /** Descendants stay in the application's process group, so that `patience` ms
      after the SIGKILL to the group every process has ended. */
  ghost predicate KillTakesEffect(slots: seq<Slot>, main: int, execution: Option<nat>, patience: nat) {
    slots != [] ==>
      var front, slot := slots[..|slots| - 1], slots[|slots| - 1];
      var s := State(front, main, execution);
      var w := ApplyAll(WorldAfter(front, main, execution), slot.moves);
      && KillTakesEffect(front, main, execution, patience)
      && (s.killed && KillTime(s.sent) + patience <= slot.turn.base ==> forall p | p in w.table :: !Live(w, p))
  }

  /** Polls that found every child alive. */
  function Polls(slots: seq<Slot>): nat {
    if slots == [] then 0
    else Polls(slots[..|slots| - 1]) + if slots[|slots| - 1].turn.wait.Alive() then 1 else 0
  }

  /** Waits that were interrupted or reported a stop. */
  function Idles(slots: seq<Slot>): nat {
    if slots == [] then 0
    else Idles(slots[..|slots| - 1]) + if slots[|slots| - 1].turn.wait.Idle() then 1 else 0
  }

  /** Milliseconds of polling that are still possible in state `s` at time `now`:
      until the timeout, until the grace period set by it has passed, until the one
      set by the main child's end has passed, and until a SIGKILL has taken effect. */
  function Remaining(s: Sup, execution: Option<nat>, now: nat, patience: nat): nat {
    if s.killed then AtLeastZero(KillTime(s.sent) + patience + POLL_INTERVAL - now)
    else (match s.deadline
          case Some(deadline) => AtLeastZero(deadline + POLL_INTERVAL - now)
          case None => GRACE + POLL_INTERVAL
                       + if execution.None? then 0 else AtLeastZero(execution.value + POLL_INTERVAL - now))
         + (if s.status.None? then GRACE + POLL_INTERVAL else 0)
         + patience + POLL_INTERVAL
  }

  /** The time from which the wait of a turn is counted. */
  function WaitTime(s: Sup, t: Turn): nat {
    if s.deadline.None? then t.check else t.base
  }

  lemma ExpiryUsesNoTime(s: Sup, execution: Option<nat>, t: Turn, now: nat, patience: nat)
    requires s.outcome.Running? && Shape(s) && BeforeWait(s, execution, t).outcome.Running?
    requires now <= t.check <= t.base
    ensures var b := BeforeWait(s, execution, t);
      && Remaining(b, execution, WaitTime(b, t), patience) <= Remaining(s, execution, now, patience)
      && b.killed == s.killed && (s.killed ==> b.sent == s.sent)
      && (b.deadline.None? && execution.Some? ==> t.check < execution.value)
  {
    var b := BeforeWait(s, execution, t);
    ExpireEffect(s, execution, t);
    if b.timedOut == s.timedOut {
      assert b.deadline == s.deadline && b.sent == s.sent && b.status == s.status;
    }
  }

  lemma ExpireEffect(s: Sup, execution: Option<nat>, t: Turn)
    requires s.outcome.Running? && Shape(s) && BeforeWait(s, execution, t).outcome.Running?
    ensures var b := BeforeWait(s, execution, t);
      && b.killed == s.killed && b.status == s.status
      && if b.timedOut == s.timedOut then
           && b.deadline == s.deadline && b.sent == s.sent
           && (s.deadline.None? && execution.Some? ==> t.check < execution.value)
         else s.deadline.None? && !s.killed && s.status.None? && b.deadline == Some(t.base + GRACE)
  {
  }

  lemma WaitUsesUpTime(s: Sup, main: int, execution: Option<nat>, t: Turn, patience: nat)
    requires s.outcome.Running? && !WaitStep(s, main, t).outcome.Failed? && Shape(s)
    requires t.wait.Ended() && t.wait.status.pid == main ==> s.status.None?
    requires t.check <= t.base <= t.after
    requires t.wait.Alive() ==> !Blocking(s, execution)
    requires t.wait.Alive() && s.killed ==> t.base < KillTime(s.sent) + patience
    requires s.deadline.None? && execution.Some? ==> t.check < execution.value
    ensures (if t.wait.Alive() then POLL_INTERVAL else 0)
            + Remaining(WaitStep(s, main, t), execution, TimeAfter(t), patience)
         <= Remaining(s, execution, WaitTime(s, t), patience)
  {
    if t.wait.Ended() && t.wait.status.pid == main {
      assert (s.sent + [Sent(SIGTERM, AfterExit, t.after)])[..|s.sent|] == s.sent;
    }
  }

  lemma TurnUsesUpTime(s: Sup, main: int, execution: Option<nat>, t: Turn, now: nat, patience: nat)
    requires s.outcome.Running? && !Step(s, main, execution, t).outcome.Failed? && Shape(s)
    requires t.wait.Ended() && t.wait.status.pid == main ==> s.status.None?
    requires now <= t.check <= t.base <= t.after
    requires t.wait.Alive() ==> !Blocking(BeforeWait(s, execution, t), execution)
    requires t.wait.Alive() && s.killed ==> t.base < KillTime(s.sent) + patience
    ensures (if t.wait.Alive() then POLL_INTERVAL else 0)
            + Remaining(Step(s, main, execution, t), execution, TimeAfter(t), patience)
         <= Remaining(s, execution, now, patience)
  {
    FailureLasts(s, main, execution, t);
    var b := BeforeWait(s, execution, t);
    ExpireKeepsShape(s, execution, t);
    ExpiryUsesNoTime(s, execution, t, now, patience);
    WaitUsesUpTime(b, main, execution, t, patience);
  }

  /** When every process has ended no poll can find all children alive. */
  lemma NoPollAmongTheDead(w: World, a: WaitAnswer, blocking: bool)
    requires CanAnswer(w, a, blocking) && forall p | p in w.table :: !Live(w, p)
    ensures !a.Alive()
  {
    if a.Alive() {
      forall p
        ensures p !in ChildrenOf(w, INIT)
      {
        assert p in ChildrenOf(w, INIT) ==> p in w.table;
      }
    }
  }

  lemma {:induction false} PollingUsesUpTime(
      slots: seq<Slot>, main: int, start: nat, execution: Option<nat>, patience: nat)
    requires main != INIT && Faithful(slots, main, execution) && ClockFrom(slots, start)
    requires State(slots, main, execution).outcome.Running?
    requires KillTakesEffect(slots, main, execution, patience)
    ensures POLL_INTERVAL * Polls(slots)
            + Remaining(State(slots, main, execution), execution, Clock(slots, start), patience)
         <= Remaining(INITIAL, execution, start, patience)
  {
    if slots == [] {
    } else {
      var front, slot := slots[..|slots| - 1], slots[|slots| - 1];
      var s, t := State(front, main, execution), slot.turn;
      PollingUsesUpTime(front, main, start, execution, patience);
      RunHasShape(front, main, execution);
      FailureLasts(s, main, execution, t);
      MainEndsOnce(slots, main, execution);
      if t.wait.Alive() && s.killed && KillTime(s.sent) + patience <= t.base {
        NoPollAmongTheDead(ApplyAll(WorldAfter(front, main, execution), slot.moves), t.wait,
                           Blocking(BeforeWait(s, execution, t), execution));
      }
      TurnUsesUpTime(s, main, execution, t, Clock(front, start), patience);
    }
  }

  lemma {:induction false} EveryTurnCounts(slots: seq<Slot>, main: int, execution: Option<nat>)
    requires State(slots, main, execution).outcome.Running?
    ensures |slots| == Polls(slots) + |State(slots, main, execution).reaped| + Idles(slots)
  {
    if slots == [] {
    } else {
      var front, t := slots[..|slots| - 1], slots[|slots| - 1].turn;
      EveryTurnCounts(front, main, execution);
      TurnIsOneOfThree(State(front, main, execution), main, execution, t);
    }
  }

  lemma TurnIsOneOfThree(s: Sup, main: int, execution: Option<nat>, t: Turn)
    requires s.outcome.Running? && Step(s, main, execution, t).outcome.Running?
    ensures t.wait.Alive() || t.wait.Ended() || t.wait.Idle()
    ensures |Step(s, main, execution, t).reaped| == |s.reaped| + if t.wait.Ended() then 1 else 0
  {
    WaitLeavesLog(s, main, execution, t);
  }

  lemma {:induction false} NoDuplicatesSize(s: seq<int>, all: set<int>)
    requires NoDuplicates(s) && forall p | p in s :: p in all
    ensures |s| <= |all|
    decreases |s|
  {
    if s == [] {
    } else {
      var last := s[|s| - 1];
      NoDuplicatesSize(s[..|s| - 1], all - {last});
    }
  }

  /** Only so many polls fit into a run that is still going: those of the timeout, of
      two grace periods and of the time a SIGKILL takes.  Without a timeout the first
      part is nothing, because the wait blocks instead of polling. */
  lemma PollsAreBounded(slots: seq<Slot>, main: int, start: nat, timeoutSeconds: Option<nat>, patience: nat)
    requires var execution := ExecutionDeadline(start, timeoutSeconds);
      && main != INIT && Faithful(slots, main, execution) && ClockFrom(slots, start)
      && State(slots, main, execution).outcome.Running?
      && KillTakesEffect(slots, main, execution, patience)
    ensures 5 * Polls(slots)
         <= (if timeoutSeconds.None? then 0 else 1000 * timeoutSeconds.value + 5) + 6000 + patience + 15
  {
    PollingUsesUpTime(slots, main, start, ExecutionDeadline(start, timeoutSeconds), patience);
  }

  /** The most polls of a run that is still going. */
  function MostPolls(timeoutSeconds: Option<nat>, patience: nat): nat {
    (if timeoutSeconds.None? then 0 else 200 * timeoutSeconds.value + 1) + 1200 + patience / 5 + 3
  }

  /** Supervision ends if the application stops producing processes and the waits are
      not interrupted forever.  A run that is still going has made exactly one turn for
      each process it reaped, each idle wait and each poll, and the polls are bounded;
      so if at most `adoptions` processes become children of PID 1 and at most `idles`
      waits are idle, it has made at most that many turns and polls.  The bound on
      adoptions cannot be left out: see `KillCanBeStarved`. */
  lemma SupervisionEnds(slots: seq<Slot>, main: int, start: nat, timeoutSeconds: Option<nat>, patience: nat,
                        adoptions: nat, idles: nat)
    requires var execution := ExecutionDeadline(start, timeoutSeconds);
      && main != INIT && Faithful(slots, main, execution) && ClockFrom(slots, start)
      && State(slots, main, execution).outcome.Running?
      && KillTakesEffect(slots, main, execution, patience)
      && |WorldAfter(slots, main, execution).adopted| <= adoptions && Idles(slots) <= idles
    ensures var execution := ExecutionDeadline(start, timeoutSeconds);
            var reaped := |State(slots, main, execution).reaped|;
      && reaped + Idles(slots) <= |slots| <= reaped + Idles(slots) + MostPolls(timeoutSeconds, patience)
      && |slots| <= adoptions + idles + MostPolls(timeoutSeconds, patience)
  {
    var execution := ExecutionDeadline(start, timeoutSeconds);
    PollsAreBounded(slots, main, start, timeoutSeconds, patience);
    EveryTurnCounts(slots, main, execution);
    Conservation(slots, main, execution);
    NoDuplicatesSize(State(slots, main, execution).reaped, WorldAfter(slots, main, execution).adopted);
  }

  // ---------- from the deadline to the SIGKILL, and after it ----------

  lemma {:induction false} ShorterRuns(slots: seq<Slot>, main: int, start: nat, execution: Option<nat>, d: nat)
    requires d <= |slots| && State(slots, main, execution).outcome.Running?
    requires Faithful(slots, main, execution) && ClockFrom(slots, start)
    ensures State(slots[..d], main, execution).outcome.Running?
    ensures Faithful(slots[..d], main, execution) && ClockFrom(slots[..d], start)
    decreases |slots|
  {
    if d < |slots| {
      var front := slots[..|slots| - 1];
      assert front[..d] == slots[..d];
      ShorterRuns(front, main, start, execution, d);
    } else {
      assert slots[..d] == slots;
    }
  }

  lemma {:induction false} DeadlineGrows(slots: seq<Slot>, main: int, start: nat, execution: Option<nat>, d: nat)
    requires d <= |slots| && main != INIT && State(slots, main, execution).outcome.Running?
    requires Faithful(slots, main, execution) && ClockFrom(slots, start)
    ensures var early, late := State(slots[..d], main, execution).deadline, State(slots, main, execution).deadline;
      && (early.Some? ==> late.Some? && early.value <= late.value)
      && Clock(slots[..d], start) <= Clock(slots, start)
    decreases |slots|
  {
    if d < |slots| {
      var front := slots[..|slots| - 1];
      assert front[..d] == slots[..d];
      ShorterRuns(slots, main, start, execution, |front|);
      DeadlineGrows(front, main, start, execution, d);
      DeadlineOnlyMovesOut(slots, main, start, execution);
    } else {
      assert slots[..d] == slots;
    }
  }

  /** A poll past the deadline in force sends the SIGKILL. */
  lemma OverduePollKills(s: Sup, main: int, execution: Option<nat>, t: Turn)
    requires Shape(s) && s.outcome.Running? && Step(s, main, execution, t).outcome.Running?
    requires s.deadline.Some? && s.deadline.value <= t.after && t.wait.Alive()
    ensures Step(s, main, execution, t).killed
  {
    FailureLasts(s, main, execution, t);
    ExpireEffect(s, execution, t);
  }

  lemma KillLasts(s: Sup, main: int, execution: Option<nat>, t: Turn)
    ensures s.killed ==> Step(s, main, execution, t).killed
  {
  }

  lemma KilledBefore(slots: seq<Slot>, main: int, execution: Option<nat>)
    requires slots != []
    ensures State(slots[..|slots| - 1], main, execution).killed ==> State(slots, main, execution).killed
  {
    KillLasts(State(slots[..|slots| - 1], main, execution), main, execution, slots[|slots| - 1].turn);
  }

  /** The deadline one turn earlier lies between the one at `d` and the one now. */
  lemma DeadlineBetween(slots: seq<Slot>, main: int, start: nat, execution: Option<nat>, d: nat)
    requires d < |slots| && main != INIT && State(slots, main, execution).outcome.Running?
    requires Faithful(slots, main, execution) && ClockFrom(slots, start)
    requires State(slots[..d], main, execution).deadline.Some?
    ensures var early, before, late := State(slots[..d], main, execution).deadline,
              State(slots[..|slots| - 1], main, execution).deadline, State(slots, main, execution).deadline;
            before.Some? && late.Some? && early.value <= before.value <= late.value
    ensures Clock(slots[..d], start) <= slots[|slots| - 1].turn.after
  {
    var front := slots[..|slots| - 1];
    ShorterRuns(slots, main, start, execution, |front|);
    assert front[..d] == slots[..d];
    DeadlineGrows(front, main, start, execution, d);
    DeadlineOnlyMovesOut(slots, main, start, execution);
  }

  /** The run goes on without a SIGKILL, past the deadline in force. */
  ghost predicate Waiting(s: Sup, deadline: nat, now: nat) {
    s.outcome.Running? && !s.killed && s.deadline == Some(deadline) && deadline <= now
  }

  lemma WaitingBefore(slots: seq<Slot>, main: int, start: nat, execution: Option<nat>, d: nat, deadline: nat)
    requires d < |slots| && main != INIT && Faithful(slots, main, execution) && ClockFrom(slots, start)
    requires Waiting(State(slots[..d], main, execution), deadline, Clock(slots[..d], start))
    requires Waiting(State(slots, main, execution), deadline, Clock(slots, start))
    ensures var front := slots[..|slots| - 1];
            Waiting(State(front, main, execution), deadline, Clock(front, start))
    ensures deadline <= slots[|slots| - 1].turn.after
  {
    var front := slots[..|slots| - 1];
    assert front[..d] == slots[..d];
    ShorterRuns(slots, main, start, execution, |front|);
    DeadlineGrows(front, main, start, execution, d);
    DeadlineBetween(slots, main, start, execution, d);
    KilledBefore(slots, main, execution);
  }

  lemma WaitingDoesNotPoll(slots: seq<Slot>, main: int, execution: Option<nat>, deadline: nat)
    requires slots != [] && main != INIT && Faithful(slots, main, execution)
    requires State(slots, main, execution).outcome.Running? && !State(slots, main, execution).killed
    requires State(slots[..|slots| - 1], main, execution).outcome.Running?
    requires State(slots[..|slots| - 1], main, execution).deadline == Some(deadline)
    requires deadline <= slots[|slots| - 1].turn.after
    ensures !slots[|slots| - 1].turn.wait.Alive()
  {
    var front, t := slots[..|slots| - 1], slots[|slots| - 1].turn;
    RunHasShape(front, main, execution);
    if t.wait.Alive() {
      OverduePollKills(State(front, main, execution), main, execution, t);
    }
  }

  lemma {:induction false} NoPollsSince(
      slots: seq<Slot>, main: int, start: nat, execution: Option<nat>, d: nat, deadline: nat)
    requires d <= |slots| && main != INIT && Faithful(slots, main, execution) && ClockFrom(slots, start)
    requires Waiting(State(slots[..d], main, execution), deadline, Clock(slots[..d], start))
    requires Waiting(State(slots, main, execution), deadline, Clock(slots, start))
    ensures Polls(slots) == Polls(slots[..d])
    decreases |slots|
  {
    if d < |slots| {
      var front := slots[..|slots| - 1];
      assert front[..d] == slots[..d];
      ShorterRuns(slots, main, start, execution, |front|);
      WaitingBefore(slots, main, start, execution, d, deadline);
      NoPollsSince(front, main, start, execution, d, deadline);
      WaitingDoesNotPoll(slots, main, execution, deadline);
    } else {
      assert slots[..d] == slots;
    }
  }

  /** Without a poll no SIGKILL is sent. */
  lemma {:induction false} NoKillWithoutPoll(slots: seq<Slot>, main: int, execution: Option<nat>, d: nat)
    requires d <= |slots| && State(slots, main, execution).outcome.Running?
    requires Polls(slots) == Polls(slots[..d])
    ensures State(slots, main, execution).killed ==> State(slots[..d], main, execution).killed
    decreases |slots|
  {
    if d == |slots| {
      assert slots[..d] == slots;
    } else {
      var front, t := slots[..|slots| - 1], slots[|slots| - 1].turn;
      assert front[..d] == slots[..d];
      PollsGrow(front, d);
      StepKillsByPoll(State(front, main, execution), main, execution, t);
      NoKillWithoutPoll(front, main, execution, d);
    }
  }

  lemma StepKillsByPoll(s: Sup, main: int, execution: Option<nat>, t: Turn)
    requires Step(s, main, execution, t).outcome.Running?
    ensures s.outcome.Running?
    ensures Step(s, main, execution, t).killed ==> s.killed || t.wait.Alive()
  {
  }

  lemma {:induction false} PollsGrow(slots: seq<Slot>, d: nat)
    requires d <= |slots|
    ensures Polls(slots[..d]) <= Polls(slots)
    decreases |slots|
  {
    if d == |slots| {
      assert slots[..d] == slots;
    } else {
      assert slots[..|slots| - 1][..d] == slots[..d];
      PollsGrow(slots[..|slots| - 1], d);
    }
  }

  /** From when the deadline in force has passed, the supervisor goes on without a SIGKILL
      exactly as long as each wait reaps a process or is idle.  So the SIGKILL, the end
      of the run, or a new deadline for the main child's end follows within one turn
      for each child there is, for each that is adopted from then on, and for each
      idle wait. */
  lemma KillFollowsDeadline(
      slots: seq<Slot>, main: int, start: nat, execution: Option<nat>, d: nat, deadline: nat)
    requires d <= |slots| && main != INIT && Faithful(slots, main, execution) && ClockFrom(slots, start)
    requires Waiting(State(slots[..d], main, execution), deadline, Clock(slots[..d], start))
    requires State(slots, main, execution).outcome.Running?
    requires State(slots, main, execution).deadline == Some(deadline)
    ensures var early, late := State(slots[..d], main, execution), State(slots, main, execution);
            var reaped, idles := |late.reaped| - |early.reaped|, Idles(slots) - Idles(slots[..d]);
            var now, later := WorldAfter(slots[..d], main, execution), WorldAfter(slots, main, execution);
      && (!late.killed <==> |slots| - d == reaped + idles)
      && (!late.killed ==>
            |slots| - d <= |ChildrenOf(now, INIT)| + (|later.adopted| - |now.adopted|) + idles)
  {
    ShorterRuns(slots, main, start, execution, d);
    EveryTurnCounts(slots, main, execution);
    EveryTurnCounts(slots[..d], main, execution);
    ReapedAndLeft(slots[..d], main, execution);
    ReapedAndLeft(slots, main, execution);
    if State(slots, main, execution).killed {
      if Polls(slots) == Polls(slots[..d]) {
        NoKillWithoutPoll(slots, main, execution, d);
      }
    } else {
      DeadlineGrows(slots, main, start, execution, d);
      NoPollsSince(slots, main, start, execution, d, deadline);
    }
  }

  /** What was adopted is reaped or still a child, in numbers. */
  lemma ReapedAndLeft(slots: seq<Slot>, main: int, execution: Option<nat>)
    requires main != INIT && Faithful(slots, main, execution)
    ensures var w := WorldAfter(slots, main, execution);
            |w.adopted| == |State(slots, main, execution).reaped| + |ChildrenOf(w, INIT)|
  {
    var reaped, w := State(slots, main, execution).reaped, WorldAfter(slots, main, execution);
    Conservation(slots, main, execution);
    var gone := set p | p in reaped;
    DistinctSize(reaped, gone);
    assert forall p :: p in w.adopted <==> p in reaped || p in ChildrenOf(w, INIT);
    assert w.adopted == gone + ChildrenOf(w, INIT);
    assert gone !! ChildrenOf(w, INIT);
  }

  lemma {:induction false} DistinctSize(s: seq<int>, all: set<int>)
    requires NoDuplicates(s) && forall p :: p in s <==> p in all
    ensures |s| == |all|
    decreases |s|
  {
    if s == [] {
      assert forall p | p in all :: p in s;
    } else {
      var n := |s| - 1;
      assert forall p :: p in s[..n] <==> p in all - {s[n]};
      DistinctSize(s[..n], all - {s[n]});
    }
  }

  ghost predicate AllDead(w: World) {
    forall p | p in w.table :: !Live(w, p)
  }

  /** Where every process has ended nothing happens any more. */
  lemma {:induction false} TheDeadRest(w: World, moves: seq<Move>)
    requires AllDead(w)
    ensures ApplyAll(w, moves) == w
    decreases |moves|
  {
    if moves == [] {
    } else {
      assert !Possible(w, moves[0]);
      TheDeadRest(w, moves[1..]);
    }
  }

  lemma {:induction false} DeathIsFinal(slots: seq<Slot>, main: int, execution: Option<nat>, d: nat)
    requires d <= |slots| && AllDead(WorldAfter(slots[..d], main, execution))
    ensures AllDead(WorldAfter(slots, main, execution))
    ensures WorldAfter(slots, main, execution).adopted == WorldAfter(slots[..d], main, execution).adopted
    decreases |slots|
  {
    if d < |slots| {
      var front, slot := slots[..|slots| - 1], slots[|slots| - 1];
      assert front[..d] == slots[..d];
      DeathIsFinal(front, main, execution, d);
      TheDeadRest(WorldAfter(front, main, execution), slot.moves);
    } else {
      assert slots[..d] == slots;
    }
  }

  lemma {:induction false} NoPollsAfterDeath(slots: seq<Slot>, main: int, start: nat, execution: Option<nat>, d: nat)
    requires d <= |slots| && AllDead(WorldAfter(slots[..d], main, execution))
    requires State(slots, main, execution).outcome.Running?
    requires Faithful(slots, main, execution) && ClockFrom(slots, start)
    ensures Polls(slots) == Polls(slots[..d])
    decreases |slots|
  {
    if d < |slots| {
      var front, slot := slots[..|slots| - 1], slots[|slots| - 1];
      var s := State(front, main, execution);
      assert front[..d] == slots[..d];
      ShorterRuns(slots, main, start, execution, |front|);
      NoPollsAfterDeath(front, main, start, execution, d);
      DeathIsFinal(front, main, execution, d);
      TheDeadRest(WorldAfter(front, main, execution), slot.moves);
      FailureLasts(s, main, execution, slot.turn);
      NoPollAmongTheDead(WorldAfter(front, main, execution), slot.turn.wait,
                         Blocking(BeforeWait(s, execution, slot.turn), execution));
    } else {
      assert slots[..d] == slots;
    }
  }

  /** Once a SIGKILL has taken effect supervision ends without any further condition but
      on idle waits: nothing more is adopted, and every turn reaps one of the children
      that are left. */
  lemma KillEndsSupervision(slots: seq<Slot>, main: int, start: nat, execution: Option<nat>, d: nat)
    requires d <= |slots| && main != INIT && State(slots, main, execution).outcome.Running?
    requires Faithful(slots, main, execution) && ClockFrom(slots, start)
    requires AllDead(WorldAfter(slots[..d], main, execution))
    ensures WorldAfter(slots, main, execution).adopted == WorldAfter(slots[..d], main, execution).adopted
    ensures |slots| - d
         <= |ChildrenOf(WorldAfter(slots[..d], main, execution), INIT)| + Idles(slots) - Idles(slots[..d])
  {
    ShorterRuns(slots, main, start, execution, d);
    DeathIsFinal(slots, main, execution, d);
    NoPollsAfterDeath(slots, main, start, execution, d);
    EveryTurnCounts(slots, main, execution);
    EveryTurnCounts(slots[..d], main, execution);
    ReapedAndLeft(slots[..d], main, execution);
    ReapedAndLeft(slots, main, execution);
  }

  // ---------- the grace deadline ----------

  function Terms(sent: seq<Sent>): nat {
    if sent == [] then 0
    else Terms(sent[..|sent| - 1]) + if sent[|sent| - 1].signal == SIGTERM then 1 else 0
  }

  function IsTermCount(x: Sent): nat {
    if x.signal == SIGTERM then 1 else 0
  }

  lemma TermsOfThree(a: Sent, b: Sent, c: Sent)
    ensures Terms([]) == 0 && Terms([a]) == IsTermCount(a)
    ensures Terms([a, b]) == IsTermCount(a) + IsTermCount(b)
    ensures Terms([a, b, c]) == IsTermCount(a) + IsTermCount(b) + IsTermCount(c)
  {
    assert [a][..0] == [] && [a, b][..1] == [a] && [a, b, c][..2] == [a, b];
  }

  lemma TermsOfShape(s: Sup)
    requires Shape(s)
    ensures Terms(s.sent) == (if s.timedOut then 1 else 0) + (if s.status.Some? then 1 else 0)
  {
    var x := s.sent;
    if |x| == 1 {
      TermsOfThree(x[0], x[0], x[0]);
      assert x == [x[0]];
    } else if |x| == 2 {
      TermsOfThree(x[0], x[1], x[1]);
      assert x == [x[0], x[1]];
    } else if |x| == 3 {
      TermsOfThree(x[0], x[1], x[2]);
      assert x == [x[0], x[1], x[2]];
    }
  }

  lemma DeadlineStep(s: Sup, main: int, execution: Option<nat>, t: Turn, now: nat)
    requires s.outcome.Running? && !Step(s, main, execution, t).outcome.Failed?
    requires s.deadline.Some? ==> s.deadline.value <= now + GRACE
    requires t.wait.Ended() && t.wait.status.pid == main ==> s.status.None?
    requires now <= t.check <= t.base <= t.after
    ensures var s' := Step(s, main, execution, t);
      && (s.deadline.Some? ==> s'.deadline.Some? && s.deadline.value <= s'.deadline.value)
      && (s'.deadline.Some? ==> s'.deadline.value <= t.after + GRACE)
      && (s.timedOut ==> s'.timedOut) && (s.status.Some? ==> s'.status.Some?)
      && (s.deadline != s'.deadline ==> s.timedOut != s'.timedOut || s.status.Some? != s'.status.Some?)
  {
  }

  /** The grace deadline is set by a SIGTERM and by nothing else, at most twice in a
      run, and a later setting never brings it forward. */
  lemma {:induction false} DeadlineOnlyMovesOut(slots: seq<Slot>, main: int, start: nat, execution: Option<nat>)
    requires main != INIT && slots != [] && Faithful(slots, main, execution) && ClockFrom(slots, start)
    requires !State(slots, main, execution).outcome.Failed?
    ensures var before, after := State(slots[..|slots| - 1], main, execution), State(slots, main, execution);
      && Terms(after.sent) <= 2
      && (before.deadline != after.deadline ==> Terms(before.sent) < Terms(after.sent))
      && (before.deadline.Some? ==> after.deadline.Some? && before.deadline.value <= after.deadline.value)
      && (after.deadline.Some? ==> after.deadline.value <= Clock(slots, start) + GRACE)
  {
    var front, t := slots[..|slots| - 1], slots[|slots| - 1].turn;
    var s := State(front, main, execution);
    RunHasShape(front, main, execution);
    RunHasShape(slots, main, execution);
    TermsOfShape(s);
    TermsOfShape(State(slots, main, execution));
    if front == [] {
    } else {
      DeadlineOnlyMovesOut(front, main, start, execution);
    }
    if s.outcome.Running? {
      FailureLasts(s, main, execution, t);
      MainEndsOnce(slots, main, execution);
      DeadlineStep(s, main, execution, t, Clock(front, start));
    }
  }

  // ---------- a SIGTERM after the SIGKILL ----------

  function PlainSlot(moves: seq<Move>, now: nat, wait: WaitAnswer): Slot {
    Slot(moves, Turn([], Delivered, now, Delivered, now, wait, Delivered, now, Delivered))
  }

  lemma OneMoreSlot(slots: seq<Slot>, slot: Slot, main: int, execution: Option<nat>)
    requires Faithful(slots, main, execution) && execution.Some?
    requires CanAnswer(ApplyAll(WorldAfter(slots, main, execution), slot.moves), slot.turn.wait, false)
    ensures var s, w := State(slots, main, execution), ApplyAll(WorldAfter(slots, main, execution), slot.moves);
      && Faithful(slots + [slot], main, execution)
      && State(slots + [slot], main, execution) == Step(s, main, execution, slot.turn)
      && WorldAfter(slots + [slot], main, execution)
         == (if ReachesWait(s, execution, slot.turn) then AfterAnswer(w, slot.turn.wait) else w)
  {
    assert (slots + [slot])[..|slots + [slot]| - 1] == slots;
  }

  lemma MainAlone(main: int)
    ensures ChildrenOf(Initial(main), INIT) == {main}
  {
  }

  /** The main child outlives its timeout and its grace. */
  lemma {:induction false} MainIsKilled() returns (slots: seq<Slot>)
    ensures Faithful(slots, 2, Some(10)) && WorldAfter(slots, 2, Some(10)) == Initial(2)
    ensures var s := State(slots, 2, Some(10));
            s.outcome.Running? && s.timedOut && s.killed && s.status.None?
            && Reasons(s.sent) == [AfterTimeout, AfterGrace]
  {
    var e := Some(10);
    MainAlone(2);
    var polled := PlainSlot([], 10, Status(StillAlive));
    OneMoreSlot([], polled, 2, e);
    slots := [] + [polled];
    assert WorldAfter(slots, 2, e) == Initial(2);
    var overdue := PlainSlot([], 5000, Status(StillAlive));
    OneMoreSlot(slots, overdue, 2, e);
    slots := slots + [overdue];
  }

  lemma ReasonsAppend(sent: seq<Sent>, x: Sent)
    ensures Reasons(sent + [x]) == Reasons(sent) + [x.reason]
  {
  }

  /** The supervisor may send SIGTERM even after its SIGKILL: a main child that
      ignores SIGTERM past its grace is killed, and its end is answered with a
      SIGTERM to its group again. */
  lemma {:induction false} TermAfterKillOccurs() returns (slots: seq<Slot>)
    ensures Faithful(slots, 2, Some(10))
    ensures State(slots, 2, Some(10)).outcome == Done(TimedOut)
    ensures Reasons(State(slots, 2, Some(10)).sent) == [AfterTimeout, AfterGrace, AfterExit]
  {
    var e := Some(10);
    var end := Signaled(2, SIGKILL, false);
    slots := MainIsKilled();
    ReasonsAppend(State(slots, 2, e).sent, Sent(SIGTERM, AfterExit, 6000));
    var reaped := PlainSlot([Exit(2, end, INIT)], 6000, Status(end));
    assert ApplyAll(Initial(2), reaped.moves) == Apply(Initial(2), reaped.moves[0]) by {
      assert reaped.moves[1..] == [];
    }
    OneMoreSlot(slots, reaped, 2, e);
    slots := slots + [reaped];
    assert WorldAfter(slots, 2, e).table == map[];
    var done := PlainSlot([], 6000, NoChild);
    OneMoreSlot(slots, done, 2, e);
    slots := slots + [done];
  }

  // ---------- a SIGKILL that never comes ----------

  /** Process 2 forks a child, which forks another and exits; the grandchild goes to
      PID 1 and exits, and PID 1 reaps it. */
  function OrphanMoves(child: int, orphan: int): seq<Move> {
    [Fork(2, child), Fork(child, orphan), Exit(child, Exited(child, 0), INIT), ReapedBy(2, child),
     Exit(orphan, Exited(orphan, 0), INIT)]
  }

  /** Only process 2 is there, and all pids so far are below `next`. */
  ghost predicate OnlyMain(w: World, next: int) {
    w.table == map[2 := Proc(INIT, None, 0)] && forall p | p in w.used :: p < next
  }

  /** The table with a child of 2 and its child, before the first of them exits. */
  function TwoMore(child: int, orphan: int, born: nat): map<int, Proc> {
    map[2 := Proc(INIT, None, 0), child := Proc(2, None, born), orphan := Proc(child, None, born + 1)]
  }

  lemma TwoForks(w: World, child: int, orphan: int)
    requires OnlyMain(w, child) && 2 < child < orphan
    ensures var f := Apply(Apply(w, Fork(2, child)), Fork(child, orphan));
            f.table == TwoMore(child, orphan, |w.used|) && f.used == w.used + {child, orphan}
  {
    assert |w.used + {child}| == |w.used| + 1;
  }

  lemma ChildIsGone(f: World, child: int, orphan: int, born: nat)
    requires 2 < child < orphan && f.table == TwoMore(child, orphan, born)
    ensures var e := Apply(Apply(f, Exit(child, Exited(child, 0), INIT)), ReapedBy(2, child));
            e.table == map[2 := Proc(INIT, None, 0), orphan := Proc(INIT, None, born + 1)] && e.used == f.used
  {
    var x := Apply(f, Exit(child, Exited(child, 0), INIT));
    assert x.table == map[2 := Proc(INIT, None, 0), child := Proc(2, Some(Exited(child, 0)), born),
                          orphan := Proc(INIT, None, born + 1)];
  }

  lemma OrphanIsReaped(e: World, orphan: int, born: nat)
    requires 2 < orphan && e.table == map[2 := Proc(INIT, None, 0), orphan := Proc(INIT, None, born)]
    requires forall p | p in e.used :: p <= orphan
    ensures var z, a := Apply(e, Exit(orphan, Exited(orphan, 0), INIT)), Status(Exited(orphan, 0));
            CanAnswer(z, a, false) && OnlyMain(AfterAnswer(z, a), orphan + 1)
  {
    var z := Apply(e, Exit(orphan, Exited(orphan, 0), INIT));
    assert z.table == map[2 := Proc(INIT, None, 0), orphan := Proc(INIT, Some(Exited(orphan, 0)), born)];
  }

  lemma OneOrphan(w: World, child: int, orphan: int)
    requires OnlyMain(w, child) && 2 < child < orphan
    ensures var z, a := ApplyAll(w, OrphanMoves(child, orphan)), Status(Exited(orphan, 0));
      CanAnswer(z, a, false) && OnlyMain(AfterAnswer(z, a), orphan + 1)
  {
    var f := Apply(Apply(w, Fork(2, child)), Fork(child, orphan));
    TwoForks(w, child, orphan);
    ChildIsGone(f, child, orphan, |w.used|);
    var e := Apply(Apply(f, Exit(child, Exited(child, 0), INIT)), ReapedBy(2, child));
    OrphanIsReaped(e, orphan, |w.used| + 1);
    FiveMoves(w, OrphanMoves(child, orphan));
  }

  lemma FirstMove(w: World, moves: seq<Move>)
    requires moves != []
    ensures ApplyAll(w, moves) == ApplyAll(Apply(w, moves[0]), moves[1..])
  {
  }

  lemma FiveMoves(w: World, moves: seq<Move>)
    requires |moves| == 5
    ensures ApplyAll(w, moves)
         == Apply(Apply(Apply(Apply(Apply(w, moves[0]), moves[1]), moves[2]), moves[3]), moves[4])
  {
    var w1 := Apply(w, moves[0]);
    var w2 := Apply(w1, moves[1]);
    var w3 := Apply(w2, moves[2]);
    FirstMove(w, moves);
    FirstMove(w1, moves[1..]);
    assert moves[1..][1..] == moves[2..];
    FirstMove(w2, moves[2..]);
    assert moves[2..][1..] == moves[3..];
    FirstMove(w3, moves[3..]);
    assert moves[3..][1..] == moves[4..];
    FirstMove(Apply(w3, moves[3]), moves[4..]);
    assert moves[4..][1..] == [];
  }

  /** Timed out, with nothing more sent than the first SIGTERM. */
  predicate OnlyTimedOut(s: Sup) {
    && s.outcome.Running? && s.status.None? && !s.killed
    && s.timedOut && s.deadline == Some(10 + GRACE)
  }

  /** The time of the `n`-th turn: the first at the timeout of 10 ms, all others long
      after the grace, 50 ms apart. */
  function StarvingTime(n: nat): nat {
    if n == 0 then 0 else if n == 1 then 10 else 100000 + 50 * n
  }

  lemma OrphanSlot(w: World, n: nat) returns (slot: Slot)
    requires n > 0 && OnlyMain(w, 2 * n + 1)
    ensures slot == PlainSlot(slot.moves, StarvingTime(n), Status(Exited(2 * n + 2, 0)))
    ensures var z := ApplyAll(w, slot.moves);
            CanAnswer(z, slot.turn.wait, false) && OnlyMain(AfterAnswer(z, slot.turn.wait), 2 * n + 3)
  {
    OneOrphan(w, 2 * n + 1, 2 * n + 2);
    slot := PlainSlot(OrphanMoves(2 * n + 1, 2 * n + 2), StarvingTime(n), Status(Exited(2 * n + 2, 0)));
  }

  lemma StarvingTurn(s: Sup, slot: Slot, n: nat)
    requires n > 0 && (OnlyTimedOut(s) || (n == 1 && s == INITIAL))
    requires slot == PlainSlot(slot.moves, StarvingTime(n), Status(Exited(2 * n + 2, 0)))
    ensures ReachesWait(s, Some(10), slot.turn)
    ensures OnlyTimedOut(Step(s, 2, Some(10), slot.turn))
  {
  }

  /** A run of `n` turns so far, past its timeout and without a SIGKILL. */
  ghost predicate Starved(slots: seq<Slot>, n: nat, patience: nat) {
    && |slots| == n && Faithful(slots, 2, Some(10)) && ClockFrom(slots, 0)
    && Clock(slots, 0) == StarvingTime(n) && Idles(slots) == 0
    && KillTakesEffect(slots, 2, Some(10), patience)
    && OnlyMain(WorldAfter(slots, 2, Some(10)), 2 * n + 3)
    && if n == 0 then slots == [] else OnlyTimedOut(State(slots, 2, Some(10)))
  }

  lemma OneMoreStarved(front: seq<Slot>, slot: Slot, n: nat, patience: nat)
    requires n > 0 && Starved(front, n - 1, patience)
    requires slot == PlainSlot(slot.moves, StarvingTime(n), Status(Exited(2 * n + 2, 0)))
    requires var z := ApplyAll(WorldAfter(front, 2, Some(10)), slot.moves);
             CanAnswer(z, slot.turn.wait, false) && OnlyMain(AfterAnswer(z, slot.turn.wait), 2 * n + 3)
    ensures Starved(front + [slot], n, patience)
  {
    StarvingTurn(State(front, 2, Some(10)), slot, n);
    OneMoreSlot(front, slot, 2, Some(10));
    assert (front + [slot])[..n - 1] == front;
  }

  /** The SIGKILL can be put off for ever, although the timeout and the grace are long
      over and no process leaves the group: as long as each wait finds an orphan to
      reap, no poll finds all children alive.  This happens for every number of turns,
      whatever is assumed of the effect of a SIGKILL. */
  lemma {:induction false} KillCanBeStarved(n: nat, patience: nat) returns (slots: seq<Slot>)
    ensures Starved(slots, n, patience)
    ensures n > 1 ==>
              var s := State(slots, 2, Some(10));
              && |slots| == n && s.outcome.Running? && !s.killed
              && s.deadline.Some? && Clock(slots, 0) > s.deadline.value + 50 * n
  {
    if n == 0 {
      return [];
    }
    slots := KillCanBeStarved(n - 1, patience);
    var slot := OrphanSlot(WorldAfter(slots, 2, Some(10)), n);
    OneMoreStarved(slots, slot, n, patience);
    slots := slots + [slot];
  }
}
