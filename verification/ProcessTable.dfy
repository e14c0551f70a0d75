/** The processes under PID 1, evolving on their own between two waits of the
    supervisor, and what the supervisor's loop achieves over every such evolution. */
module ProcessTable {
  import opened Kernel
  import opened Supervisor

  // ---------- the environment ----------

  /** A process that has not been reaped.  `ended` is its status while it is a zombie,
      `born` its place in the order of the forks. */
  datatype Proc = Proc(parent: int, ended: Option<WaitStatus>, born: nat)

  /** `used` are the pids ever in use, `adopted` those that have been a child of
      PID 1 at some time, `fates` how each ended process ended. */
  datatype World = World(
    table: map<int, Proc>,
    used: set<int>,
    adopted: set<int>,
    fates: map<int, WaitStatus>)

  const INIT: int := 1

  function Initial(main: int): World {
    World(map[main := Proc(INIT, None, 0)], {INIT, main}, {main}, map[])
  }

  /** What processes other than PID 1 do.  The children of a process that exits go
      to `heir`: PID 1, or an ancestor that acts as a reaper. */
  datatype Move =
    | Fork(parent: int, child: int)
    | Exit(pid: int, status: WaitStatus, heir: int)
    | ReapedBy(parent: int, child: int)

  predicate Live(w: World, pid: int) {
    pid in w.table && w.table[pid].ended.None?
  }

  /** Pids are not reused.  An ancestor is always older, which is all that is asked of a
      reaper; so a process is never adopted by a descendant. */
  predicate Possible(w: World, m: Move) {
    match m
    case Fork(parent, child) => Live(w, parent) && child !in w.used
    case Exit(pid, status, heir) =>
      && Live(w, pid) && status.Terminal() && status.pid == pid
      && (heir == INIT || (Live(w, heir) && w.table[heir].born < w.table[pid].born))
    case ReapedBy(parent, child) =>
      Live(w, parent) && child in w.table && w.table[child].parent == parent && w.table[child].ended.Some?
  }

  function Orphaned(p: Proc, pid: int, heir: int): Proc {
    if p.parent == pid then p.(parent := heir) else p
  }

  function ChildrenOf(w: World, pid: int): set<int> {
    set p | p in w.table && w.table[p].parent == pid
  }

  /** An impossible move leaves the world as it is. */
  function Apply(w: World, m: Move): World {
    if !Possible(w, m) then w
    else match m
      case Fork(parent, child) => w.(table := w.table[child := Proc(parent, None, |w.used|)], used := w.used + {child})
      case Exit(pid, status, heir) =>
        w.(table := map p | p in w.table ::
             if p == pid then w.table[p].(ended := Some(status)) else Orphaned(w.table[p], pid, heir),
           adopted := if heir == INIT then w.adopted + ChildrenOf(w, pid) else w.adopted,
           fates := w.fates[pid := status])
      case ReapedBy(parent, child) => w.(table := w.table - {child})
  }

  function ApplyAll(w: World, moves: seq<Move>): World
    decreases |moves|
  {
    if moves == [] then w else ApplyAll(Apply(w, moves[0]), moves[1..])
  }

  /** What `waitpid(-1)` of PID 1 can answer: a zombie child with its status, that
      there are children but none has ended (unless it blocks), that there is no
      child, or a report or failure that says nothing about ended children. */
  predicate CanAnswer(w: World, a: WaitAnswer, blocking: bool) {
    match a
    case Status(status) =>
      if status.Terminal() then
        status.pid in ChildrenOf(w, INIT) && w.table[status.pid].ended == Some(status)
      else if status.StillAlive? then
        !blocking && ChildrenOf(w, INIT) != {} && forall p | p in ChildrenOf(w, INIT) :: Live(w, p)
      else true
    case Interrupted => true
    case NoChild => ChildrenOf(w, INIT) == {}
    case WaitError => true
  }

  function AfterAnswer(w: World, a: WaitAnswer): World {
    if a.Ended() then w.(table := w.table - {a.status.pid}) else w
  }

  /** One iteration of the loop: everything the other processes do since the
      previous wait, then the answers of this iteration. */
  datatype Slot = Slot(moves: seq<Move>, turn: Turn)

  function State(slots: seq<Slot>, main: int, execution: Option<nat>): Sup {
    if slots == [] then INITIAL
    else Step(State(slots[..|slots| - 1], main, execution), main, execution, slots[|slots| - 1].turn)
  }

  predicate ReachesWait(s: Sup, execution: Option<nat>, t: Turn) {
    s.outcome.Running? && BeforeWait(s, execution, t).outcome.Running?
  }

  function WorldAfter(slots: seq<Slot>, main: int, execution: Option<nat>): World {
    if slots == [] then Initial(main)
    else
      var front, slot := slots[..|slots| - 1], slots[|slots| - 1];
      var w := ApplyAll(WorldAfter(front, main, execution), slot.moves);
      if ReachesWait(State(front, main, execution), execution, slot.turn) then AfterAnswer(w, slot.turn.wait) else w
  }

  /** Every wait of the run is answered according to the process table. */
  ghost predicate Faithful(slots: seq<Slot>, main: int, execution: Option<nat>) {
    slots != [] ==>
      var front, slot := slots[..|slots| - 1], slots[|slots| - 1];
      var s := State(front, main, execution);
      && Faithful(front, main, execution)
      && (ReachesWait(s, execution, slot.turn) ==>
            CanAnswer(ApplyAll(WorldAfter(front, main, execution), slot.moves), slot.turn.wait,
                      Blocking(BeforeWait(s, execution, slot.turn), execution)))
  }

  function Turns(slots: seq<Slot>): seq<Turn> {
    seq(|slots|, i requires 0 <= i < |slots| => slots[i].turn)
  }

  /** `State` is what the supervisor's loop computes from the answers. */
  lemma {:induction false} StateIsRun(slots: seq<Slot>, main: int, execution: Option<nat>)
    ensures State(slots, main, execution) == Run(Turns(slots), main, execution)
  {
    if slots == [] {
    } else {
      var front := slots[..|slots| - 1];
      StateIsRun(front, main, execution);
      assert Turns(slots)[..|slots| - 1] == Turns(front);
    }
  }

  // ---------- conservation ----------

  ghost predicate NoDuplicates(s: seq<int>) {
    forall i, j | 0 <= i < j < |s| :: s[i] != s[j]
  }

  /** A parent is alive and older than its child, so following the parents from any
      process leads to PID 1. */
  predicate HasParent(w: World, p: int)
    requires p in w.table
  {
    var parent := w.table[p].parent;
    Live(w, parent) && w.table[parent].born < w.table[p].born
  }

  ghost predicate TableOk(w: World) {
    && INIT in w.used && INIT !in w.table
    && w.table.Keys <= w.used
    && (forall p | p in w.table :: w.table[p].born < |w.used|)
    && (forall p | p in w.table :: w.table[p].parent == INIT || HasParent(w, p))
    && (forall p | p in w.table && w.table[p].ended.Some? :: p in w.fates && w.fates[p] == w.table[p].ended.value)
  }

  /** The supervisor's log against the table: what has been a child of PID 1 is
      either still one or has been reaped, exactly once. */
  ghost predicate LogOk(w: World, reaped: seq<int>) {
    && NoDuplicates(reaped)
    && (forall p | p in reaped :: p in w.used && p !in w.table)
    && (forall p :: p in w.adopted <==> p in reaped || p in ChildrenOf(w, INIT))
  }

  ghost predicate MainOk(w: World, status: Option<WaitStatus>, main: int) {
    && main != INIT && main in w.used
    && (status.None? <==> main in w.table)
    && (main in w.table ==> w.table[main].parent == INIT)
    && (status.Some? ==> main in w.fates && w.fates[main] == status.value)
  }

  ghost predicate Balanced(w: World, reaped: seq<int>, status: Option<WaitStatus>, main: int) {
    TableOk(w) && LogOk(w, reaped) && MainOk(w, status, main)
  }

  lemma MoveKeepsBalance(w: World, m: Move, reaped: seq<int>, status: Option<WaitStatus>, main: int)
    requires Balanced(w, reaped, status, main)
    ensures Balanced(Apply(w, m), reaped, status, main)
  {
    if Possible(w, m) {
      match m
      case Fork(parent, child) =>
        ForkKeepsTable(w, m);
      case Exit(_, _, _) =>
        ExitKeepsTable(w, m);
        ExitMovesChildren(w, m);
      case ReapedBy(parent, child) =>
        assert ChildrenOf(Apply(w, m), INIT) == ChildrenOf(w, INIT);
        assert forall p | Live(w, p) :: Live(Apply(w, m), p);
    }
  }

  lemma ForkKeepsTable(w: World, m: Move)
    requires TableOk(w) && m.Fork? && Possible(w, m)
    ensures TableOk(Apply(w, m)) && ChildrenOf(Apply(w, m), INIT) == ChildrenOf(w, INIT)
  {
    assert |w.used + {m.child}| == |w.used| + 1;
    assert forall p | Live(w, p) :: Live(Apply(w, m), p);
  }

  lemma ExitKeepsTable(w: World, m: Move)
    requires TableOk(w) && m.Exit? && Possible(w, m)
    ensures TableOk(Apply(w, m))
    ensures forall p | p in w.table :: Live(Apply(w, m), p) <==> Live(w, p) && p != m.pid
  {
  }

  lemma ExitMovesChildren(w: World, m: Move)
    requires TableOk(w) && m.Exit? && Possible(w, m)
    ensures ChildrenOf(Apply(w, m), INIT)
         == ChildrenOf(w, INIT) + if m.heir == INIT then ChildrenOf(w, m.pid) else {}
  {
  }

  lemma {:induction false} MovesKeepBalance(
      w: World, moves: seq<Move>, reaped: seq<int>, status: Option<WaitStatus>, main: int)
    requires Balanced(w, reaped, status, main)
    ensures Balanced(ApplyAll(w, moves), reaped, status, main)
    decreases |moves|
  {
    if moves == [] {
    } else {
      MoveKeepsBalance(w, moves[0], reaped, status, main);
      MovesKeepBalance(Apply(w, moves[0]), moves[1..], reaped, status, main);
    }
  }

  lemma ReapKeepsBalance(w: World, a: WaitAnswer, reaped: seq<int>, status: Option<WaitStatus>, main: int)
    requires Balanced(w, reaped, status, main) && a.Ended() && CanAnswer(w, a, false)
    ensures Balanced(AfterAnswer(w, a), reaped + [a.status.pid],
                     if a.status.pid == main then Some(a.status) else status, main)
  {
    var pid := a.status.pid;
    var w' := AfterAnswer(w, a);
    assert ChildrenOf(w', INIT) == ChildrenOf(w, INIT) - {pid};
    assert forall p | p in w'.table && w.table[p].ended.None? :: Live(w', p);
    assert forall p :: p in reaped + [pid] <==> p in reaped || p == pid;
  }

  /** Over every evolution of the process tree: the main status is unknown exactly
      while the main child is unreaped, every process that became a child of PID 1
      is either still its child or was reaped exactly once, and the main status is
      the status with which the main child really ended. */
  lemma {:induction false} Conservation(slots: seq<Slot>, main: int, execution: Option<nat>)
    requires main != INIT && Faithful(slots, main, execution)
    ensures var s := State(slots, main, execution);
            Balanced(WorldAfter(slots, main, execution), s.reaped, s.status, main)
  {
    if slots == [] {
      assert ChildrenOf(Initial(main), INIT) == {main};
    } else {
      var front, slot := slots[..|slots| - 1], slots[|slots| - 1];
      var s, w := State(front, main, execution), WorldAfter(front, main, execution);
      Conservation(front, main, execution);
      MovesKeepBalance(w, slot.moves, s.reaped, s.status, main);
      TurnKeepsBalance(ApplyAll(w, slot.moves), s, main, execution, slot.turn);
    }
  }

  lemma TurnKeepsBalance(w: World, s: Sup, main: int, execution: Option<nat>, t: Turn)
    requires Balanced(w, s.reaped, s.status, main)
    requires ReachesWait(s, execution, t) ==>
               CanAnswer(w, t.wait, Blocking(BeforeWait(s, execution, t), execution))
    ensures var s' := Step(s, main, execution, t);
            var w' := if ReachesWait(s, execution, t) then AfterAnswer(w, t.wait) else w;
            Balanced(w', s'.reaped, s'.status, main)
  {
    WaitLeavesLog(s, main, execution, t);
    if ReachesWait(s, execution, t) && t.wait.Ended() {
      ReapKeepsBalance(w, t.wait, s.reaped, s.status, main);
    }
  }

  lemma WaitLeavesLog(s: Sup, main: int, execution: Option<nat>, t: Turn)
    ensures var s' := Step(s, main, execution, t);
            if ReachesWait(s, execution, t) && t.wait.Ended() then
              && s'.reaped == s.reaped + [t.wait.status.pid]
              && s'.status == if t.wait.status.pid == main then Some(t.wait.status) else s.status
            else s'.reaped == s.reaped && s'.status == s.status
  {
  }

  /** When the supervisor leaves its loop because no child is left, every process
      that ever became its child has been reaped exactly once, the main child among
      them; so a missing main status is impossible, and the result is the timeout or
      the status with which the main child really ended. */
  lemma NothingLeftBehind(slots: seq<Slot>, main: int, execution: Option<nat>)
    requires main != INIT && slots != [] && Faithful(slots, main, execution)
    requires ReachesWait(State(slots[..|slots| - 1], main, execution), execution, slots[|slots| - 1].turn)
    requires slots[|slots| - 1].turn.wait.NoChild?
    ensures var s, w := State(slots, main, execution), WorldAfter(slots, main, execution);
      && NoDuplicates(s.reaped)
      && (forall p :: p in s.reaped <==> p in w.adopted)
      && main in s.reaped && main in w.fates
      && s.status == Some(w.fates[main])
      && s.outcome == Done(if s.timedOut then TimedOut else Finished(w.fates[main]))
  {
    var front, slot := slots[..|slots| - 1], slots[|slots| - 1];
    var s := State(front, main, execution);
    var w := ApplyAll(WorldAfter(front, main, execution), slot.moves);
    Conservation(front, main, execution);
    MovesKeepBalance(WorldAfter(front, main, execution), slot.moves, s.reaped, s.status, main);
    assert main !in ChildrenOf(w, INIT);
    MainIsAdopted(slots, main, execution);
  }

  lemma AdoptedGrows(w: World, moves: seq<Move>, p: int)
    requires p in w.adopted
    ensures p in ApplyAll(w, moves).adopted
    decreases |moves|
  {
    if moves == [] {
    } else {
      AdoptedGrows(Apply(w, moves[0]), moves[1..], p);
    }
  }

  lemma {:induction false} MainIsAdopted(slots: seq<Slot>, main: int, execution: Option<nat>)
    ensures main in WorldAfter(slots, main, execution).adopted
  {
    if slots == [] {
    } else {
      var front := slots[..|slots| - 1];
      MainIsAdopted(front, main, execution);
      AdoptedGrows(WorldAfter(front, main, execution), slots[|slots| - 1].moves, main);
    }
  }
}
