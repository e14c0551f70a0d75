/** Tearing down the sandbox's cgroup: kill what is left in it, wait until it is
    empty, remove it. */
module Cgroup {
  import opened Kernel
  import opened KeyedFile

  const REMOVAL_GRACE: nat := 3000

  // ---------- the environment ----------

  /** Processes leave the group by ending, and those in it may fork; nothing joins it
      from outside. */
  datatype Move = Leaves(pid: int) | Forks(parent: int, child: int)

  function Evolve(members: set<int>, moves: seq<Move>): set<int> {
    if moves == [] then members
    else
      var before := Evolve(members, moves[..|moves| - 1]);
      match moves[|moves| - 1]
      case Leaves(pid) => before - {pid}
      case Forks(parent, child) => if parent in before then before + {child} else before
  }

  lemma {:induction false} EmptyStaysEmpty(moves: seq<Move>)
    ensures Evolve({}, moves) == {}
  {
    if moves == [] {
    } else {
      EmptyStaysEmpty(moves[..|moves| - 1]);
    }
  }

  /** One look at `cgroup.events`: what happened since the previous look, whether the
      file could be read, and the clock after the look. */
  datatype Look = Look(moves: seq<Move>, readable: bool, now: nat)

  datatype CleanupResult = Clean | CheckFailed | KillFailed | StillPopulated | RemoveFailed(populated: bool) | Unfinished

  /** Everything one cleanup depends on. */
  datatype Script = Script(
    first: Look,
    killAccepted: bool,
    waitStart: nat,
    looks: seq<Look>,
    removeMoves: seq<Move>,
    removeAccepted: bool)

  /** What the kernel writes to `cgroup.events`. */
  function EventsFile(members: set<int>): seq<Row> {
    [Entry("populated", if members == {} then 0 else 1), Entry("frozen", 0)]
  }

  /** The events file says whether the group has members. */
  lemma EventsFileTellsPopulation(members: set<int>)
    ensures PopulatedIn(Lines(Render(EventsFile(members)))) == Some(members != {})
  {
    var rows := EventsFile(members);
    assert rows[0].Valid() && rows[1].Valid();
    PopulatedRoundTrip(rows);
  }

  // ---------- the wait ----------

  datatype WaitResult = Emptied | GaveUp | Unreadable | Pending

  /** The members and the result after the looks so far. */
  function WaitLoop(members: set<int>, looks: seq<Look>, deadline: nat): (set<int>, WaitResult) {
    if looks == [] then (members, Pending)
    else
      var (before, result) := WaitLoop(members, looks[..|looks| - 1], deadline);
      if !result.Pending? then (before, result)
      else
        var look := looks[|looks| - 1];
        var now := Evolve(before, look.moves);
        (now, if !look.readable then Unreadable
              else if now == {} then Emptied
              else if look.now >= deadline then GaveUp
              else Pending)
  }

  /** The looks are at least the sleep interval of 50 ms apart. */
  ghost predicate LooksFrom(looks: seq<Look>, start: nat) {
    looks != [] ==>
      var front, now := looks[..|looks| - 1], looks[|looks| - 1].now;
      LooksFrom(front, start) && now >= start && (front != [] ==> now >= front[|front| - 1].now + 50)
  }

  lemma {:induction false} LookTimes(looks: seq<Look>, start: nat)
    requires LooksFrom(looks, start) && looks != []
    ensures looks[|looks| - 1].now >= start + 50 * (|looks| - 1)
  {
    if |looks| == 1 {
    } else {
      LookTimes(looks[..|looks| - 1], start);
    }
  }

  /** The wait is over after at most 61 looks. */
  lemma {:induction false} WaitEnds(members: set<int>, looks: seq<Look>, start: nat)
    requires LooksFrom(looks, start)
    requires WaitLoop(members, looks, start + REMOVAL_GRACE).1.Pending?
    ensures |looks| <= 60
  {
    if looks == [] {
    } else {
      LookTimes(looks, start);
    }
  }

  /** A wait that reports the group empty has seen it empty, and it gives up only at
      or after the deadline with processes still in the group. */
  lemma {:induction false} WaitVerdictIsTrue(members: set<int>, looks: seq<Look>, deadline: nat)
    ensures var (now, result) := WaitLoop(members, looks, deadline);
      && (result.Emptied? ==> now == {})
      && (result.GaveUp? ==> now != {} && exists i | 0 <= i < |looks| :: looks[i].now >= deadline)
  {
    if looks == [] {
    } else {
      var front := looks[..|looks| - 1];
      WaitVerdictIsTrue(members, front, deadline);
      assert forall i | 0 <= i < |front| :: looks[i] == front[i];
      assert looks[|looks| - 1].now >= deadline || !WaitLoop(members, looks, deadline).1.GaveUp?
          || !WaitLoop(members, front, deadline).1.Pending?;
    }
  }

  /** The members after the looks so far, if the wait goes on that long. */
  function MembersAfter(members: set<int>, looks: seq<Look>): set<int> {
    if looks == [] then members
    else Evolve(MembersAfter(members, looks[..|looks| - 1]), looks[|looks| - 1].moves)
  }

  /** The look that decides the wait: the first that cannot be made, finds the group
      empty, or comes at or after the deadline. */
  ghost predicate Decides(members: set<int>, looks: seq<Look>, deadline: nat, i: nat) {
    i < |looks| && (!looks[i].readable || MembersAfter(members, looks[..i + 1]) == {} || looks[i].now >= deadline)
  }

  ghost predicate IsFirstDecisive(members: set<int>, looks: seq<Look>, deadline: nat, first: Option<nat>) {
    match first
    case None => forall i: nat :: !Decides(members, looks, deadline, i)
    case Some(k) => Decides(members, looks, deadline, k)
                    && forall i: nat | i < k :: !Decides(members, looks, deadline, i)
  }

  /** The wait ends with its first decisive look, and with nothing else: unreadable,
      empty, or given up, in this order of precedence. */
  lemma {:induction false} WaitExactly(members: set<int>, looks: seq<Look>, deadline: nat, first: Option<nat>)
    requires IsFirstDecisive(members, looks, deadline, first)
    ensures var (now, result) := WaitLoop(members, looks, deadline);
      match first
      case None => result == Pending && now == MembersAfter(members, looks)
      case Some(k) =>
        && now == MembersAfter(members, looks[..k + 1])
        && result == if !looks[k].readable then Unreadable else if now == {} then Emptied else GaveUp
  {
    if looks == [] {
    } else {
      var n := |looks| - 1;
      var front := looks[..n];
      var earlier := if first == Some(n) then None else first;
      forall i: nat | i < n
        ensures Decides(members, front, deadline, i) <==> Decides(members, looks, deadline, i)
      {
        assert front[..i + 1] == looks[..i + 1];
      }
      WaitExactly(members, front, deadline, earlier);
      assert looks[..n + 1] == looks;
      assert first.None? ==> !Decides(members, looks, deadline, n);
      assert earlier.Some? ==> front[..earlier.value + 1] == looks[..earlier.value + 1];
    }
  }

  // ---------- the whole cleanup ----------

  /** The group's directory, its members, and whether it was told to kill them. */
  datatype Group = Group(present: bool, members: set<int>, killed: bool)

  function Remove(members: set<int>, killed: bool, s: Script): (Group, CleanupResult) {
    var now := Evolve(members, s.removeMoves);
    if now != {} then (Group(true, now, killed), RemoveFailed(true))
    else if !s.removeAccepted then (Group(true, now, killed), RemoveFailed(false))
    else (Group(false, now, killed), Clean)
  }

  function Cleanup(g: Group, s: Script): (Group, CleanupResult) {
    if !g.present then (g, Clean)
    else
      var members := Evolve(g.members, s.first.moves);
      if !s.first.readable then (Group(true, members, g.killed), CheckFailed)
      else if members == {} then Remove(members, g.killed, s)
      else if !s.killAccepted then (Group(true, members, g.killed), KillFailed)
      else
        var (now, result) := WaitLoop(members, s.looks, s.waitStart + REMOVAL_GRACE);
        match result
        case Emptied => Remove(now, true, s)
        case GaveUp => (Group(true, now, true), StillPopulated)
        case Unreadable => (Group(true, now, true), CheckFailed)
        case Pending => (Group(true, now, true), Unfinished)
  }

  /** The cgroup file system as the host sees it: every access first lets the
      group's processes go on. */
  class CgroupDirectory {
    var present: bool
    var members: set<int>
    var killed: bool

    constructor (members: set<int>)
      ensures present && this.members == members && !killed
    {
      present, killed := true, false;
      this.members := members;
    }

    function View(): Group
      reads this
    {
      Group(present, members, killed)
    }

    method IsPopulated(look: Look) returns (r: Option<bool>)
      modifies this`members
      ensures members == Evolve(old(members), look.moves)
      ensures r == if look.readable then Some(members != {}) else None
    {
      members := Evolve(members, look.moves);
      EventsFileTellsPopulation(members);
      var content := if look.readable then Some(Render(EventsFile(members))) else None;
      r := IsCgroupPopulated(content);
    }

    /** `rmdir` refuses a populated group. */
    method RemoveDirectory(moves: seq<Move>, accepted: bool) returns (r: CleanupResult)
      requires present
      modifies this`present, this`members
      ensures members == Evolve(old(members), moves)
      ensures r == if members != {} then RemoveFailed(true) else if accepted then Clean else RemoveFailed(false)
      ensures present == !r.Clean?
    {
      members := Evolve(members, moves);
      if members != {} {
        return RemoveFailed(true);
      }
      if !accepted {
        return RemoveFailed(false);
      }
      present := false;
      r := Clean;
    }

    /** `wait_until_cgroup_empty`. */
    method WaitUntilEmpty(looks: seq<Look>, start: nat) returns (r: WaitResult)
      modifies this`members
      ensures (members, r) == WaitLoop(old(members), looks, start + REMOVAL_GRACE)
    {
      var deadline := start + REMOVAL_GRACE;
      r := Pending;
      var i := 0;
      while i < |looks| && r.Pending?
        invariant 0 <= i <= |looks|
        invariant (members, r) == WaitLoop(old(members), looks[..i], deadline)
      {
        assert looks[..i + 1][..i] == looks[..i];
        var populated := IsPopulated(looks[i]);
        if populated.None? {
          r := Unreadable;
        } else if !populated.value {
          r := Emptied;
        } else if looks[i].now >= deadline {
          r := GaveUp;
        }
        i := i + 1;
      }
      WaitStays(old(members), looks, deadline, i);
    }

    /** `cleanup_cgroup`. */
    method CleanupCgroup(s: Script) returns (r: CleanupResult)
      modifies this
      ensures (View(), r) == Cleanup(old(View()), s)
    {
      if !present {
        return Clean;
      }
      var populated := IsPopulated(s.first);
      if populated.None? {
        return CheckFailed;
      }
      if populated.value {
        if !s.killAccepted {
          return KillFailed;
        }
        killed := true;
        var waited := WaitUntilEmpty(s.looks, s.waitStart);
        if !waited.Emptied? {
          return if waited.GaveUp? then StillPopulated else if waited.Unreadable? then CheckFailed else Unfinished;
        }
      }
      r := RemoveDirectory(s.removeMoves, s.removeAccepted);
    }
  }

  lemma {:induction false} WaitStays(members: set<int>, looks: seq<Look>, deadline: nat, i: nat)
    requires i <= |looks| && (i < |looks| ==> !WaitLoop(members, looks[..i], deadline).1.Pending?)
    ensures WaitLoop(members, looks, deadline) == WaitLoop(members, looks[..i], deadline)
    decreases |looks|
  {
    if i < |looks| {
      var front := looks[..|looks| - 1];
      assert front[..i] == looks[..i];
      assert i == |front| ==> front == looks[..i];
      WaitStays(members, front, deadline, i);
    } else {
      assert looks[..i] == looks;
    }
  }

  /** A cleanup that succeeds leaves no group behind: it was absent before, or every
      process has left it and its directory is gone.  The group is told to kill its
      members exactly if the first look finds some, and the directory is never
      removed, nor its removal refused, while processes are in the group. */
  lemma {:induction false} CleanupIsComplete(g: Group, s: Script)
    requires !g.killed
    ensures var (after, r) := Cleanup(g, s);
            var found := Evolve(g.members, s.first.moves);
      && (r.Clean? <==> !after.present)
      && (r.Clean? && g.present ==> after.members == {})
      && (r.Clean? && !g.present ==> after == g)
      && r != RemoveFailed(true)
      && (r.StillPopulated? ==>
            after.members != {} && exists i | 0 <= i < |s.looks| :: s.looks[i].now >= s.waitStart + 3000)
      && (after.killed <==> g.present && s.first.readable && found != {} && s.killAccepted)
      && (r.KillFailed? <==> g.present && s.first.readable && found != {} && !s.killAccepted)
      && (g.present && !s.first.readable ==> r.CheckFailed?)
      && (after.killed ==>
            var waited := WaitLoop(found, s.looks, s.waitStart + 3000).1;
            && (waited.GaveUp? <==> r.StillPopulated?) && (waited.Unreadable? <==> r.CheckFailed?)
            && (waited.Pending? <==> r.Unfinished?) && (waited.Emptied? <==> r.Clean? || r.RemoveFailed?))
      && (r.RemoveFailed? ==> after.present && after.members == {} && !s.removeAccepted)
      && (r.Clean? && g.present ==> s.removeAccepted)
  {
    EmptyStaysEmpty(s.removeMoves);
    WaitVerdictIsTrue(Evolve(g.members, s.first.moves), s.looks, s.waitStart + REMOVAL_GRACE);
  }

  /** `patience` ms after the kill no process is left. */
  ghost predicate KillTakesEffect(members: set<int>, looks: seq<Look>, start: nat, patience: nat) {
    looks != [] ==>
      var front, look := looks[..|looks| - 1], looks[|looks| - 1];
      && KillTakesEffect(members, front, start, patience)
      && (look.now >= start + patience ==>
            Evolve(WaitLoop(members, front, start + REMOVAL_GRACE).0, look.moves) == {})
  }

  /** If a kill takes effect within the deadline, the wait never gives up: given
      enough looks it ends with the group empty, or with an unreadable file. */
  lemma {:induction false} PromptKillSucceeds(members: set<int>, looks: seq<Look>, start: nat, patience: nat)
    requires KillTakesEffect(members, looks, start, patience) && patience <= 3000
    requires LooksFrom(looks, start)
    ensures !WaitLoop(members, looks, start + REMOVAL_GRACE).1.GaveUp?
    ensures |looks| > 60 ==>
              var result := WaitLoop(members, looks, start + REMOVAL_GRACE).1;
              result.Emptied? || result.Unreadable?
  {
    if looks == [] {
    } else {
      PromptKillSucceeds(members, looks[..|looks| - 1], start, patience);
    }
    if WaitLoop(members, looks, start + REMOVAL_GRACE).1.Pending? {
      WaitEnds(members, looks, start);
    }
  }

  // ---------- the CPU limit ----------

  const PERIOD: nat := 100_000

  /** The quota `apply_cpu_limit` writes for a percentage, unless it overflows. */
  function CpuQuota(percent: nat): Option<nat> {
    if PERIOD * percent > MAX_U64 then None else Some(PERIOD * percent / 100)
  }

  /** The quota is exactly the percentage of the period; it is refused exactly when
      the intermediate product does not fit, although the quota itself still would. */
  lemma CpuQuotaIsExact(percent: nat)
    ensures match CpuQuota(percent)
            case Some(quota) => quota == 1000 * percent && 100_000 * percent < 0x1_0000_0000_0000_0000
            case None => 100_000 * percent >= 0x1_0000_0000_0000_0000
  {
    assert PERIOD * percent == 100 * (1000 * percent);
  }
}
