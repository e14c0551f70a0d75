/** The one-word mailbox between the signal handler and the supervisor's loop. */
module SignalCell {
  import opened Kernel

  datatype Event = Store(signal: int) | Swap

  /** The numbers `Signal::try_from` accepts. */
  predicate KnownSignal(number: int) {
    1 <= number <= 31
  }

  /** What the cell holds after `events`. */
  function Content(events: seq<Event>): int {
    if events == [] then 0
    else match events[|events| - 1]
      case Store(signal) => signal
      case Swap => 0
  }

  /** The non-zero values taken out of the cell, oldest first. */
  function TakenOut(events: seq<Event>): seq<int> {
    if events == [] then []
    else
      var front := events[..|events| - 1];
      TakenOut(front)
      + if events[|events| - 1].Swap? && Content(front) != 0 then [Content(front)] else []
  }

  datatype Forward = NothingPending | Forwarded(signal: int) | ForwardFailed

  function ForwardOf(pending: int, answer: KillAnswer): Forward {
    if pending == 0 then NothingPending
    else if !KnownSignal(pending) || answer.KillError? then ForwardFailed
    else Forwarded(pending)
  }

  class AtomicCell {
    var value: int
    ghost var events: seq<Event>

    ghost predicate Valid()
      reads this
    {
      value == Content(events)
    }

    constructor ()
      ensures Valid() && events == []
    {
      value := 0;
      events := [];
    }

    /** The handler: an atomic store of the signal's number. */
    method HandleSignal(signal: int)
      requires Valid()
      modifies this
      ensures Valid() && events == old(events) + [Store(signal)]
    {
      value := signal;
      events := events + [Store(signal)];
    }

    /** Takes the pending signal, if any, and forwards it to the application's group. */
    method ForwardReceivedSignal(answer: KillAnswer) returns (r: Forward)
      requires Valid()
      modifies this
      ensures Valid() && events == old(events) + [Swap] && value == 0
      ensures r == if old(value) == 0 then NothingPending
                   else if 1 <= old(value) <= 31 && !answer.KillError? then Forwarded(old(value))
                   else ForwardFailed
    {
      var signalNumber := value;
      value := 0;
      events := events + [Swap];
      if signalNumber == 0 {
        return NothingPending;
      }
      if !KnownSignal(signalNumber) {
        return ForwardFailed;
      }
      r := if answer.KillError? then ForwardFailed else Forwarded(signalNumber);
    }
  }

  ghost predicate StrictlyIncreasing(s: seq<nat>) {
    forall i, j | 0 <= i < j < |s| :: s[i] < s[j]
  }

  /** The signal stored by event `i` is still there at the swap that follows. */
  predicate TakenNext(events: seq<Event>, i: nat) {
    i + 1 < |events| && events[i].Store? && events[i + 1].Swap?
  }

  /** `taken` are the signals stored at the positions `picks`, which are exactly
      those of the events so far whose signal is still there at the next swap. */
  ghost predicate Explains(picks: seq<nat>, taken: seq<int>, events: seq<Event>) {
    && StrictlyIncreasing(picks)
    && |taken| == |picks|
    && (forall k | 0 <= k < |picks| :: TakenNext(events, picks[k]) && events[picks[k]].signal == taken[k])
    && (forall i: nat :: TakenNext(events, i) ==> i in picks)
  }

  /** For every interleaving of the handler with the loop: `picks` are positions in
      the order of arrival, each used once, and a received signal is among them
      exactly when the event right after it is a swap.  So what is taken out is a
      subsequence of what was received, nothing is taken out twice, and a signal is
      lost only to a later store that precedes the next swap. */
  lemma {:induction false} TakenOutExactly(events: seq<Event>) returns (picks: seq<nat>)
    requires forall i | 0 <= i < |events| && events[i].Store? :: events[i].signal != 0
    ensures Explains(picks, TakenOut(events), events)
  {
    if events == [] {
      return [];
    }
    picks := TakenOutExactly(events[..|events| - 1]);
    OneMoreEvent(events);
    picks := OneMorePick(events, picks, TakenOut(events[..|events| - 1]));
  }

  lemma OneMoreEvent(events: seq<Event>)
    requires events != []
    requires forall i | 0 <= i < |events| && events[i].Store? :: events[i].signal != 0
    ensures var n := |events| - 1;
            TakenOut(events) == TakenOut(events[..n])
                                + if n > 0 && TakenNext(events, n - 1) then [events[n - 1].signal] else []
  {
  }

  lemma OneMorePick(events: seq<Event>, earlier: seq<nat>, taken: seq<int>) returns (picks: seq<nat>)
    requires events != [] && Explains(earlier, taken, events[..|events| - 1])
    ensures var n := |events| - 1;
            Explains(picks, taken + if n > 0 && TakenNext(events, n - 1) then [events[n - 1].signal] else [], events)
  {
    var n := |events| - 1;
    var front := events[..n];
    var more := if n > 0 && TakenNext(events, n - 1) then [n - 1] else [];
    picks := earlier + more;
    forall i: nat | TakenNext(events, i)
      ensures i in picks
    {
      assert TakenNext(front, i) || i == n - 1;
    }
  }
}
