/** The control pipe: one byte from the host monitor to the launcher, both ends
    non-blocking. */
module Control {
  type Byte = x: int | 0 <= x < 256

  const OUTPUT_LIMIT_EXCEEDED: Byte := 1

  /** Linux keeps 64 KiB per pipe. */
  const CAPACITY: nat := 65536

  datatype SendResult = Accepted | Incomplete | PipeFull | SendError

  /** What a loop learns from one look at the pipe. */
  datatype ControlAnswer = Requested | NotRequested | ControlError

  /** What `read` can do besides taking the next byte. */
  datatype ReadTrouble = NoTrouble | ReadInterrupted | ReadError

  function SendOn(queue: seq<Byte>, hasReader: bool): (seq<Byte>, SendResult) {
    if !hasReader then (queue, SendError)
    else if |queue| >= CAPACITY then (queue, PipeFull)
    else (queue + [OUTPUT_LIMIT_EXCEEDED], Accepted)
  }

  function LookAt(queue: seq<Byte>, trouble: ReadTrouble): (seq<Byte>, ControlAnswer) {
    match trouble
    case ReadInterrupted => (queue, NotRequested)
    case ReadError => (queue, ControlError)
    case NoTrouble =>
      if queue == [] then (queue, NotRequested)
      else (queue[1..], if queue[0] == OUTPUT_LIMIT_EXCEEDED then Requested else NotRequested)
  }

  class ControlPipe {
    var queue: seq<Byte>
    var hasReader: bool

    constructor ()
      ensures queue == [] && hasReader
    {
      queue := [];
      hasReader := true;
    }

    /** `write` of one byte on the non-blocking write end: it fails when no reader is
        left, and would block when the pipe is full. */
    method Write(data: Byte) returns (r: SendResult)
      modifies this`queue
      ensures !hasReader ==> r == SendError && queue == old(queue)
      ensures hasReader && |old(queue)| >= CAPACITY ==> r == PipeFull && queue == old(queue)
      ensures hasReader && |old(queue)| < CAPACITY ==> r == Accepted && queue == old(queue) + [data]
    {
      if !hasReader {
        r := SendError;
      } else if |queue| >= CAPACITY {
        r := PipeFull;
      } else {
        queue := queue + [data];
        r := Accepted;
      }
    }

    /** `read` into a one-byte buffer.  A count of zero is the end of the stream or,
        as far as the caller can tell, an empty pipe. */
    method ReadOne(buffer: array<Byte>, trouble: ReadTrouble) returns (count: nat, failed: bool)
      requires buffer.Length == 1
      modifies this`queue, buffer
      ensures trouble.NoTrouble? && old(queue) != [] ==>
                count == 1 && !failed && queue == old(queue)[1..] && buffer[0] == old(queue)[0]
      ensures trouble.NoTrouble? && old(queue) == [] ==> count == 0 && !failed && queue == []
      ensures !trouble.NoTrouble? ==>
                count == 0 && queue == old(queue) && failed == trouble.ReadError?
    {
      count, failed := 0, trouble.ReadError?;
      if trouble.NoTrouble? && queue != [] {
        buffer[0] := queue[0];
        queue := queue[1..];
        count := 1;
      }
    }

    method SendOutputLimitExceeded() returns (r: SendResult)
      modifies this`queue
      ensures (queue, r) == SendOn(old(queue), hasReader)
    {
      r := Write(OUTPUT_LIMIT_EXCEEDED);
    }

    method OutputLimitRequested(trouble: ReadTrouble) returns (answer: ControlAnswer)
      modifies this`queue
      ensures (queue, answer) == LookAt(old(queue), trouble)
    {
      var command := new Byte[1](_ => 0);
      var count, failed := ReadOne(command, trouble);
      if failed {
        answer := ControlError;
      } else if count == 0 {
        answer := NotRequested;
      } else {
        answer := if command[0] == OUTPUT_LIMIT_EXCEEDED then Requested else NotRequested;
      }
    }
  }

  /** A send fails exactly for lack of a reader or of room, with different answers, and
      appends one byte of value 1 otherwise. */
  lemma SendExactly(queue: seq<Byte>, hasReader: bool)
    ensures var (after, r) := SendOn(queue, hasReader);
      && (r.SendError? <==> !hasReader)
      && (r.PipeFull? <==> hasReader && |queue| >= 65536)
      && (r.Accepted? <==> hasReader && |queue| < 65536)
      && after == if r.Accepted? then queue + [1] else queue
  {
  }

  /** A look takes at most one byte, in order, and reports a request exactly for a byte
      of value 1; a look that is interrupted or fails takes nothing. */
  lemma LookExactly(queue: seq<Byte>, trouble: ReadTrouble)
    ensures var (after, answer) := LookAt(queue, trouble);
      && after == (if trouble.NoTrouble? && queue != [] then queue[1..] else queue)
      && (answer.Requested? <==> trouble.NoTrouble? && queue != [] && queue[0] == 1)
      && (answer.ControlError? <==> trouble.ReadError?)
  {
  }

  /** What is announced is heard: a send that succeeds on an empty pipe makes the
      next untroubled look report the request and leaves the pipe empty again, and
      an interrupted look in between loses nothing. */
  lemma AnnouncedIsHeard(queue: seq<Byte>, hasReader: bool)
    requires queue == []
    ensures var (after, r) := SendOn(queue, hasReader);
      && (r.Accepted? <==> hasReader)
      && (r.Accepted? ==> LookAt(LookAt(after, ReadInterrupted).0, NoTrouble) == ([], Requested))
      && (!r.Accepted? ==> LookAt(after, NoTrouble) == ([], NotRequested))
  {
    assert [OUTPUT_LIMIT_EXCEEDED][1..] == [];
    assert queue + [OUTPUT_LIMIT_EXCEEDED] == [OUTPUT_LIMIT_EXCEEDED];
  }
}
