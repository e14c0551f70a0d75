/** The host's output monitor: two streams of the application share one byte budget. */
module Output {
  import opened Kernel
  import opened Control

  const BUFFER_SIZE: nat := 4096

  datatype Stream = Stdout | Stderr

  /** One byte of output and the stream it came on. */
  datatype Tagged = Tagged(stream: Stream, value: Byte)

  /** What one `read` into the buffer can deliver. */
  type Chunk = bytes: seq<Byte> | |bytes| <= BUFFER_SIZE

  datatype ReadAnswer = Data(bytes: Chunk) | ReadFailed

  /** A failing `write_all` may have written a part before. */
  datatype WriteAnswer = Written | WriteFailed(before: nat) | FlushFailed

  datatype StreamAnswer = StreamAnswer(ready: bool, read: ReadAnswer, write: WriteAnswer)

  datatype PollAnswer = PollFailed | Polled(stdout: StreamAnswer, stderr: StreamAnswer)

  datatype DrainFault = PollFault | ReadFault | CounterOverflow | WriteFault

  // ---------- one stream, one read ----------

  /** The monitor with the log of everything read, in the order of the reads, and of
      everything forwarded to the host's own streams. */
  datatype Monitor = Monitor(
    stdoutOpen: bool,
    stderrOpen: bool,
    totalBytes: nat,
    limitExceeded: bool,
    received: seq<Tagged>,
    forwarded: seq<Tagged>,
    fault: Option<DrainFault>)
  {
    predicate Open(stream: Stream) {
      if stream.Stdout? then stdoutOpen else stderrOpen
    }
  }

  const INITIAL := Monitor(true, true, 0, false, [], [], None)

  function Tag(stream: Stream, bytes: seq<Byte>): (log: seq<Tagged>)
    ensures |log| == |bytes|
  {
    seq(|bytes|, i requires 0 <= i < |bytes| => Tagged(stream, bytes[i]))
  }

  lemma TagOfPrefix(stream: Stream, bytes: seq<Byte>, n: nat)
    requires n <= |bytes|
    ensures Tag(stream, bytes[..n]) == Tag(stream, bytes)[..n]
  {
  }

  function Min(a: nat, b: nat): nat {
    if a <= b then a else b
  }

  /** How many of `count` bytes may still be forwarded after `previous` bytes. */
  function Quota(count: nat, previous: nat, limit: Option<nat>): nat {
    match limit
    case None => count
    case Some(max) => Min(count, AtLeastZero(max - previous))
  }

  /** How many of `n` bytes a write accepts. */
  function AcceptedBytes(n: nat, write: WriteAnswer): nat {
    match write
    case Written => n
    case WriteFailed(before) => Min(n, before)
    case FlushFailed => n
  }

  function Account(m: Monitor, stream: Stream, bytes: seq<Byte>, write: WriteAnswer, limit: Option<nat>): Monitor {
    var log := Tag(stream, bytes);
    var n := Quota(|bytes|, m.totalBytes, limit);
    var total := m.totalBytes + |bytes|;
    if total > MAX_U64 then
      m.(received := m.received + log, fault := Some(CounterOverflow))
    else if n > 0 && !write.Written? then
      m.(received := m.received + log, totalBytes := total,
         forwarded := m.forwarded + log[..AcceptedBytes(n, write)], fault := Some(WriteFault))
    else
      m.(received := m.received + log, totalBytes := total, forwarded := m.forwarded + log[..n],
         limitExceeded := m.limitExceeded || (limit.Some? && total > limit.value))
  }

  function Receive(m: Monitor, stream: Stream, a: StreamAnswer, limit: Option<nat>): Monitor {
    if m.fault.Some? || !m.Open(stream) || !a.ready then m
    else match a.read
      case ReadFailed => m.(fault := Some(ReadFault))
      case Data(bytes) =>
        if bytes == [] then
          if stream.Stdout? then m.(stdoutOpen := false) else m.(stderrOpen := false)
        else Account(m, stream, bytes, a.write, limit)
  }

  function Drain(m: Monitor, a: PollAnswer, limit: Option<nat>): Monitor {
    if m.fault.Some? then m
    else match a
      case PollFailed => m.(fault := Some(PollFault))
      case Polled(stdout, stderr) => Receive(Receive(m, Stdout, stdout, limit), Stderr, stderr, limit)
  }

  // ---------- the same, in place ----------

  /** The host's own standard output and error, as one log. */
  class Terminal {
    var written: seq<Tagged>

    constructor ()
      ensures written == []
    {
      written := [];
    }

    /** `write_all` and `flush` of the first `n` bytes; a failing write has accepted
        a part of them. */
    method WriteAll(stream: Stream, buffer: array<Byte>, count: nat, n: nat, write: WriteAnswer)
      requires n <= count <= buffer.Length
      modifies this
      ensures written == old(written) + Tag(stream, buffer[..count])[..AcceptedBytes(n, write)]
    {
      var accepted := AcceptedBytes(n, write);
      TagOfPrefix(stream, buffer[..count], accepted);
      assert buffer[..count][..accepted] == buffer[..accepted];
      written := written + Tag(stream, buffer[..accepted]);
    }
  }

  class OutputState {
    var stdoutOpen: bool
    var stderrOpen: bool
    var totalBytes: nat
    var limitExceeded: bool
    var received: seq<Tagged>

    constructor ()
      ensures stdoutOpen && stderrOpen && totalBytes == 0 && !limitExceeded && received == []
    {
      stdoutOpen, stderrOpen := true, true;
      totalBytes, limitExceeded := 0, false;
      received := [];
    }

    ghost function View(terminal: Terminal, fault: Option<DrainFault>): Monitor
      reads this, terminal
    {
      Monitor(stdoutOpen, stderrOpen, totalBytes, limitExceeded, received, terminal.written, fault)
    }

    /** Reads once from `stream` and forwards what the budget allows. */
    method DrainStream(terminal: Terminal, stream: Stream, a: StreamAnswer, limit: Option<nat>)
      returns (fault: Option<DrainFault>)
      modifies this, terminal
      ensures View(terminal, fault) == Receive(old(View(terminal, None)), stream, a, limit)
    {
      fault := None;
      if !(if stream.Stdout? then stdoutOpen else stderrOpen) || !a.ready {
        return;
      }
      if a.read.ReadFailed? {
        return Some(ReadFault);
      }
      var buffer := new Byte[BUFFER_SIZE](_ => 0);
      var bytesRead := Fill(buffer, a.read.bytes);
      if bytesRead == 0 {
        if stream.Stdout? {
          stdoutOpen := false;
        } else {
          stderrOpen := false;
        }
        return;
      }
      received := received + Tag(stream, a.read.bytes);
      var previousTotal := totalBytes;
      if previousTotal + bytesRead > MAX_U64 {
        return Some(CounterOverflow);
      }
      totalBytes := previousTotal + bytesRead;
      var bytesToForward := bytesRead;
      if limit.Some? {
        var remaining := if limit.value >= previousTotal then limit.value - previousTotal else 0;
        bytesToForward := Min(bytesRead, remaining);
      }
      assert bytesToForward == Quota(bytesRead, previousTotal, limit);
      if bytesToForward > 0 {
        terminal.WriteAll(stream, buffer, bytesRead, bytesToForward, a.write);
        if !a.write.Written? {
          return Some(WriteFault);
        }
      }
      if limit.Some? {
        if !limitExceeded && totalBytes > limit.value {
          limitExceeded := true;
        }
      }
    }

    /** `drain_available_output`: one poll of both streams, then at most one read of each. */
    method DrainAvailableOutput(terminal: Terminal, a: PollAnswer, limit: Option<nat>)
      returns (fault: Option<DrainFault>)
      modifies this, terminal
      ensures View(terminal, fault) == Drain(old(View(terminal, None)), a, limit)
    {
      if a.PollFailed? {
        return Some(PollFault);
      }
      fault := DrainStream(terminal, Stdout, a.stdout, limit);
      if fault.None? {
        fault := DrainStream(terminal, Stderr, a.stderr, limit);
      }
    }
  }

  /** `read` into the buffer. */
  method Fill(buffer: array<Byte>, bytes: seq<Byte>) returns (count: nat)
    requires |bytes| <= buffer.Length
    modifies buffer
    ensures count == |bytes| && buffer[..count] == bytes
  {
    for i := 0 to |bytes|
      invariant buffer[..i] == bytes[..i]
    {
      buffer[i] := bytes[i];
    }
    count := |bytes|;
  }

  // ---------- the budget ----------

  function Cap(length: nat, limit: Option<nat>): nat {
    match limit
    case None => length
    case Some(max) => Min(length, max)
  }

  /** The budget is kept: without a fault exactly the first bytes up to the limit
      have been forwarded, the counter is the true number of bytes read, and the
      verdict is whether that exceeds the limit.  After a fault the forwarded bytes
      are still a prefix within the limit, and a counter fault is a true overflow. */
  ghost predicate Accounted(m: Monitor, limit: Option<nat>) {
    && m.forwarded <= m.received
    && |m.forwarded| <= Cap(|m.received|, limit)
    && (m.limitExceeded ==> limit.Some? && |m.received| > limit.value)
    && (m.fault.None? ==>
          && m.totalBytes == |m.received| <= MAX_U64
          && m.forwarded == m.received[..Cap(|m.received|, limit)]
          && m.limitExceeded == (limit.Some? && |m.received| > limit.value))
    && (m.fault == Some(CounterOverflow) ==> |m.received| > MAX_U64)
  }

  lemma ReceiveKeepsBudget(m: Monitor, stream: Stream, a: StreamAnswer, limit: Option<nat>)
    requires Accounted(m, limit)
    ensures Accounted(Receive(m, stream, a, limit), limit)
    ensures m.received <= Receive(m, stream, a, limit).received
  {
    if m.fault.None? && m.Open(stream) && a.ready && a.read.Data? && a.read.bytes != [] {
      AccountKeepsBudget(m, stream, a.read.bytes, a.write, limit);
    }
  }

  lemma AccountKeepsBudget(m: Monitor, stream: Stream, bytes: seq<Byte>, write: WriteAnswer, limit: Option<nat>)
    requires Accounted(m, limit) && m.fault.None?
    ensures Accounted(Account(m, stream, bytes, write, limit), limit)
  {
    var log, n := Tag(stream, bytes), Quota(|bytes|, m.totalBytes, limit);
    var m' := Account(m, stream, bytes, write, limit);
    if m.totalBytes + |bytes| > MAX_U64 {
      assert m.forwarded + log[..0] == m.forwarded;
      ForwardedIsPrefix(m, log, 0, limit);
    } else if n > 0 && !write.Written? {
      ForwardedIsPrefix(m, log, AcceptedBytes(n, write), limit);
    } else {
      ForwardedIsPrefix(m, log, n, limit);
      assert m'.forwarded == m'.received[..|m'.forwarded|];
    }
  }

  lemma ForwardedIsPrefix(m: Monitor, log: seq<Tagged>, k: nat, limit: Option<nat>)
    requires Accounted(m, limit) && m.fault.None? && k <= Quota(|log|, m.totalBytes, limit)
    ensures m.forwarded + log[..k] <= m.received + log
    ensures |m.forwarded| + k <= Cap(|m.received + log|, limit)
    ensures k == Quota(|log|, m.totalBytes, limit) ==> |m.forwarded| + k == Cap(|m.received + log|, limit)
  {
    if k > 0 {
      assert m.forwarded == m.received;
    }
  }

  /** What one `Receive` does to the log and to the streams: a read appends exactly
      what it delivered, and a stream closes exactly on an empty read. */
  lemma ReceiveLogs(m: Monitor, stream: Stream, a: StreamAnswer, limit: Option<nat>)
    requires m.fault.None?
    ensures var m' := Receive(m, stream, a, limit);
            var delivers := m.Open(stream) && a.ready && a.read.Data?;
      && m'.received == (if delivers then m.received + Tag(stream, a.read.bytes) else m.received)
      && m'.stdoutOpen == (m.stdoutOpen && !(delivers && stream.Stdout? && a.read.bytes == []))
      && m'.stderrOpen == (m.stderrOpen && !(delivers && stream.Stderr? && a.read.bytes == []))
      && (m.limitExceeded ==> m'.limitExceeded)
  {
    if m.Open(stream) && a.ready && a.read.Data? && a.read.bytes == [] {
      assert m.received + Tag(stream, []) == m.received;
    }
  }

  /** Any interleaving of reads from the two streams, in chunks of any size. */
  function Receiving(deliveries: seq<(Stream, StreamAnswer)>, limit: Option<nat>): Monitor {
    if deliveries == [] then INITIAL
    else
      var (stream, a) := deliveries[|deliveries| - 1];
      Receive(Receiving(deliveries[..|deliveries| - 1], limit), stream, a, limit)
  }

  lemma {:induction false} BudgetPrefix(deliveries: seq<(Stream, StreamAnswer)>, limit: Option<nat>)
    ensures Accounted(Receiving(deliveries, limit), limit)
  {
    if deliveries == [] {
    } else {
      var (stream, a) := deliveries[|deliveries| - 1];
      var front := deliveries[..|deliveries| - 1];
      BudgetPrefix(front, limit);
      ReceiveKeepsBudget(Receiving(front, limit), stream, a, limit);
    }
  }

  /** One drain of both streams keeps the budget too. */
  lemma {:induction false} DrainKeepsBudget(m: Monitor, a: PollAnswer, limit: Option<nat>)
    requires Accounted(m, limit)
    ensures Accounted(Drain(m, a, limit), limit)
    ensures m.fault.Some? ==> Drain(m, a, limit) == m
    ensures m.fault.None? && a.PollFailed? ==> Drain(m, a, limit) == m.(fault := Some(PollFault))
  {
    if m.fault.None? && a.Polled? {
      ReceiveKeepsBudget(m, Stdout, a.stdout, limit);
      ReceiveKeepsBudget(Receive(m, Stdout, a.stdout, limit), Stderr, a.stderr, limit);
    }
  }

  /** The verdict and the forwarded bytes depend on the bytes read alone, and their
      number on the total alone: not on the chunks, nor on which stream came first. */
  lemma ChunkingDoesNotMatter(d: seq<(Stream, StreamAnswer)>, e: seq<(Stream, StreamAnswer)>, limit: Option<nat>)
    requires Receiving(d, limit).fault.None? && Receiving(e, limit).fault.None?
    ensures var m, n := Receiving(d, limit), Receiving(e, limit);
      && (|m.received| == |n.received| ==>
            m.totalBytes == n.totalBytes && m.limitExceeded == n.limitExceeded && |m.forwarded| == |n.forwarded|)
      && (m.received == n.received ==> m.forwarded == n.forwarded)
  {
    BudgetPrefix(d, limit);
    BudgetPrefix(e, limit);
  }

  /** When a read fails the monitor: on a failing read of an open, ready stream; when
      the bytes read no longer fit into the counter; when bytes that are within the
      budget cannot be written. */
  lemma FaultsExactly(
      deliveries: seq<(Stream, StreamAnswer)>, stream: Stream, a: StreamAnswer, limit: Option<nat>)
    requires Receiving(deliveries, limit).fault.None?
    ensures var m := Receiving(deliveries, limit);
            var fault := Receive(m, stream, a, limit).fault;
            var looks := m.Open(stream) && a.ready;
            var overflows := looks && a.read.Data? && |m.received| + |a.read.bytes| >= 0x1_0000_0000_0000_0000;
            var spent := limit.Some? && |m.received| >= limit.value;
      && (fault == Some(ReadFault) <==> looks && a.read.ReadFailed?)
      && (fault == Some(CounterOverflow) <==> overflows)
      && (fault == Some(WriteFault) <==>
            looks && a.read.Data? && a.read.bytes != [] && !overflows && !spent && !a.write.Written?)
      && fault != Some(PollFault)
  {
    BudgetPrefix(deliveries, limit);
  }

  /** A write that fails has passed on what it accepted before, of the bytes that were
      within the budget, and a failing flush all of them. */
  lemma FailedWriteForwards(
      deliveries: seq<(Stream, StreamAnswer)>, stream: Stream, a: StreamAnswer, limit: Option<nat>)
    requires Receiving(deliveries, limit).fault.None?
    requires Receive(Receiving(deliveries, limit), stream, a, limit).fault == Some(WriteFault)
    ensures var m := Receiving(deliveries, limit);
            var m' := Receive(m, stream, a, limit);
            var due := Cap(|m'.received|, limit) - |m.forwarded|;
            |m'.forwarded| - |m.forwarded| ==
            if a.write.WriteFailed? && a.write.before < due then a.write.before else due
  {
    BudgetPrefix(deliveries, limit);
  }

  // ---------- what each stream sees ----------

  function Only(log: seq<Tagged>, stream: Stream): seq<Byte> {
    if log == [] then []
    else
      var last := log[|log| - 1];
      Only(log[..|log| - 1], stream) + if last.stream == stream then [last.value] else []
  }

  lemma {:induction false} OnlyAppends(log: seq<Tagged>, more: seq<Tagged>, stream: Stream)
    ensures Only(log + more, stream) == Only(log, stream) + Only(more, stream)
  {
    if more == [] {
      assert log + more == log;
    } else {
      var front := more[..|more| - 1];
      OnlyAppends(log, front, stream);
      assert (log + more)[..|log + more| - 1] == log + front;
    }
  }

  lemma {:induction false} OnlyTagged(bytes: seq<Byte>, from: Stream, stream: Stream)
    ensures Only(Tag(from, bytes), stream) == if from == stream then bytes else []
  {
    if bytes == [] {
    } else {
      var n := |bytes| - 1;
      assert Tag(from, bytes)[..n] == Tag(from, bytes[..n]);
      OnlyTagged(bytes[..n], from, stream);
      assert bytes == bytes[..n] + [bytes[n]];
    }
  }

  /** On each stream the host forwards a prefix of what the application wrote there. */
  lemma EachStreamIsAPrefix(deliveries: seq<(Stream, StreamAnswer)>, limit: Option<nat>, stream: Stream)
    ensures var m := Receiving(deliveries, limit);
            Only(m.forwarded, stream) <= Only(m.received, stream)
  {
    var m := Receiving(deliveries, limit);
    BudgetPrefix(deliveries, limit);
    OnlyAppends(m.forwarded, m.received[|m.forwarded|..], stream);
    assert m.forwarded + m.received[|m.forwarded|..] == m.received;
  }

  /** Once the budget is spent, nothing more is forwarded from either stream, and an
      exceeded limit stays exceeded. */
  lemma SpentIsSpent(
      deliveries: seq<(Stream, StreamAnswer)>, stream: Stream, a: StreamAnswer, limit: nat)
    requires |Receiving(deliveries, Some(limit)).received| >= limit
    ensures var m := Receiving(deliveries, Some(limit));
            var n := Receive(m, stream, a, Some(limit));
            n.forwarded == m.forwarded && (m.limitExceeded ==> n.limitExceeded)
  {
    BudgetPrefix(deliveries, Some(limit));
  }
}
