/** The exit codes with which PID 1 and the launcher pass the application's outcome
    on. */
module ExitCodes {
  import opened Kernel

  const TIMED_OUT: int := 124
  const OUTPUT_LIMIT: int := 125
  const RUNTIME_ERROR: int := 1

  /** `exit_with_child_status`. */
  function ExitCode(status: WaitStatus): int {
    match status
    case Exited(_, code) => code
    case Signaled(_, signal, _) => 128 + signal
    case Stopped(_, _) => RUNTIME_ERROR
    case Continued(_) => RUNTIME_ERROR
    case PtraceStop(_) => RUNTIME_ERROR
    case StillAlive => RUNTIME_ERROR
  }

  function ResultCode(result: ApplicationResult): int {
    match result
    case Finished(status) => ExitCode(status)
    case TimedOut => TIMED_OUT
    case OutputLimitExceeded => OUTPUT_LIMIT
  }

  /** The code of a process whose loop ended with `outcome`; an error is reported by
      `main`, which exits with 1. */
  function CodeOf(outcome: Outcome): int
    requires !outcome.Running?
  {
    match outcome
    case Done(result) => ResultCode(result)
    case Failed(_) => RUNTIME_ERROR
  }

  /** What the parent's `waitpid` reports of a process that exits with `code`. */
  function Reported(pid: int, code: int): WaitStatus {
    Exited(pid, code % 256)
  }

  /** A status the kernel can report of an ended process. */
  predicate Reportable(status: WaitStatus) {
    match status
    case Exited(_, code) => 0 <= code < 256
    case Signaled(_, signal, _) => 1 <= signal <= 31
    case Stopped(_, _) => false
    case Continued(_) => false
    case PtraceStop(_) => false
    case StillAlive => false
  }

  /** Which outcomes the host cannot tell apart: an application that exits with 124,
      125 or a code above 128 looks like a timeout, an overrun or a death by signal;
      the others are distinct. */
  lemma CodesCollideExactly(a: WaitStatus, b: WaitStatus)
    requires Reportable(a) && Reportable(b)
    ensures ResultCode(Finished(a)) == ResultCode(TimedOut) <==> a.Exited? && a.code == 124
    ensures ResultCode(Finished(a)) == ResultCode(OutputLimitExceeded) <==> a.Exited? && a.code == 125
    ensures ResultCode(TimedOut) != ResultCode(OutputLimitExceeded)
    ensures ResultCode(Finished(a)) == ResultCode(Finished(b)) <==>
              match (a, b)
              case (Exited(_, c), Exited(_, d)) => c == d
              case (Signaled(_, s, _), Signaled(_, t, _)) => s == t
              case (Exited(_, c), Signaled(_, t, _)) => c == 128 + t
              case (Signaled(_, s, _), Exited(_, d)) => 128 + s == d
              case _ => false
  {
  }

  /** A result that is no end of a process, and a failure, are reported as 1; a death by
      signal as 128 and the signal. */
  lemma OtherCodesExactly(status: WaitStatus, fault: Fault)
    ensures !status.Terminal() ==> ResultCode(Finished(status)) == 1
    ensures status.Signaled? ==> ResultCode(Finished(status)) == 128 + status.signal
    ensures CodeOf(Failed(fault)) == 1
  {
  }
}
