/** The part of the kernel interface that the supervision loops rely on: what
    `waitpid`, `kill` and `killpg` can answer, and the signals the loops send
    themselves.  Time is in milliseconds, as read from one monotonic clock. */
module Kernel {

  datatype Option<+T> = None | Some(value: T)

  const MAX_U64: nat := 0xFFFF_FFFF_FFFF_FFFF

  const SIGKILL: int := 9
  const SIGTERM: int := 15

  /** The pause between two polls of a child that is still alive. */
  const POLL_INTERVAL: nat := 5

  /** How long a process may ignore SIGTERM before it is killed. */
  const GRACE: nat := 3000

  datatype WaitStatus =
    | Exited(pid: int, code: int)
    | Signaled(pid: int, signal: int, coreDumped: bool)
    | Stopped(pid: int, signal: int)
    | Continued(pid: int)
    | PtraceStop(pid: int)
    | StillAlive
  {
    /** The process is gone; this status is the last one it has. */
    predicate Terminal() {
      Exited? || Signaled?
    }
  }

  datatype WaitAnswer = Status(status: WaitStatus) | Interrupted | NoChild | WaitError
  {
    predicate Alive() {
      Status? && status.StillAlive?
    }

    predicate Ended() {
      Status? && status.Terminal()
    }

    /** Neither a poll of a live child nor an end: an interrupted call or a stop report. */
    predicate Idle() {
      Interrupted? || (Status? && !status.StillAlive? && !status.Terminal())
    }
  }

  datatype KillAnswer = Delivered | NoSuchProcess | KillError

  /** What the launcher and PID 1 conclude about the application. */
  datatype ApplicationResult = Finished(status: WaitStatus) | TimedOut | OutputLimitExceeded

  datatype Fault = ControlFault | KillFault | ForwardFault | WaitFault | MissingStatus

  datatype Outcome = Running | Done(result: ApplicationResult) | Failed(fault: Fault)

  /** The fault a loop ended with, if it did. */
  function FaultOf(outcome: Outcome): Option<Fault> {
    match outcome
    case Running => None
    case Done(_) => None
    case Failed(fault) => Some(fault)
  }

  datatype Reason = AfterTimeout | AfterOverrun | AfterExit | AfterGrace

  /** One signal a loop sent on its own account.  For a SIGTERM `at` is the
      clock reading taken just after it, for a SIGKILL the one just before it. */
  datatype Sent = Sent(signal: int, reason: Reason, at: nat)

  /** The deadline `timeout_seconds` puts on a run that starts at `start`. */
  function ExecutionDeadline(start: nat, timeoutSeconds: Option<nat>): Option<nat> {
    match timeoutSeconds
    case None => None
    case Some(seconds) => Some(start + 1000 * seconds)
  }

  function AtLeastZero(x: int): nat {
    if x < 0 then 0 else x
  }

}
