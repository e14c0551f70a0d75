# Secure runtime: a verified model of supervision and output limiting

The runtime starts an application in a sandbox and watches it with several small
loops that talk to each other only through system calls: the host drains the
application's two output pipes and announces an overrun on a one-byte control pipe,
a launcher waits for the application or for PID 1 of the sandbox, and PID 1 reaps
every process, forwards signals, enforces the timeout and escalates from SIGTERM to
SIGKILL. This project models these loops with all their flags and deadlines, the
secondary parts around them (cgroup removal, policy translation, the denied system
calls, the path decision), and proves what they achieve over every run.

How a loop is modelled:

* One *turn* holds every answer the environment gives during one iteration: what
  `waitpid`, `kill`, `read` or `write` return, which signals the handler stored, what
  the clock shows. A run is a list of turns of any length and content. A method with
  the loop's own variables executes the list; its contract says that it computes `Run`,
  the fold of one iteration over the list; the lemmas are about `Run`, for every list.
  An outcome `Running` means that the answers ended before the loop did.
* Assumptions on the environment are separate predicates, named in the lemmas that
  need them: the clock does not run backwards and a sleep takes its time
  (`ClockFrom`, `ClockAdvances`), a blocking wait does not answer "still alive"
  (`WaitsHonestly`), a SIGKILL takes effect within a constant (`KillTakesEffect`), and
  the answers of `waitpid` follow a process table that evolves by forks, exits and
  reaping on its own (`Faithful`). Pids are not reused within a run.
* `Runtime` puts the host, both output pipes, the control pipe, the launcher, PID 1 and
  the process table together as a transition system whose actions are single system
  calls (one turn, for PID 1); a list of actions is one interleaving, and the theorems
  hold in every reachable state. `Composition` proves that every interleaving is, seen
  by the host, by either launcher or by PID 1, a run of that loop, so what is proved of
  the loops holds in the composition. `Verdicts` says what the host returns by what
  happened in a run, `Topologies` compares the runs with and without PID 1.
* Time is in milliseconds.

Results that are not what one might expect:

* Without `timeout_seconds` the launcher computes its wait flags before it looks at the
  control pipe, and then blocks: an overrun is acted upon only if it is already announced
  at the first look, and SIGKILL is never sent unless the blocking wait is interrupted
  (`LauncherWait.BlocksExactlyWhen`, `WithoutTimeoutOneLook`, `EscalationWithoutTimeout`).
* PID 1 can send SIGTERM again after its SIGKILL (`TermAfterKillOccurs`).
* A timeout alone does not end the supervision by PID 1. SIGKILL is sent only by a poll
  that finds every child alive, and an application that keeps handing orphans to PID 1
  keeps it from ever making such a poll, without any process leaving the group
  (`KillCanBeStarved`). Past a deadline the supervisor goes on without SIGKILL exactly as
  long as each wait reaps a process or is interrupted (`KillFollowsDeadline`); once a
  SIGKILL has taken effect nothing more is adopted and the end follows
  (`KillEndsSupervision`).
* An announced overrun can go unheard, and the run then looks like a success with its
  output cut off: when the launcher blocks without a timeout, and when the announcement
  falls between the end of the launcher's loop and its exit (`BlockedLauncherIsDeaf`,
  `AnnouncedInTheWindow`). In a finished
  run over the limit the launcher's status, as the host's loop sees it, is 125 exactly if
  the launcher heard of the overrun and did not fail, or if the application exits with
  125 by itself, which is indistinguishable (`OverrunReportedExactly`, `CodesAreHonest`).
* The repository's README (lines 356-366) says that after an overrun "the runtime exits
  with a dedicated output-limit status". The launcher does; the runtime's own process
  never does: `main` turns every status but 0, and every error, into exit code 1
  (src/main.rs:169-272). It exits with 0 exactly under the conditions of
  `SuccessExactly`, which an unheard overrun can meet (`OverrunCanSucceed`), and with 1
  otherwise.
* `run_app` succeeds exactly if the sandbox's cgroup is gone. If the statistics cannot be
  read or the log entry cannot be written, the group is left as it is, although the
  application has ended (`OkExactlyIfCleanedUp`).
* With and without a PID namespace the host sees the same exit code for the same story
  unless exactly one of the two launchers heard of the overrun (`TopologiesAgreeExactly`,
  `SameStoryDiffersExactly`); runs in which the launcher then killed PID 1 are included. That happens without a timeout, when the overrun is
  announced after the first look of the launcher that blocks: 0 directly, 125 through
  PID 1 (`LateOverrunDisagrees`); and with one, when the output overruns after it: 124
  directly, 125 through PID 1 (`OverrunAfterTimeoutDisagrees`).
* The host fails if the launcher has already exited when the overrun is to be announced
  (`LateAnnouncementFails`); that is the only way the announcement can fail
  (`ControlPipeNeverFills`).
* PID 1 forwards a signal in the turn after it arrived. A signal that arrives between
  the swap and the wait is therefore held up without limit exactly if that wait blocks:
  when there is no timeout and the main child has not ended (`PendingIsForwarded`,
  `Supervisor.BlocksExactlyWhen`).
* A UTS section needs a hostname even if it is not enabled, and the limit is 64 bytes,
  although the message speaks of 63 characters (src/policy.rs:252-266).
* The CPU quota is refused when the product with the period overflows, although the
  quota would fit (`CpuQuotaIsExact`).

Files: `Kernel` (answers and signals), `Control` (control pipe), `SignalCell` (handler
mailbox), `LauncherWait`, `Pid1Wait`, `Supervisor` (the three waiting loops),
`ProcessTable` and `Escalation` (PID 1 over every evolution of the process tree),
`Output` and `Host` (budget and host loop), `ExitCodes`, `Runtime`, `Composition`,
`HostProgress`, `Verdicts`, `Scenarios` (concrete interleavings), `Topologies`, `RunApp`
(what follows the host's loop, and the runtime's exit code), `Text`, `KeyedFile`, `Cgroup`,
`Syscalls`, `Policy`, `PathDecision`.

## Model

| member | source | states |
|---|---|---|
| LauncherWait.WaitWithTimeout | src/runner.rs:532-652 | the loop over its own variables computes `Run` for every list of answers, with the deadline 1000 ms per second of timeout after the start, or none |
| LauncherWait.TimeoutExactly | src/runner.rs:532-595 | the SIGTERM for the timeout is sent exactly in the first poll of the live application at or after start + 1000 * seconds, unless an overrun came first, and never without a timeout |
| LauncherWait.FirstCauseWins | src/runner.rs:551-636 | flags, deadline, signals and result of a run are exactly those of the earliest cause found in the answers alone: one SIGTERM at the cause, one SIGKILL if and only if a poll finds the child alive a grace period later, the result naming the cause or the child's own status |
| LauncherWait.FailsExactly | src/runner.rs:551-649 | the loop returns an error exactly when its last turn has an unreadable control pipe before any cause, a failing wait, or a due signal that is refused, and with that error; and a result exactly when it reports the child's end otherwise |
| LauncherWait.OneCauseAtATime | src/runner.rs:565-634 | in every run never both flags, a deadline exactly while one is set, and the signals are a prefix of SIGTERM, SIGKILL with at least 3 s between |
| LauncherWait.EveryRunIsTold | src/runner.rs:542-651 | for every list of answers the first cause and the first overdue poll exist among the answers used, and determine flags, signals, failure, end and result |
| LauncherWait.WaitIsBounded | src/runner.rs:542-651 | total sleep between polls is bounded by the timeout, the grace and the time a SIGKILL takes; without a timeout the first part is zero |
| LauncherWait.BlocksExactlyWhen | src/runner.rs:543-549 | the wait blocks exactly when there is no timeout and no overrun was noticed in an earlier turn |
| LauncherWait.WithoutTimeoutOneLook | src/runner.rs:543-570 | without a timeout and without interrupted waits there is one turn only and no SIGKILL |
| LauncherWait.EscalationWithoutTimeout | src/runner.rs:543-636 | without a timeout a SIGKILL requires that the blocking wait after the SIGTERM was interrupted |
| Pid1Wait.WaitForPid1 | src/runner.rs:461-528 | the loop over its own variables computes `Run` for every list of answers |
| Pid1Wait.AnnouncedOverrunDecides | src/runner.rs:468-517 | the result is the output limit if and only if an overrun was announced before PID 1 ended, else PID 1's status; PID 1 gets exactly one SIGTERM for it and a SIGKILL exactly if it outlives the grace |
| Pid1Wait.FailsExactly | src/runner.rs:468-525 | the loop returns an error exactly on an unreadable control pipe before the request, a failing wait, or a due signal that is refused, and with that error |
| Pid1Wait.EveryRunIsTold | src/runner.rs:461-528 | for every list of answers the first request and the first overdue poll exist among the answers used, and determine flags, signals, failure, end and result |
| Pid1Wait.WaitIsBounded | src/runner.rs:467-527 | once the announcement is read, the sleep between polls is bounded by the grace and the time a SIGKILL takes |
| SignalCell.AtomicCell.HandleSignal | src/runner.rs:47-51 | the handler appends one store to the history the cell's content is a function of |
| SignalCell.AtomicCell.ForwardReceivedSignal | src/runner.rs:84-102 | the swap empties the cell; signals 1 to 31 are forwarded unless refused, 0 is nothing, everything else fails |
| SignalCell.TakenOutExactly | src/runner.rs:47-51 | for every interleaving, the stores taken out are exactly those directly followed by a swap, in order and each once |
| Supervisor.Loop.ForwardReceivedSignal | src/runner.rs:84-130 | the loop's swap after any number of handler stores forwards the latest if it is 1 to 31 and not refused, or nothing, or fails |
| Supervisor.Loop.CheckTimeout | src/runner.rs:132-148 | the new state of the loop's variables after the timeout check |
| Supervisor.Loop.WaitOnce | src/runner.rs:150-233 | the new state of the loop's variables after one wait |
| Supervisor.Loop.Iterate | src/runner.rs:129-234 | one iteration of the three phases on the loop's variables |
| Supervisor.RunPid1Supervisor | src/runner.rs:104-245 | the loop over its own variables computes `Run` for every list of answers, with the deadline 1000 ms per second of timeout after the start, or none |
| Supervisor.TimeoutExactly | src/runner.rs:120-148 | the SIGTERM for the timeout is sent exactly in the first turn at or after start + 1000 * seconds with the main child's end not reported before, and never without a timeout |
| Supervisor.ForwardFaultExactly | src/runner.rs:84-102 | a run ends with a forwarding fault exactly if the latest stored signal is outside 1 to 31 or refused; otherwise it is forwarded |
| Supervisor.ForwardingExactly | src/runner.rs:84-102 | the forwarded signals are received ones, in order, none twice; one is passed over only if a later one replaced it before the next swap |
| Supervisor.PendingIsForwarded | src/runner.rs:84-130 | the signal pending at the swap of a turn is forwarded in that turn, after all earlier ones |
| Supervisor.BlocksExactlyWhen | src/runner.rs:150-155 | the wait that holds up the next swap blocks exactly when there is no timeout and the main child's end has not been reported |
| Supervisor.SignalsExactly | src/runner.rs:132-243 | flags, status, deadline and own signals are exactly determined by three turns found in the answers: first expiry before the main child's end, that end, first overdue poll; the loop returns exactly on "no child" |
| Supervisor.FailsExactly | src/runner.rs:84-241 | the loop returns an error exactly on a signal to forward or send that is unknown or refused, a failing wait, or no child left without timeout and without a main status, and with that error |
| ProcessTable.StateIsRun | src/runner.rs:129-234 | the state driven by a process table is the one the loop computes from the answers |
| ProcessTable.Conservation | src/runner.rs:155-206 | over every evolution of the process tree: status unknown exactly while the main child is unreaped, and every process that became a child of PID 1 is still one or was reaped exactly once |
| ProcessTable.NothingLeftBehind | src/runner.rs:226-243 | on "no child" all adopted processes have been reaped exactly once, a missing status is impossible, and the result is the timeout or the main child's true status |
| Escalation.EscalationLanguage | src/runner.rs:132-216 | a run that returns sent one of five signal sequences, each exactly for its combination of timeout, kill, and kill before the main child was reaped; every SIGKILL at least 3 s after the latest SIGTERM |
| Escalation.EveryRunIsTold | src/runner.rs:84-243 | for every run over every evolution of the process tree the three decisive turns exist among the answers used and determine flags, status, deadline and signals; it fails exactly on a reason in its last turn and ends exactly on "no child" |
| Escalation.SupervisionEnds | src/runner.rs:118-234 | a run still going has made one turn per reaped process and idle wait plus a bounded number of polls, so it ends if at most N processes are adopted and at most K waits are idle |
| Escalation.KillCanBeStarved | src/runner.rs:155-213 | for every n a run of n turns, 50 ms apart and long past timeout and grace, with all processes in the group and no SIGKILL |
| Escalation.KillFollowsDeadline | src/runner.rs:203-213 | from the deadline in force on, no SIGKILL is sent exactly as long as every turn reaps or is idle; so it comes within one turn per child, per process adopted since, and per idle wait |
| Escalation.KillEndsSupervision | src/runner.rs:150-234 | once all processes have ended nothing more is adopted and at most one turn per child left and per idle wait follows |
| Escalation.DeadlineOnlyMovesOut | src/runner.rs:145-191 | the grace deadline changes only with a SIGTERM, at most twice, and never moves forward in time |
| Escalation.TermAfterKillOccurs | src/runner.rs:166-213 | a run with a SIGTERM after the SIGKILL |
| Control.ControlPipe.SendOutputLimitExceeded | src/control.rs:31-51 | the write appends the byte, or fails for lack of a reader or of room |
| Control.ControlPipe.OutputLimitRequested | src/control.rs:54-74 | the look takes one byte and reports a request exactly for the command byte; empty and interrupted looks report none and lose nothing |
| Control.SendExactly | src/control.rs:31-51 | a send appends the byte 1, or fails exactly for lack of a reader or of room |
| Control.LookExactly | src/control.rs:54-74 | a look takes at most one byte and reports a request exactly for a byte 1 |
| Control.AnnouncedIsHeard | src/control.rs:31-74 | a successful send makes the next untroubled look report the request and empty the pipe again |
| Output.OutputState.DrainStream | src/output.rs:90-143 | one read of a stream in place is `Receive`, including partial writes and the counter error |
| Output.OutputState.DrainAvailableOutput | src/output.rs:77-201 | one drain is a poll and at most one read per stream, in order |
| Output.BudgetPrefix | src/output.rs:103-138 | for every chunking and interleaving: forwarded is exactly the first min(total, limit) bytes read, counter and verdict are exact, and after a fault still a prefix within the limit |
| Output.DrainKeepsBudget | src/output.rs:77-201 | the same is kept by every drain |
| Output.ReceiveLogs | src/output.rs:95-101 | a read logs exactly what it delivered, a stream closes exactly on an empty read, an exceeded limit stays exceeded |
| Output.ChunkingDoesNotMatter | src/output.rs:103-138 | verdict and forwarded bytes depend on the bytes read only, their number on the total only |
| Output.FaultsExactly | src/output.rs:95-127 | each error of a read, of the counter and of a write occurs exactly when: a failing read of an open ready stream, bytes that no longer fit into 64 bits, bytes within the budget that cannot be written |
| Output.FailedWriteForwards | src/output.rs:110-127 | a failing write has forwarded what it accepted of the bytes within the budget, a failing flush all of them |
| Output.EachStreamIsAPrefix | src/output.rs:90-196 | each stream is forwarded as a prefix of what was written to it |
| Output.SpentIsSpent | src/output.rs:110-138 | once the budget is spent nothing is forwarded from either stream |
| Host.RunHostLoop | src/runner.rs:417-446 | the host loop over its own variables computes `Run` for every list of answers |
| Composition.HostConcludes | src/runner.rs:417-446 | in every interleaving the host is in a state of its loop over some list of answers |
| Composition.Pid1RunsItsLoop | src/runner.rs:129-234 | in every interleaving PID 1 is where its loop is after some turns answered by the process table |
| Composition.DirectRunsItsLoop | src/runner.rs:542-651 | in every interleaving the launcher is where its loop is after some turns and perhaps a look, with blocking waits that never answer "still alive" |
| Composition.WatchRunsItsLoop | src/runner.rs:467-527 | the same for the launcher that waits for PID 1 |
| Host.FailsExactly | src/runner.rs:419-443 | a whole run fails exactly if its last iteration has a failing wait for a launcher never reported ended, a failing drain, or a total that passes the limit with a refused announcement, and with that error; it ends exactly if the end was reported and both streams are closed |
| HostProgress.HostFinishesSoon | src/runner.rs:419-443 | once the launcher has exited and the output is closed, the host completes at most one iteration more than there are bytes left without being done or failing |
| HostProgress.HostCanMove | src/runner.rs:419-443 | and until then its next step is always possible |
| ExitCodes.CodesCollideExactly | src/runner.rs:279-381 | which outcomes share an exit code: exits with 124, 125 or 128 + signal and nothing else |
| ExitCodes.OtherCodesExactly | src/runner.rs:279-295 | 128 and the signal for a death by signal, 1 for a failure or a status that is no end |
| Topologies.TopologiesAgreeExactly | src/runner.rs:279-381 | for any two runs in which the application ended the same way, with and without PID 1, killed PID 1 included, the host sees the same code exactly under the stated condition on which launcher heard of the overrun, where the time ran out, and the application's own code |
| Topologies.SameStoryDiffersExactly | src/runner.rs:279-381 | of the same story the codes differ exactly if one launcher alone heard of the overrun and the application did not end with 125 in time; the overrun was real and the one that heard reports 125 |
| Topologies.LateOverrunDisagrees | src/runner.rs:543-571 | without a timeout: two runs of one story seen as 0 and as 125 |
| Topologies.OverrunAfterTimeoutDisagrees | src/runner.rs:353-381 | with a timeout: two runs of one story seen as 124 and as 125 |
| Runtime.EveryReachableStateIsOk | src/runner.rs:417-528 | the invariant of pipes, announcement, control byte and process ends holds in every interleaving |
| Runtime.OverrunIsReal | src/runner.rs:434-485 | in every reachable state a launcher that believes in an overrun has heard the one byte ever sent, and the application really wrote more than the limit |
| Runtime.ControlPipeNeverFills | src/control.rs:31-51 | the pipe holds at most one byte, its being full is unreachable, and an announcement fails exactly if the launcher has ended |
| Runtime.DoneMeansComplete | src/runner.rs:420-446 | when the host loop ends the launcher has ended with the returned status, all bytes ever written to both pipes were read and counted, the forwarded bytes are the first up to the limit, and the announcement was made once if there was an overrun and never otherwise |
| Verdicts.LauncherFlagsTold | src/runner.rs:468-571 | the launcher's flags are set exactly if an undisturbed look of the running launcher followed the announcement with no timeout before it, and exactly if a poll found the application past its deadline |
| Verdicts.Pid1ResultIsTrue | src/runner.rs:226-243 | in every interleaving PID 1 concludes only the timeout or the true end of the application in the process table |
| Verdicts.HostSeesTheVerdict | src/runner.rs:329-446 | a finished host returns the code of what happened: failure, overrun heard, PID 1 killed or failed, time over, or the application's own end |
| Verdicts.CodesAreHonest | src/runner.rs:329-381 | 125 exactly for an overrun heard, which was real, or the application's own 125; 124 exactly for time over or the application's own 124; the application's own code otherwise |
| Verdicts.OverrunReportedExactly | src/runner.rs:434-485 | in every finished run over the limit the announcement was made, was heard exactly if the pipe is empty, and the launcher's status is 125 exactly if heard by a launcher that did not fail, or if that is the application's own code |
| RunApp.ReadCgroupStats | src/cgroup.rs:52-88 | the statistics of the four files, or an error |
| RunApp.StatsRoundTrip | src/cgroup.rs:62-88 | rendered statistics are read back, and fail exactly if a number exceeds 64 bits |
| RunApp.RunWithCgroup | src/runner.rs:413-455 | loop, statistics, log and cleanup on the directory compute `Finish` |
| RunApp.OkExactlyIfCleanedUp | src/runner.rs:446-455 | success exactly if the loop is done and the group, if any, is gone; failing statistics or log leave it untouched |
| RunApp.SuccessExactly | src/main.rs:169-272 | the runtime exits with 0 exactly if the application ended by itself with 0 and everything succeeded, with no overrun heard and no timeout, and with 1 otherwise |
| RunApp.OverrunCanSucceed | src/main.rs:169-180 | an interleaving with an announced overrun in which the runtime exits with 0 |
| Verdicts.WithoutTimeoutOnlyTheFirstLook | src/runner.rs:543-571 | without a timeout and with uninterrupted waits an overrun is heard exactly by an undisturbed first look after the announcement |
| Scenarios.BlockedLauncherIsDeaf | src/runner.rs:543-571 | an interleaving without a timeout in which an announced overrun ends as success |
| Scenarios.AnnouncedInTheWindow | src/runner.rs:329-349 | the same with the announcement between the end of the launcher's loop and its exit |
| Scenarios.LateAnnouncementFails | src/runner.rs:434-437 | an interleaving in which the application ends normally and the host fails |
| Scenarios.StubbornApplication | src/runner.rs:490-517 | an interleaving in which PID 1 outlives the SIGTERM for an overrun, is killed, and the host sees 125 |
| KeyedFile.ReadKeyedU64 | src/cgroup.rs:31-50 | the loop over the lines computes the map of keyed values or the error |
| KeyedFile.IsCgroupPopulated | src/cgroup.rs:180-202 | the loop over the lines finds the first populated entry, with its errors |
| KeyedFile.KeyedRoundTrip | src/cgroup.rs:31-50 | reading a rendered file fails exactly if a value exceeds 64 bits, else gives each key its last value; lines without a value make no difference |
| KeyedFile.PopulatedRoundTrip | src/cgroup.rs:180-202 | a rendered file is read back to its first populated flag, other values being errors |
| KeyedFile.KeyedFailsExactly | src/cgroup.rs:31-50 | of all texts: reading fails exactly if some line with two words has a second that is no number, and otherwise has exactly the first words of those lines as keys |
| KeyedFile.KeyedValueExactly | src/cgroup.rs:31-50 | of all texts: each key has the value of the last line for it |
| KeyedFile.PopulatedExactly | src/cgroup.rs:180-202 | of all texts: the first line that starts with "populated" decides, with exactly 1 and 0 as answers |
| KeyedFile.ParseExactly | src/cgroup.rs:41-43 | a number is parsed exactly from its decimal digits, with any zeros and perhaps a plus before them, below 2^64 |
| KeyedFile.LinesExactly | src/cgroup.rs:36 | lines end with a line feed, with a carriage return and a line feed, or with the text |
| Cgroup.CgroupDirectory.IsPopulated | src/cgroup.rs:180-202 | one look at the events file tells whether the group has members |
| Cgroup.CgroupDirectory.WaitUntilEmpty | src/cgroup.rs:211-226 | the wait in place computes `WaitLoop` |
| Cgroup.CgroupDirectory.CleanupCgroup | src/cgroup.rs:228-242 | the cleanup in place computes `Cleanup` |
| Cgroup.WaitEnds | src/cgroup.rs:213-225 | the wait is over after at most 61 looks, at 50 ms |
| Cgroup.WaitExactly | src/cgroup.rs:211-226 | the wait ends with its first look that cannot be made, finds the group empty, or is late, with the result of that look |
| Cgroup.WaitVerdictIsTrue | src/cgroup.rs:211-226 | empty is reported only when empty, and giving up happens only after the deadline with processes left |
| Cgroup.PromptKillSucceeds | src/cgroup.rs:211-226 | if the kill takes effect within the deadline the wait never gives up |
| Cgroup.CleanupIsComplete | src/cgroup.rs:228-242 | success exactly if the group is gone, emptied before unless absent; the kill is requested exactly if the first look finds processes; removal is never tried on a populated group; giving up is not before 3000 ms; every error has its cause |
| Cgroup.CpuQuotaIsExact | src/cgroup.rs:142-154 | the quota is exactly the percentage of the period, refused exactly when the product overflows |
| Syscalls.BuildDeniedSyscall | src/sandbox.rs:94-172 | the compiled list is strictly sorted and contains exactly the names of the profile, none, 12 or 25, and the custom names |
| Syscalls.DeniesExactly | src/sandbox.rs:94-166 | what a policy denies: exactly the listed names of its profile and its own list |
| Syscalls.SortedListIsUnique | src/sandbox.rs:168-171 | such a list is unique, whatever order the hash set yields |
| Syscalls.CompiledListIsDetermined | src/sandbox.rs:141-172 | two policies compile to the same list if and only if they deny the same names |
| Syscalls.ProfilesAreMonotone | src/sandbox.rs:94-138 | none, baseline and strict deny more and more |
| Syscalls.ApplySeccompFilter | src/seccomp.rs:9-33 | the loaded filter denies exactly the numbers of the names; loading succeeds exactly if the library creates the context, takes every name and loads; every error has its cause |
| Syscalls.CompileAndApply | src/seccomp.rs:15-30 | compiling and loading a policy denies exactly what the policy denies, and succeeds exactly if the library does its part |
| Policy.CanonicalizePathList | src/sandbox.rs:174-185 | all paths in order, or the first that does not exist |
| Text.Utf8LengthExactly | src/policy.rs:262 | the length of a hostname is in bytes: 1 to 4 for each character |
| Text.WhitespaceExactly | src/policy.rs:266 | the 25 characters that are white space |
| Policy.AcceptedExactly | src/policy.rs:112-298 | loading accepts exactly the policies with a supported version, a valid default, a rule, positive limits, something to limit where enabled, non-zero ports, known system call names, a valid hostname in a UTS section and a valid mount section |
| Policy.ErrorIsFirstViolation | src/policy.rs:112-298 | a policy is refused with the error of the first rule it breaks in the order of the checks, and accepted if it breaks none |
| Policy.PreparedExactly | src/sandbox.rs:188-381 | the translation succeeds exactly if all paths exist and no scaled limit overflows, and each path list is that of its own kind, one canonical form per path in order |
| Policy.RefusedExactly | src/sandbox.rs:192-291 | it fails with the first path that does not exist or else the first limit that overflows |
| Policy.FailsExactlyOnOverflow | src/sandbox.rs:188-291 | for existing paths the translation fails exactly when a limit it scales overflows |
| Policy.ResourcesExactly | src/sandbox.rs:197-291 | refused exactly on overflow; else every limit is taken over or scaled exactly, and only for a section that is present |
| Policy.NoResourcesNoLimits | src/sandbox.rs:286-291 | without a resource section nothing is limited |
| Policy.ConfigurationIsSound | src/sandbox.rs:197-379 | from a validated policy: limits positive, enabled mechanisms have a limit, pid implies mount, the user namespace is required exactly when some namespace is on, a UTS namespace has a valid hostname |
| Policy.NamespacesAreLeast | src/sandbox.rs:328-379 | the namespaces created are the least set that contains the requested ones, has a mount namespace with a PID namespace and a user namespace with any |
| Policy.SettingsAreTakenOver | src/sandbox.rs:328-364 | hostname, private /tmp and its size are the policy's own, with none, off and 32 MB as defaults |
| PathDecision.InsideAnyExactly | src/engine.rs:53-64 | the search answers exactly whether an existing policy path covers the candidate |
| PathDecision.InsideAnyInOrder | src/engine.rs:53-64 | without existing paths: the first covering or missing path decides |
| PathDecision.DecisionIs | src/engine.rs:10-100 | action by action: deny coverage beats coverage in the list of that action, which beats the default; a new file is ruled by its directory for writing; every error |
| PathDecision.OrderDoesNotMatter | src/engine.rs:53-100 | order and repetition of rules make no difference |
| PathDecision.DenialIsInherited | src/engine.rs:58-75 | a denial extends to every descendant |
| PathDecision.DeniedLocation | src/engine.rs:18-75 | a covered target is denied for every action, a new file in a covered directory is denied, reading or executing what does not exist is an error |
| PathDecision.RulesAreMonotone | src/engine.rs:66-100 | more deny rules never permit, more allow rules never deny |
| PathDecision.ValidatedPolicyDecides | src/engine.rs:10-16 | under a validated policy every target that can be canonicalized is decided |

## Left out

- Raw kernel calls around the loops (fork, mount, unshare, Landlock, prctl, capabilities, exec, descriptor hygiene): foreign calls without logic of their own here.
- SHA-256 identity check, JSON loading, the text of log entries and reports, and the command line: plumbing.
- Network rules, seccomp configuration record and application id in `Policy.Prepare`: copied unchanged by the source; the ports are validated, the denied list is in `Syscalls`.
- `Instant` overflow for very long timeouts: deadlines are natural numbers.
- Processes that leave the application's process group, and pid reuse: excluded by `KillTakesEffect` and by the fresh pids of `Fork`.
- The effect of one process's signals on another in `Runtime`: kills of the launcher and of PID 1 are arbitrary actions there, which includes those the launcher sends.
- The messages printed beside the forwarded output, including the overrun notice on the host's standard error.
- Pipe capacity of the output pipes: writes of the application always succeed, which only adds runs.
- Cgroup preparation other than the CPU quota: file writes without logic.
- Escalation.SupervisionEnds: needs bounds on adoptions, without which it is false (`KillCanBeStarved`), and on idle waits; counts turns, not the time a blocking wait takes, which nothing in the loop limits.
- HostProgress.HostFinishesSoon: counts the host's own iterations and assumes that `poll` reports closed pipes and that the wait for the launcher is not interrupted; that the application closes its output is not the host's to ensure.
