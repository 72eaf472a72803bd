# A verified model of mender-connect's protocols

mender-connect is the device-side daemon that gives a Mender server remote access to a
device: shells, file transfers and forwarded ports, all over one websocket.  Its logic is
a set of small protocols between goroutines over channels and shared maps.  This project
models those protocols in Dafny and proves what they promise.  `dafny verify
dfyconfig.toml` checks everything.

## How the model is laid out

| file | what it models |
|---|---|
| `Reconnect.dfy` | the three loops of the daemon, their three channels and the connection slot, as a transition system over every interleaving |
| `Values.dfy` | bytes and Go's 64-bit integers, shared by the other modules |
| `Download.dfy` | the chunk and ACK format (`TransferTypes`); the sending half of a file transfer: the sender as an automaton, and the handler's loops proved to follow it |
| `Upload.dfy` | the receiving half, in the same way |
| `TransferSystem.dfy` | both automata joined by FIFO links: a closed v1 transfer |
| `UploadCommit.dfy` | temp file, receive, rename, clean-up, over a file system object |
| `TransferSlot.dfy` | the token that guards the asynchronous handler, and the fate of each message |
| `SessionRegistry.dfy` | the two indexes of shell sessions |
| `ShellCounter.dfy` | every handler that touches sessions or the shell counter, as one step on a value, and the properties of whole runs |
| `ShellSurplus.dfy` | the law of the counter: what each event adds to the slots that no started session accounts for |
| `ShellSessions.dfy` | which sessions each event removes, registers, starts and leaves running, and when a session expires |
| `ShellDaemon.dfy` | the same handlers as methods that update the maps and the counter in place, each proved to make exactly that step |
| `Router.dfy`, `SessionLoop.dfy` | routing messages to sessions, for any number of routing callers; one session's loop with its deferred calls |
| `RateLimits.dfy` | byte counters, the moving average, the permits |
| `Backoff.dfy` | the reconnect backoff in 64-bit arithmetic |
| `PortForward.dfy` | reader and writer of a forwarded connection, the one-in-flight rule of v1, the table of connections |

Where several goroutines interleave, the model is a state machine with one program counter
per goroutine and one action per channel operation or shared access, and theorems speak of
all runs.  Where one goroutine works through a loop or updates an object, the model is a
method.  The two meet in the file transfer: `DownloadHandler` and `WriteFile` run the
source's loops, and their traces are proved to be runs of the automata that
`TransferSystem` composes.

Answers of the outside world (D-Bus signals, reads, writes, the peer, process signals,
file-system calls, clocks and random numbers) are parameters with arbitrary values.
The shell cap is an arbitrary number, the per-user cap any number of at least one.

## What the proofs found

* **Reconnect.** No wake-up is lost.  More: while the daemon holds a token, a waiting
  `messageLoop` is answered within fifteen steps that matter, whatever the scheduler does,
  and from every reachable state the other two loops can bring it a reply.  A
  `messageLoop` that posts a request is received after at most eleven steps of any loops
  (`EveryScheduleReceives`).  Nothing happens without a reason: each request, post and
  authorization has its own (`NothingWithoutReason`), and once nothing is pending the latest
  reconnect used the token and URL that are stored now (`SettledConnectionIsCurrent`).
* **Window.** The window computation wraps for an ACK offset close to the int64 maximum;
  the wrapped window is never positive, so the sender only stalls (`WindowBytesIsExact`).
* **Chunks after the end of file.** `writeFile` keeps consuming until its batch ends, so a
  v1 receiver stores up to nine chunks after the empty one, and never more
  (`AfterEofIsBounded`; `StoresAfterEof` builds a run for every count up to nine); v2 stores
  none.  Once it has seen the end of file it takes one more chunk if and only if the batch is
  not full and a message is ready when it polls (`NextAfterEof`).  A conforming sender never
  sends one: `TransferIsExact` shows that nothing follows in the closed system.
* **Empty files.** Every finished v1 transfer has used up its chunks, and its ACKs if and only
  if the file is not empty (`LinksAtTheEnd`).  For an empty file the sender returns without
  reading any ACK.
* **Shell cap.** The cap holds exactly as long as no session whose shell failed to start
  is stopped while the counter equals the number of started sessions
  (`StepKeepsCapExactly`); four messages are enough to exceed a cap of one
  (`FailedStartLetsTheCapSlip`).  If starting a new session's shell always succeeds, the
  cap holds over every run (`ShellCapHolds`).
* **Shell counter.** How far the counter exceeds the sessions with a started shell is exact,
  event by event and over every run without such a stop (`StepLeaks`, `RunLeaks`).  It grows
  by each session that a health check removes; by each that losing the authorization removes
  without its shell being stopped; by every started session of a sweep in which a single stop
  fails, which includes the stop of a session that never had a shell; by the sessions removed
  by a stop of all a user's shells that leaves a survivor; and by starting the shell of one
  session a second time.  Nothing but a phantom stop takes such slots back.  Where new shells
  start and stops succeed, the counter is the number of sessions plus the removals by health
  checks (`CounterIsExact`).
* **Shells without a session.** By its status no shell is ever left running without a session
  (`RunLeavesNoOrphans`).  Its process may survive, though: a stop keeps the session of a
  survivor, a sweep and a lost authorization do not (`StepRemovesExactly`).
* **Session registration** keeps the two indexes in agreement if and only if the id is new
  (`InsertAgrees`); the only creator looks the id up first.  The port forwarder's table has
  the same shape but does not look the id up (`OpenKeepsMap`).
* **Router.** Every run serves each session once if and only if there is at most one routing
  caller (`ServedOnceExactly`); the daemon has one.
* **Backoff.** The comment on the algorithm promises to keep retrying at the maximum
  interval.  The code does so for 101 failed attempts in a row; at the 102nd the interval is
  negative and from the 165th on it is zero (`ExactUpTo101`).
* **Port forwarding, v1, ACKs.** The comment in `portForwardHandlerAck` says that an ACK
  without a lock does not panic.  Go reports unlocking an unlocked mutex as an error that
  cannot be recovered.  Over all runs an ACK has that effect if and only if every lock has
  been released before it (`AckCrashesExactly`); an ACK before any message is enough
  (`StrayAckCrashes`).  With a peer that acknowledges only what it received it never happens
  (`OneInFlight`).
* **Port forwarding, v1, failed writes.** If a message cannot be written, its lock stays held
  and nothing more is sent until the peer acknowledges a message that it never got
  (`FailedSendStalls`); with a conforming peer that is for good (`FailedSendIsFinal`).
* **Port forwarding, end of session.** `Close` closes what the map holds, so every connection
  is closed if and only if the map held every open one (`ClosesAllExactly`), which reusing an
  id breaks.
* **Rate limits.** The average is one of bytes per five-second tick, compared with a limit
  called "per minute".  A refusal needs a single tick with that many bytes
  (`RefusalHasACause`), and a flow of d bytes per tick above the limit is refused after n
  ticks with n*w*(d - limit) at least the limit, w the weight of a tick (`SteadyFlowIsRefused`).

## Model

| member | source | states |
|---|---|---|
| ReconnectProtocol.NoLostWakeUp | app/daemon.go:202-419 | in every interleaving: a waiting, authorized `messageLoop` with an empty reply channel has a reconnect owed, posted or running; unauthorized implies the stored token or URL is empty; an iteration that ends newly authorized posted exactly one event; the full reply channel holds the latest outcome |
| ReconnectProtocol.NoCircularWait | app/daemon.go:202-419 | the wait-for relation among the three loops has no cycle of two or three in any reachable state |
| ReconnectProtocol.StepKeepsInv | app/daemon.go:202-419 | every action of every loop preserves the inductive invariant |
| ReconnectProtocol.MessageStepKeepsInv | app/daemon.go:202-265 | in particular every action of `messageLoop`, including the wait-only branch for a locally closed connection |
| ReconnectProtocol.DbusStepKeepsInv | app/daemon.go:267-372 | in particular every action of `dbusEventLoop`, including a token repeated after a loss |
| ReconnectProtocol.EventStepKeepsInv | connectionmanager/connectionmanager.go:145-173 | in particular both halves of `Reconnect` and the draining of a stale reply |
| ReconnectProtocol.RunKeepsInv | app/daemon.go:528-532 | the invariant holds after every run of the three loops started together |
| ReconnectProtocol.ReachableInv | app/daemon.go:518-532 | the initial authorization of `Run` establishes the invariant |
| ReconnectProtocol.NextActionHelps | app/daemon.go:313-419 | in every waiting state without a reply some action of the other two loops is possible and brings the reply strictly closer |
| ReconnectProtocol.WaiterCanAlwaysBeWoken | app/daemon.go:221-232 | from every reachable waiting state the other loops reach a reply in at most sixteen steps; a token signal is used only if the daemon has no token or is losing it |
| ReconnectProtocol.EveryStepHelps | app/daemon.go:313-419 | no possible step of any loop moves the reply away, and every step that matters brings it closer |
| ReconnectProtocol.EveryScheduleDelivers | app/daemon.go:221-232 | under every schedule that leaves the token alone, fewer than sixteen progress steps pass without a reply |
| ReconnectProtocol.EveryStepNearsReceive | app/daemon.go:212-219 | while a request waits to be received, every step of any loop brings the receive strictly closer |
| ReconnectProtocol.EveryScheduleReceives | app/daemon.go:303-311 | under every schedule a posted request can be received after at most eleven steps, and until then some loop can move |
| ReconnectProtocol.NothingWithoutReason | app/daemon.go:202-419 | in every reachable state: outside a reconnect a connection is registered exactly if the latest reconnect established one; a read on a replaced connection is woken; requests are as many as the start, failed reconnects and lost connections; a post is owed exactly after a request or a pair unlike the stored one; the daemon is authorized as the latest signal says and has stored the latest pair, and it changes its authorization only after trying to close |
| ReconnectProtocol.SettledConnectionIsCurrent | app/daemon.go:356-397 | an authorized daemon with nothing pending has made its latest reconnect with the token and URL stored now |
| ReconnectProtocol.ReconnectInstallsFresh | connectionmanager/connectionmanager.go:145-173 | an established reconnect registers a connection that was never closed, registered or read; the old one is gone and closed |
| ReconnectProtocol.EstablishedIsRead | app/daemon.go:221-236 | after a reply of success, and no new reconnect, `messageLoop` reads the connection that was installed |
| ReconnectProtocol.LostConnectionIsRequested | app/daemon.go:237-254 | a read error that is no local close, and a missing connection, lead to a request next |
| ReconnectProtocol.CloseWakesReader | connectionmanager/connectionmanager.go:222-238 | every close closes the registered connection and wakes a read on it |
| ReconnectProtocol.MessageStepKeepsAccount | app/daemon.go:202-265 | every action of `messageLoop` keeps connections and reasons accounted for |
| ReconnectProtocol.DbusStepKeepsAccount | app/daemon.go:267-372 | the same for every action of `dbusEventLoop` |
| ReconnectProtocol.EventStepKeepsAccount | app/daemon.go:382-419 | the same for every action of `eventLoop` |
| Download.WindowBytesIsExact | session/filetransfer.go:320-322 | the int64 window is positive exactly when the true window is positive and fits, and then equals it |
| Download.StepShape | session/filetransfer.go:185-203 | one more chunk or ACK keeps the stream shape: offset equal to the bytes sent before, nothing after the end of file, window and buffer bounds in v1 |
| Download.RunShape | session/filetransfer.go:284-358 | for every ACK sequence, repeated, decreasing or beyond the sent offset: the bodies form a prefix of the file, each offset is the length of the bodies before it, the only empty chunk is the last, and in v1 each data chunk ends within 20*4096 of the most recent ACK |
| Download.WaitAck | session/filetransfer.go:248-282 | the four verdicts on the next message, each with the exact condition for it |
| Download.Write | session/filetransfer.go:185-203 | fails exactly if the message cannot be written, and then neither trace nor offset changes; otherwise one chunk is added |
| Download.CopyBuffer | session/filetransfer.go:312-316 | copying up to a limit follows the automaton, takes no ACK, and stops at the end of the file, at the limit, or at the first read or write that fails; no failure is passed over |
| Download.CopyWindows | session/filetransfer.go:318-343 | the v1 loop ends with the whole file sent, or with a failure that has its cause in the environment or in the next message |
| Download.Finish | session/filetransfer.go:344-356 | the end-of-file chunk, sent only if it can be, and then the final ACK |
| Download.AwaitFinalAck | session/filetransfer.go:351-356 | the last loop takes the peer's ACKs in order until one reaches the total |
| Download.DownloadHandler | session/filetransfer.go:284-358 | the trace is a run of the automaton; a normal return means the whole file, end-of-file chunk last, and (v1) a final ACK of at least the total; any other return has its cause, and no step of the trace passed over a failed read, a failed write or a reached limit; ACKs are taken in order with none skipped |
| Upload.StepReflects | session/filetransfer.go:564-662 | one more chunk or ACK keeps the state the exact summary of the trace, and satisfies the promises below |
| Upload.RunShape | session/filetransfer.go:564-662 | the stored bytes are the gapless concatenation of the consumed chunks; a v1 ACK closes a batch of one to ten chunks, names the start of the last, never decreases and never exceeds the bytes written |
| Upload.AfterEofIsBounded | session/filetransfer.go:615-650 | over every run at most nine chunks are stored after the end of file in v1, none in v2 |
| Upload.StoresAfterEof | session/filetransfer.go:615-650 | for each count up to nine a v1 run that stores that many bytes after the empty chunk |
| Upload.ConsumesAfterEof | session/filetransfer.go:615-650 | after the end of file a chunk can be taken if and only if the batch is open and not full |
| Upload.NextAfterEof | session/filetransfer.go:634-650 | in such a batch the loop stores one more chunk if and only if the batch is not full and its poll finds a message |
| Upload.TakeChunk | session/filetransfer.go:616-625 | in either loop: the next message of the peer is stored, or there is a cause and the trace is as before |
| Upload.WriteChunk | session/filetransfer.go:574-613 | a chunk is stored whole if and only if it fits, is written in full and meets neither limit; each of the six refusals has exactly its own cause |
| Upload.OneVerdict | session/filetransfer.go:574-613 | every message is accepted or refused, for exactly one reason |
| Upload.WriteFile | session/filetransfer.go:564-662 | the trace is a run of the receiver over the first messages of the peer, in order; success means the stored bytes are the consumed chunks with an end of file among them, below the maximum size, with every batch acknowledged; batches follow the polls; no consumed chunk met a limit and no ACK in the trace failed; every failure has its cause in the next message, the closed channel or the ACK |
| TransferSystem.StepKeepsInv | session/filetransfer.go:284-662 | every step of the closed system keeps the chunks in flight a gapless stretch of the file and the ACKs in flight truthful |
| TransferSystem.NeverStuck | session/filetransfer.go:318-356 | no run of the closed system gets stuck, for any chunk sizes, delays and ACK batching |
| TransferSystem.EveryRunIsBounded | session/filetransfer.go:318-356 | every run has at most 8 steps per byte and ten more |
| TransferSystem.StepSpendsPotential | session/filetransfer.go:615-660 | every step strictly lowers a measure of bytes left, messages in flight and phase |
| TransferSystem.TransferIsExact | session/filetransfer.go:564-662 | the receiver always has a prefix of the sender's file, and the whole file once it has seen the end, with no chunk following |
| TransferSystem.LinksAtTheEnd | session/filetransfer.go:351-356 | after every finished transfer no chunk is left in the links, and no ACK if and only if the file is not empty |
| TransferSystem.FinalAckStaysLast | session/filetransfer.go:652-655 | only the ACK of the end-of-file chunk carries the file's length, and nothing follows it |
| TransferSystem.EmptyFileLeavesItsAck | session/filetransfer.go:351-356 | on every finished run for an empty file the ACKs sent are all unread, the last one the end of file's |
| TransferSystem.Complete | session/filetransfer.go:284-662 | from every point of every run the transfer can be completed |
| UploadCommit.FileSystem.FileUploadHandler | session/filetransfer.go:446-550 | all or nothing: with working removal every file is as before, except that the target may hold the complete received bytes, which it does on success and after failures that follow the rename; each failure has its cause: all names taken or creation failed, an ACK not sent, what `WriteFile` was refused, or the step that failed; a failed step is never passed over, and the handler's own ACK goes out before the first chunk in v1 and after the rename in v2 |
| UploadCommit.FileSystem.ReceiveAndCommit | session/filetransfer.go:502-549 | from the temporary file to the commit or its removal |
| UploadCommit.FileSystem.CreateWrOnlyTempFile | session/filetransfer.go:428-444 | the first of the hundred candidates that did not exist, each extending the target's name; it fails only if all of them exist or creating that one failed |
| UploadCommit.FileSystem.Commit | session/filetransfer.go:506-546 | before the rename a failure changes no file; after it the target holds the bytes and the temporary name is gone; it succeeds exactly if no call failed |
| UploadCommit.TempNamesDiffer | session/filetransfer.go:429-432 | two attempts on one target collide only if both counter and attempt number agree |
| TransferSlot.SlotIsSafe | session/filetransfer.go:80-121 | in every interleaving: tokens equal running handlers plus the session's probe, at most one; each handler releases once and is never blocked doing so; each receive of a handler takes one message, finds none or waits; each message has one fate: handed over, answered, or, for an error message without a transfer, logged; the probe succeeds exactly when no handler runs |
| TransferSlot.OfferIsResolved | session/filetransfer.go:98-120 | a message on offer is resolved within three steps: taken if a handler runs on, answered (an error message: logged) if none does |
| TransferSlot.StepKeepsInv | session/filetransfer.go:235-244 | every request, message, hand-over, exit and close keeps the one-runner invariant |
| TransferSlot.RequestStartsExactly | session/filetransfer.go:235-244 | a request starts exactly one handler if and only if it is valid and none runs; otherwise nothing changes |
| TransferSlot.SlotCanBeFreed | session/filetransfer.go:293-303 | whatever a handler is doing, its own moves free the slot; a closed channel ends it |
| TransferSlot.CloseEndsOffers | session/filetransfer.go:80-83 | after the session closed no message is offered and no handler starts |
| TransferSlot.OneRunnerCounts | session/filetransfer.go:416-422 | the token count is the number of running handlers plus the probe |
| SessionRegistry.IndexesAlwaysAgree | session/shell.go:125-227 | after every lock-held section of every interleaving, with stale deletes allowed: a session is filed under its id exactly when it occurs once in its user's list and in no other, and no list exceeds the per-user maximum |
| SessionRegistry.AgreementCounts | session/shell.go:125-127 | agreement of the maps, counted occurrence by occurrence |
| SessionRegistry.InsertAgrees | app/daemon_shell.go:59-72 | registering keeps the maps in agreement if and only if the id is new |
| SessionRegistry.DeleteIsWithout | session/shell.go:206-220 | the slice surgery removes exactly one session from both maps |
| SessionRegistry.DeleteAllIsWithout | session/shell.go:287-291 | a loop of deletes removes exactly the named sessions, whatever the order and the repetitions |
| SessionRegistry.InsertAddsOne | session/shell.go:170-171 | registering a new session adds it and leaves every other where it occurs |
| SessionRegistry.WithoutTakesExactly | session/shell.go:206-220 | removing ids takes exactly those sessions away |
| SessionRegistry.SectionDecides | session/shell.go:133-227 | after a lock-held section a session is in both maps exactly if it was added within the maximum, or was there and not deleted |
| SessionRegistry.WithoutTwice | session/shell.go:318-328 | removals compose as the union of what they remove |
| SessionRegistry.SectionsKeepAgreement | session/shell.go:133-173 | any sequence of lock-held sections keeps the agreement |
| ShellCounter.ShellCapHolds | app/daemon_shell.go:54-110 | over every run in which starting a new session's shell succeeds: sessions, all with a started shell, at most the counter, and the counter at most the cap |
| ShellCounter.StepKeepsCapExactly | app/daemon_shell.go:151-182 | a step breaks the cap if and only if it stops a session whose shell never started and whose process does not exist, while the counter equals the started sessions |
| ShellCounter.FailedStartLetsTheCapSlip | app/daemon_shell.go:177-182 | four messages that run two shells under a cap of one |
| ShellCounter.RunKeepsCap | app/daemon.go:429-441 | without such stops the cap and the agreement of the maps hold over every run |
| ShellCounter.FreshStartsMeanNoPhantoms | session/shell.go:398-440 | if new sessions' shells start, no such stop can occur |
| ShellCounter.StepKeepsAgreement | session/shell.go:252-376 | every handler keeps the two indexes in agreement |
| ShellCounter.StepRemoves | session/shell.go:252-376 | every handler but the spawn changes the indexes only by removing sessions from both |
| ShellCounter.StopOneKeeps | app/daemon_shell.go:151-185 | stopping by id keeps the cap exactly outside the phantom case |
| ShellCounter.StopByUserKeeps | app/daemon_shell.go:126-149 | stopping by user keeps the cap, whichever shells survive |
| ShellCounter.DeauthorizeKeeps | app/daemon.go:279-294 | losing the authorization leaves no session and keeps the cap |
| ShellCounter.SweepKeeps | app/daemon.go:544-555 | the sweep keeps the cap although it subtracts sessions, not shells |
| ShellCounter.HealthTimeoutKeeps | session/shell.go:462-487 | a health-check timeout keeps the cap without counting down |
| ShellSurplus.StepLeaks | app/daemon.go:429-441 | every event changes the surplus of the counter over the started sessions by exactly its leak |
| ShellSurplus.RunLeaks | app/daemon_shell.go:54-185 | over every run without phantom stops the counter is the started sessions plus what leaked |
| ShellSurplus.CounterIsExact | session/shell.go:462-487 | where new shells start and stops succeed, the counter is the number of sessions plus the removals by health checks |
| ShellSurplus.DeauthorizeLeaks | app/daemon.go:283-293 | losing the authorization counts down every shell that stopped, and leaks the others |
| ShellSurplus.SweepLeaks | app/daemon.go:544-555 | an error-free sweep leaks nothing, one with an error all its started sessions |
| ShellSurplus.StopByUserLeaks | app/daemon_shell.go:126-149 | a stop by user leaks what it removed if a shell survives, else nothing |
| ShellSurplus.StopOneLeaks | app/daemon_shell.go:151-185 | a stop by id leaks nothing, and takes one away if it is a phantom stop |
| ShellSurplus.SpawnLeaks | app/daemon_shell.go:54-110 | a spawn leaks one if it starts one session's shell a second time |
| ShellSurplus.HealthTimeoutLeaks | session/shell.go:473-482 | a health check leaks the session it removes |
| ShellSessions.StepRemovesExactly | session/shell.go:252-376 | which registered sessions each event removes, and that only a spawn within both caps registers one |
| ShellSessions.RunLeavesNoOrphans | session/shell.go:252-376 | over every run each running shell belongs to a registered session |
| ShellSessions.SpawnDecides | app/daemon_shell.go:54-102 | each of the five outcomes of a spawn has its own exact condition |
| ShellSessions.SpawnStartsExactly | app/daemon_shell.go:88-105 | a shell starts and is counted exactly if the outcome says so; a failed start and a refusal change no shell |
| ShellSessions.ExpiresAfterRegistration | session/shell.go:151-164 | without an idle timeout, a session still registered survives a sweep if and only if its time from registration is not over |
| ShellSessions.ExpiresAfterActivity | session/shell.go:450-454 | with one, if and only if the timeout has not passed since its last input or start |
| ShellSessions.ExpiresAfterTimeout | session/shell.go:473-476 | a survivor of a failed health check expires at that moment |
| ShellSessions.SweepIsExact | session/shell.go:333-376 | a sweep removes exactly the expired sessions from both maps and leaves none; if every stop succeeded, exactly that many shells were running |
| ShellDaemon.Daemon.DeleteByIdLocked | session/shell.go:206-220 | the search and the cut give the specified registry, and an unknown id is reported |
| ShellDaemon.Daemon.StopShell | session/shell.go:540-577 | success means it ran and was stopped; a running shell is marked empty even if stopping fails |
| ShellDaemon.Daemon.StopEach | session/shell.go:304-316 | every session stopped once, successes counted, an error exactly if one failed |
| ShellDaemon.Daemon.DeleteEach | session/shell.go:318-328 | every session deleted from both maps, none left |
| ShellDaemon.Daemon.TerminateExpired | session/shell.go:333-376 | removes the expired sessions, reports their number, and without an error as many shells as sessions |
| ShellDaemon.Daemon.TerminateAll | session/shell.go:296-331 | removes every session and reports the shells that stopped |
| ShellDaemon.Daemon.StopEachOfUser | session/shell.go:274-285 | sessions without a shell are skipped, survivors kept, the rest collected without repetition |
| ShellDaemon.Daemon.StopByUserId | session/shell.go:264-294 | the state after stopping a user's shells; without an error the count is the number tried |
| ShellDaemon.Daemon.StopById | session/shell.go:252-262 | the state after stopping one session, the counter untouched |
| ShellDaemon.Daemon.NewSession | session/shell.go:133-173 | refused exactly at the per-user maximum; otherwise registered in both maps with its expiry |
| ShellDaemon.Daemon.DecreaseSpawnedShellsCount | app/daemon.go:429-441 | subtraction that stops at zero |
| ShellDaemon.Daemon.SpawnShellMessage | app/daemon_shell.go:41-110 | at the shell cap nothing changes; an unknown id is registered unless its user is at the maximum; the counter goes up exactly when a shell that was not running has started; the outcome is reported |
| ShellDaemon.Daemon.StopShellMessage | app/daemon_shell.go:151-185 | a shell that could not be stopped and survives keeps its session and its count; otherwise the session leaves both maps and the counter goes down by one |
| ShellDaemon.Daemon.StopUserMessage | app/daemon_shell.go:126-149 | the user's started sessions leave both maps except survivors; the counter goes down by their number only if none survived |
| ShellDaemon.Daemon.LoseAuthorization | app/daemon.go:279-294 | every session leaves both maps; the counter goes down by the shells that stopped, with or without an error |
| ShellDaemon.Daemon.SweepSessions | app/daemon.go:544-555 | the expired sessions leave both maps; the counter goes down by their number, and only if every stop succeeded |
| ShellDaemon.Daemon.HealthCheckTimedOut | session/shell.go:473-482 | the session expires now and leaves both maps unless its shell survives; the counter stays |
| ShellDaemon.Daemon.ShellCommand | session/shell.go:520-521 | only the time of last activity of this session changes |
| ShellDaemon.Daemon.Handle | app/daemon.go:544-555 | any event outside the phantom case keeps maps, shells and cap valid |
| RouterProtocol.OneCallerIsSafe | session/router.go:53-78 | with one caller, in every interleaving: each session is served by one goroutine, its `done` closed at most once, the table holds exactly the unfinished sessions, every message is taken by a session with its own id, or refused |
| RouterProtocol.SessionCanFinish | session/session.go:273-294 | every session can end by its own moves, and is then gone from the table |
| RouterProtocol.OneMessageAtATime | session/session.go:311-369 | for any number of callers: a session that took a message takes no other before it goes on |
| RouterProtocol.LateServesNothing | session/session.go:306-310 | for any number of callers: a goroutine that starts on a finished session serves no message |
| RouterProtocol.StoreKeepsInv | session/router.go:61-68 | the one caller never loses the store race |
| RouterProtocol.DeleteRemovesItself | session/router.go:53-56 | the deferred delete removes the finishing session's own entry, never a newer one |
| RouterProtocol.HandOverIsResolved | session/router.go:72-77 | a message on its way is taken or refused after at most two moves |
| RouterProtocol.ServedOnceExactly | session/router.go:58-78 | for any number of callers: every run serves each session once if and only if there is at most one |
| RouterProtocol.ManyCallersServeTwice | session/router.go:64-68 | with two or more callers, a run in which one session is started twice |
| SessionLoop.ListenAndServe | session/session.go:296-371 | inputs are answered in order, by the handler of their protocol, up to and including the first that ends the session; then every handler is closed in reverse order, a panic reported, `done` closed; a tick is answered with an error exactly if it times the session out, and a handler is built only to serve |
| SessionLoop.EndsAtFirstHarm | session/session.go:148-247 | a session ends with its first input that is not harmless, so a close message is the last one served; it stays open exactly if all are harmless |
| SessionLoop.LifecycleCounts | session/session.go:270-294 | panicking or not: `done` closed exactly once and last, each handler built at most once and closed exactly as often |
| SessionLoop.ServeInput | session/session.go:311-369 | one round ends the session exactly when its input says so; the idle flag means the last input was a tick |
| SessionLoop.RunDeferred | session/session.go:365 | the deferred closes run in reverse order of construction, before `done` is closed |
| SessionLoop.Emit | session/session.go:352-369 | a handler is built only once, only for a route, and serves only once built |
| RateLimits.CountersAddUp | limits/filetransfer/limits.go:381-386 | the device's and every permit's counters never decrease or overflow; tick deltas never wrap and sum to the counter at the last tick |
| RateLimits.StepKeepsInv | limits/filetransfer/limits.go:387-389 | the average stays between zero and the largest delta seen |
| RateLimits.RefusalHasACause | limits/filetransfer/limits.go:224-229 | a transfer is refused only if the delta of some single tick reached the limit |
| RateLimits.SteadyFlowIsRefused | limits/filetransfer/limits.go:224-229 | whatever came before, n ticks of at least d bytes, above the limit, are followed by a refusal once n*w*(d - limit) is at least the limit |
| RateLimits.SteadyAverage | limits/filetransfer/limits.go:387-389 | after n such ticks the average is within the n-th power of the old weight, times d, of d |
| RateLimits.TickClosesGap | limits/filetransfer/limits.go:387-389 | one such tick shrinks the gap by the old weight |
| RateLimits.TransferKeepsTotals | limits/filetransfer/limits.go:219-237 | the device total stays the sum of the permits' if and only if both or neither count the transfer |
| RateLimits.TotalsAgree | limits/filetransfer/limits.go:210-270 | below the 64-bit ceiling device total, sum over permits and requested bytes are one number |
| RateLimits.TickBounded | limits/filetransfer/limits.go:387-389 | a tick cannot lift the average above every delta seen, for any weight strictly between 0 and 1 |
| RateLimits.DeviceCounters.UpdateCounters | limits/filetransfer/limits.go:379-395 | one round ticks both directions |
| RateLimits.Permit.BytesSent | limits/filetransfer/limits.go:210-239 | counts in both counters without overflow and reports the limit, or does nothing when limits are off |
| RateLimits.Permit.BytesReceived | limits/filetransfer/limits.go:241-270 | the same for received bytes |
| Backoff.BaseIsPromised | connectionmanager/exponentialbackoff.go:38-55 | the interval is the promised min(unit*2^(attempts/3), cap) if and only if the doubled unit fits in 63 bits or its low bits are not below the cap |
| Backoff.BaseGrows | connectionmanager/exponentialbackoff.go:38-55 | within that range the interval never shrinks and never exceeds the cap |
| Backoff.ExactUpTo101 | connectionmanager/connectionmanager.go:68-73 | with the production constants: exact up to 101 attempts, negative at 102, zero from 165 |
| Backoff.SecondShiftedOut | connectionmanager/exponentialbackoff.go:48-49 | from 55 doublings on nothing of a second is left |
| Backoff.ExpBackoff.GetExponentialBackoffTime | connectionmanager/exponentialbackoff.go:41-55 | base plus a random part below five units |
| Backoff.ExpBackoff.WaitForBackoff | connectionmanager/exponentialbackoff.go:57-76 | the first attempt after a reset does not wait, every later one sleeps the interval unless cancelled |
| Backoff.ExpBackoff.Connect | connectionmanager/connectionmanager.go:87-112 | the attempts are reset exactly when a connection is established |
| PortForward.ReadLoop | session/portforward.go:118-133 | every message handed over still holds its own bytes at the end although all reads share one buffer; together they are what was read, in order |
| PortForward.AckCrashesExactly | session/portforward.go:395-410 | over every run, whatever the peer does: unlocks pair with locks; every body read is sent, lost or in hand; an ACK unlocks an unlocked mutex if and only if every lock was released before |
| PortForward.StrayAckCrashes | session/portforward.go:395-410 | an ACK before any message does so |
| PortForward.OneInFlight | session/portforward.go:135-163 | on runs whose peer ACKs only outstanding data: no ACK finds the lock free; until a write fails, messages minus ACKs is 0 or 1, between sends the lock is held exactly when it is 1, and bodies sent are a prefix of bodies read |
| PortForward.StepKeepsFlow | session/portforward.go:135-163 | every step, any ACK included, keeps locks, unlocks and bodies accounted for |
| PortForward.FailedSendStalls | session/portforward.go:166-168 | after a failed write under the lock nothing is sent before the next ACK, which releases the lock |
| PortForward.FailedSendIsFinal | session/portforward.go:166-168 | so with a conforming peer nothing is ever sent again |
| PortForward.Write | session/portforward.go:177-190 | delivers the whole body across any partial writes, ends with the first write that fails or the first after which nothing is left, and has then delivered exactly what the writes took |
| PortForward.OnlyAcksAreAwaited | session/portforward.go:150-153 | with a conforming peer, until a write fails, the forwarder waits for nothing but data and outstanding ACKs |
| PortForward.OpenKeepsMap | session/portforward.go:294-317 | opening keeps the map exactly the open connections if and only if the id was free |
| PortForward.CloseKeepsMap | session/portforward.go:88-112 | closing removes the forwarder's own entry and no other, and a second close changes nothing |
| PortForward.PortForwardHandler.CloseOne | session/portforward.go:88-112 | only the first close tells the peer |
| PortForward.RunKeepsEntries | session/portforward.go:88-112 | over every run of opens and closes, ids reused or not, each entry of the map is an open connection under its own id |
| PortForward.ClosesAllExactly | session/portforward.go:215-227 | every connection is closed at the end if and only if the map held every open one |
| PortForward.PortForwardHandler.Close | session/portforward.go:215-227 | at the end of the session exactly the connections in the map are closed in addition, and the map is empty |

## Left out

- `client/dbus` and `client/mender`: cgo and D-Bus; their results are arbitrary inputs.
- `connection/connection.go`: a wrapper over a websocket library and msgpack; only open, closed here and read errors are modelled.
- `CancelReconnection`'s polling and its unsynchronised map: wall-clock behaviour; a cancelled reconnect is one that fails, and a close gives up only while one runs.
- Shutdown (`StopDaemon`): loops may be parked on a channel when `stop` is set, so nothing is claimed about it.
- The loops of the daemon, the slot, the router and the v1 port forwarder as loops: they are modelled as actions of a state machine, because what matters is how they interleave; loop-local variables that no action reads are dropped.
- Go's fairness: progress is stated as a bound on progress steps under every schedule, not as eventual delivery.
- `shell/` and `procps/`: whether a shell starts, stops or survives is arbitrary.
- Finer interleaving of the shell handlers: each handler is one step, as the daemon's mutexes do not cover a whole handler; the maps alone are also proved for every interleaving of lock-held sections (`IndexesAlwaysAgree`).
- Slice aliasing in the session registry: lists are values, so a reader sharing a backing array with a delete is not captured; the source copies before it iterates without the lock.
- Path, owner and mode policy in `UploadFile`, `DownloadFile`, `PreserveModes`, `PreserveOwnerGroup` and `utils/fs.go`, and the checks before a transfer starts: straight-line checks over file-system facts.
- `StatFile`, resize, status and command output messages: no state beyond one call.
- `config/`, `cli/`, `main.go`, `session/menderclient.go`, `session/utils.go`, `utils/numbers.go`: loading, dispatch and conversion.
- The exact timing of idle, ping and health-check timers: ticks and timeouts occur at any time.
- Floating-point rounding of the moving average: real numbers; the weight of a tick is any number strictly between 0 and 1.
- A panic inside a handler's own `Close`, and concurrent access to the port-forward table from reader goroutines: no lock protects them in the source.
- `msgpack` encoding, log output and error texts: messages are datatypes.
- RouterProtocol.OneCallerIsSafe: speaks of one routing caller, because `messageLoop` is the only one (app/daemon.go:257).
- TransferSystem.NeverStuck: assumes that no write fails and the limits are off; with them either side may return early, as the contracts of `DownloadHandler` and `WriteFile` state.
- PortForward.OneInFlight: assumes a conforming peer, and for the flow that no message write failed; `AckCrashesExactly` and `FailedSendStalls` state what happens otherwise.
