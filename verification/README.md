# Verified model of the supervised restart, the web shell and the evaluation statistics

A Dafny model of four parts of the repository, with proofs of what they promise.

**The supervised restart.** A runtime asks its supervisor for a restart by an exit code, but the exit code alone is
not trusted. Inside the runtime a gate counts live external roots, refuses new ones once a restart is prepared, waits
for the roots to drain and then writes one commit frame. A channel puts the frames on a private pipe as lines of JSON.
The supervisor parses the pipe from whatever chunks its reads return, runs a small protocol automaton over the frames,
and starts another boot only on complete evidence. A bridge hands numbered settings reloads from web threads to the
same loop.

- `Text`, `Lifecycle`, `LifecycleState`, `Grammar`: the incremental parser and its automaton, chunk invariance, the
  exit drain, and the language of frame lists the automaton accepts.
- `Gate`, `GateRuns`, `GateState`: the gate, every interleaving of its users, and the gate and permits as objects.
- `Channel`, `ChannelState`: the frames as bytes, and when the reader accepts and understands what the writer wrote.
- `Json`: a decoder of what the channel writes, which reads every call back.
- `Bridge`: the settings bridge, its interleavings and its object.
- `Supervisor`, `SupervisorState`: one wait for a child and the loop from boot to boot, as functions of a script of
  outside events and as methods with their loops.
- `Outcomes`: how every boot ends, read off its script, and how a wait fails.
- `Handshake`, `Evidence`, `QuietRestart`, `QuietWitness`: why a restart may be trusted, end to end.
- `Settings`, `SettingsWitness`: what becomes of every settings reload over whole runs.

**The web shell.** `Clients` is its reference-counted pool of upstream clients; `Paths` its test of request paths
against percent-decoding and dot-segment removal; `Routing` its longest-prefix routing; `Relay` the loop that rechecks
the authorisation of a WebSocket.

**Exact paired statistics.** `McNemar` is the exact test against the enumeration of all falls of fair coins; `Wilson`
is the score interval over real arithmetic.

**Pooling.** `Pooling` is the paired comparison, and the pooling of runs with disjoint questions.

Code that updates objects or locals in place is modelled by classes and by methods with loops, each proved against a
function of the old state; the theorems are about those functions. Code made of expressions is modelled by functions.
Concurrency is modelled by steps: a stretch between two suspension points, or inside one lock, is one step, and a run
is any sequence of steps.

## Model

| member | source | states |
|---|---|---|
| `LifecycleReader.LifecycleState.constructor` | agent/supervisor.py:96-106 | a new reader is in the start state: nothing seen, last elapsed time -1, stage `guardian.spawn` |
| `LifecycleReader.LifecycleState.Feed` | agent/supervisor.py:108-125 | feeding a chunk in place does what the feed function does to the whole state, including an exception that leaves it half done |
| `LifecycleReader.LifecycleState.TakeLines` | agent/supervisor.py:112-119 | the loop over complete lines, which stops at an oversized line or an exception |
| `LifecycleReader.LifecycleState.Accept` | agent/supervisor.py:127-148 | one line: ignored after an error, decoded, checked for the boot identity, dispatched by type |
| `LifecycleReader.LifecycleState.TakeStage` | agent/supervisor.py:150-163 | a stage is taken, or refused for its name, its time (booleans count as integers) or because ready came before |
| `LifecycleReader.LifecycleState.TakeReady` | agent/supervisor.py:165-171 | one ready frame with a positive pid |
| `LifecycleReader.LifecycleState.TakeCommit` | agent/supervisor.py:173-186 | one commit after ready with a clean request id and this boot's nonce; the nonce comparison raises outside ASCII |
| `LifecycleReader.LifecycleState.TakeSettings` | agent/supervisor.py:188-199 | an answer after ready whose detail has at most 2048 UTF-8 bytes; encoding a lone surrogate raises |
| `LifecycleReader.ReadLifecycleToEof` | agent/supervisor.py:591-609 | the drain after the guardian's exit, as a loop over a pipe object |
| `Lifecycle.FeedTwice` | agent/supervisor.py:108-125 | two feeds leave what one feed of both payloads leaves, up to the words of an error and the bytes left behind by one |
| `Lifecycle.ChunkInvariance` | agent/supervisor.py:108-125 | for every stream and every way of cutting it into reads: the same ready, pid, stage, elapsed time, answers and commit evidence, and the same error or not, as one feed of the whole |
| `Lifecycle.DrainIsOneFeed` | agent/supervisor.py:591-609 | the exit drain reads at most 65,537 bytes; up to 65,536 it equals one feed of everything it read, beyond that the stream is refused and the commit evidence dropped |
| `Lifecycle.DrainTakesAll` | agent/supervisor.py:591-609 | unless an exception escapes, the drain takes every byte that is available and notices the end of the pipe; of more than its budget it takes the budget and one byte |
| `Grammar.AutomatonDecidesGrammar` | agent/supervisor.py:127-199 | no error arises exactly on the lists where all frames are well formed for this boot, stages precede ready with non-decreasing times, there is at most one ready, and answers and at most one commit come after it; the state then reports what the list holds |
| `Grammar.StreamDecidesClean` | agent/supervisor.py:108-199 | however a byte stream is cut, the reader ends without error exactly when every line decodes and is short enough, the frames are a sentence of that grammar, and the unfinished rest is within its bound |
| `Grammar.StreamOffence` | agent/supervisor.py:108-199 | however the stream is cut, a first line that does not fit decides: the reader reports exactly the lines before it, and an exception escapes exactly when decoding that line raises, its commit carries a nonce outside ASCII, or its detail holds a lone surrogate |
| `Text.StripTakesSpaceOnly` | agent/supervisor.py:150-186 | `strip` removes white space at both ends and nothing else |
| `GateState.RestartGate.Create` | agent/restart.py:44-74 | a gate is built, open and drained, exactly for a boot id that is not blank, a positive timeout, and a commit channel just when it is supervised and executes |
| `GateState.RestartGate.RequestShutdown` | agent/restart.py:76-82 | shutdown is refused without execution; the first request closes admission and leaves its error, later ones change nothing |
| `GateState.RestartGate.CheckOpen` | agent/restart.py:90-107 | admission is open, or the caller holds the current reopen event to wait on |
| `GateState.RestartGate.PrepareStop` | agent/restart.py:117-126 | a valid id closes admission; the same id again changes nothing; another one is refused |
| `GateState.RestartGate.Prepare` | agent/restart.py:109-115 | refused unless supervised and executing, otherwise a stop is prepared |
| `GateState.RestartGate.CheckStop` | agent/restart.py:128-131 | passes exactly while this very id is pending, because a pending request never accepts; anything else is refused as cancelled or replaced |
| `GateRuns.PreparationStands` | agent/restart.py:117-131 | a preparation that passes the check keeps passing it in every continuation without an abort |
| `GateRuns.CancelledStaysRejected` | agent/restart.py:128-190 | one that is refused stays refused in every continuation that does not prepare its id again |
| `GateState.RestartGate.Acquire` | agent/restart.py:138-143 | a permit is issued and counted exactly while admission is open, with the pending or the empty id |
| `GateState.RestartGate.AcquireChild` | agent/restart.py:145-151 | a child permit is counted even while admission is closed, if its id fits |
| `GateState.RestartGate.ReleaseOne` | agent/restart.py:153-160 | a release uncounts and sets the drained event at zero, or is one of two errors |
| `GateState.RestartGate.BeginCommit` | agent/restart.py:162-171 | the checks of a commit before it waits |
| `GateState.RestartGate.EndCommit` | agent/restart.py:172-179 | the rest of a commit: the request stays committed, or any failure aborts it, sets the event its waiters hold and installs a new one |
| `GateState.RestartGate.Abort` | agent/restart.py:181-190 | a matching abort reopens the gate, sets the event its waiters hold and installs a new one; any other abort changes nothing |
| `GateState.ExternalRootPermit.Release` | agent/restart.py:28-32 | only the first release of a permit reaches the gate |
| `GateState.ExternalRootPermit.Child` | agent/restart.py:34-38 | a released permit has no children; a live one passes its id on |
| `GateRuns.RunsAreSound` | agent/restart.py:90-190 | in every interleaving the permit count is the number of unreleased permits, the drained event is set exactly at zero, no request is pending exactly while the accepting flag is set, every permit carries the empty id, and no commit or waiter sleeps through its event |
| `GateRuns.ReleaseSucceeds` | agent/restart.py:28-32 | so releasing a live permit never raises either error, and taking a child from it is never refused |
| `GateRuns.ShutdownIsFinal` | agent/restart.py:76-101 | after a shutdown request admission stays closed and the first error stays in every continuation, whatever is prepared or aborted |
| `GateRuns.ShutdownIsFirstRequest` | agent/restart.py:76-91 | in every run shutdown is requested exactly if the runtime may execute and somebody asked for it, with the error of the first request |
| `GateRuns.AdmittedExactlyWhileOpen` | agent/restart.py:90-151 | in every run a new root gets a permit exactly while no request is pending and no shutdown took effect; a live permit always yields a child |
| `GateRuns.PreparedExactly` | agent/restart.py:109-190 | in every reachable state a preparation is taken exactly if none is pending and its id is trimmed, for a restart only by a supervised runtime that may execute; its own abort or a failed commit takes it back and nothing else does |
| `GateRuns.AnswersAreHonest` | agent/restart.py:76-171 | in every reachable state a preparation reports success exactly if its own check passes from then on and says why otherwise, a shutdown is accepted exactly by a runtime that may execute, and a commit waits or is told that it is done only for the pending request |
| `GateRuns.NothingWaitsInVain` | agent/restart.py:103-179 | in every reachable state an open gate lets its waiters go, and without live roots a commit for the pending request, or one that was woken, writes its frame |
| `GateRuns.NoLostWakeup` | agent/restart.py:103-107 | in every interleaving a waiter on an unset event holds the current event, no abort came since it captured it, and the gate is closed; a commit that waits is woken once no root is live |
| `GateRuns.DrainedStaysDrained` | agent/restart.py:117-160 | once a request is pending and no root is live, no root becomes live until an abort, although live permits may spawn children |
| `GateRuns.NoCommitWithoutChannel` | agent/restart.py:162-171 | a gate that may not execute, or has no channel, never commits in any interleaving |
| `GateRuns.DisciplinedCommitsAreQuiet` | agent/restart.py:162-190 | if commits of one request never overlap and nobody aborts a request while its commit waits, every commit frame is written while no root is live and no write finds the request committed already |
| `GateRuns.OneFrameBetweenAborts` | agent/restart.py:162-190 | such runs write at most one frame in any stretch without an abort |
| `GateRuns.OneFrameExactlyWithoutRepeat` | agent/restart.py:168-179 | in every interleaving a stretch without an abort holds more than one frame exactly when some commit resumes and writes although the request is committed, which is not checked again after the wait |
| `GateRuns.QuietExactlyWithoutLoud` | agent/restart.py:172-179 | in every interleaving some frame is written over a live root exactly when some commit resumes and writes although the drained event is clear again, which is not checked again either |
| `GateRuns.FirstFrameIsQuietIffDrained` | agent/restart.py:172-179 | the same for the first frame of a run and its write |
| `GateRuns.AbortedCommitStillWrites` | agent/restart.py:172-179 | a run that aborts between wakeup and resumption writes its frame while a root is live |
| `GateRuns.OverlappingCommitStillWrites` | agent/restart.py:172-179 | a run without an abort request, in which one of two overlapping commits fails after the drain and the other then writes over a new root |
| `GateRuns.OverlappingCommitsWriteTwice` | agent/restart.py:162-179 | a run in which two overlapping commits of one request write two frames |
| `ChannelState.SupervisorCommitChannel.CommitOpaque` | agent/restart.py:226-230 | a commit frame goes on the pipe, or the call raises and the pipe is unchanged |
| `ChannelState.SupervisorCommitChannel.SettingsReloaded` | agent/restart.py:232-242 | an answer with its detail cut to 1024 characters goes on the pipe, or the call raises |
| `ChannelState.SupervisorCommitChannel.PublishStage` | agent/restart.py:244-257 | a stripped, non-empty stage name with whole milliseconds |
| `ChannelState.SupervisorCommitChannel.PublishReady` | agent/restart.py:259-270 | a positive pid |
| `ChannelState.SupervisorCommitChannel.WriteFrame` | agent/restart.py:282-288 | a whole line of at most 4096 bytes, newline included, or nothing |
| `Channel.EmitExactly` | agent/restart.py:226-288 | a call puts a frame on the pipe exactly if the name is not blank, the pid positive, or the id neither empty nor led or ended by white space; the frame holds the stripped name and whole milliseconds, the pid, the id, or the success with the first 1024 characters of the detail, in at most 4096 bytes |
| `Channel.StartReturns` | agent/restart.py:244-288 | with an ordinary identity no call of a start raises |
| `Channel.CommitReturns` | agent/restart.py:226-230 | nor a commit with a clean id of up to 3800 plain characters |
| `Channel.LinesOfPrefix` | agent/restart.py:282-288 | any prefix of the output holds whole frames and one unfinished rest: no frame contains a newline |
| `Channel.RuntimeKeepsOrder` | bootstrap/app.py:137-214 | a start with its six stages, one ready, then answers and at most one commit, cut off anywhere, calls the channel in the order the grammar asks |
| `Channel.RuntimeIsAccepted` | bootstrap/app.py:137-214 | so the frames of such a runtime, if its calls return, are accepted, however the pipe cuts them, exactly when every settings detail fits |
| `Channel.RuntimeIsUnderstood` | bootstrap/app.py:137-214 | and then the supervisor knows the last stage and its time, the very pid once ready came, whether a commit came, and every answer in order with the first 1024 characters of its detail |
| `Channel.OrderedIsGrammatical` | agent/restart.py:226-280 | what the channel writes is a sentence of the reader's grammar exactly when it comes in that order and every settings detail fits |
| `Channel.ReaderAcceptsWriter` | agent/supervisor.py:108-199 | what the channel writes is accepted, however the pipe cuts it, exactly when it comes in that order and every settings detail fits the reader's bound; no stage, ready or commit frame is refused for what it holds |
| `Channel.EarlyCommitIsRefused` | kirakira_agent/_upstream_main.py:391-397 | a commit written before ready, which a settings restart does not wait for, spoils the stream |
| `Channel.EscapingBoundsUtf8` | agent/restart.py:282-288 | twice the UTF-8 length of a text is at most its escaped length plus its plain characters |
| `Channel.FewPlainFits` | agent/supervisor.py:188-199 | with a boot id of 32 characters, a written detail with at most 100 plain characters is within the reader's bound |
| `Channel.LongDetailIsWrittenButRefused` | agent/restart.py:232-242 | the two bounds disagree: 400 letters and 590 ideographs are written and refused |
| `Lifecycle.DecimalReadsBack` | agent/restart.py:282-288 | the digits of every integer read back |
| `Json.CharactersReadBack` | agent/restart.py:282-288 | every text without lone surrogates reads back from its escaped form (section 7 of RFC 8259) |
| `Json.CallReadsBack` | agent/supervisor.py:127-148 | with the decoder of `Json` the line a call writes is an object that holds the boot id, the type and what the call said, and nothing else |
| `Json.RuntimeArrives` | bootstrap/app.py:137-214 | with this decoder the frames of a runtime are accepted and understood as above, without any assumption about decoding |
| `BridgeState.SettingsRestartBridge.constructor` | agent/supervisor.py:205-214 | nothing requested, nothing completed, an empty wake pipe |
| `BridgeState.SettingsRestartBridge.RequestReload` | agent/supervisor.py:219-225 | a request gets the next number, sets the flag and writes one wake byte; a full pipe raises after the flag is set |
| `BridgeState.SettingsRestartBridge.CollectResult` | agent/supervisor.py:226-233 | a waiter pops the completion of its own number, or times out |
| `BridgeState.SettingsRestartBridge.TakeRequest` | agent/supervisor.py:235-242 | the newest request, clearing the flag and the wake pipe together, or zero |
| `BridgeState.SettingsRestartBridge.DrainWake` | agent/supervisor.py:622-628 | reads until the pipe is empty |
| `BridgeState.SettingsRestartBridge.CompleteRequest` | agent/supervisor.py:249-252 | records the outcome of one number |
| `BridgeRuns.RunsAreSound` | agent/supervisor.py:219-252 | in every interleaving the request flag is set exactly while the wake pipe is non-empty, takes strictly increase, the newest request is pending or was taken last, and a waiter succeeds or is refused only by a completion of its own number that said so |
| `BridgeRuns.TakesTheNewest` | agent/supervisor.py:235-242 | a take after any wakeup yields the newest request, larger than all before |
| `BridgeRuns.VerdictsReachWaiters` | agent/supervisor.py:226-252 | in every interleaving a waiter whose number was settled resumes with the last outcome of that number and takes it away, even late; one without an outcome times out |
| `BridgeRuns.RequestsAreNeverLost` | agent/supervisor.py:219-242 | in every interleaving a request gets the next number and is pending, even if the full wake pipe makes it raise, and the next take takes it |
| `SupervisorState.TakeData` | agent/supervisor.py:501-516 | a chunk is fed; an answer settles the outstanding request, or is an error if there is none or more than one answer |
| `SupervisorState.TakeWake` | agent/supervisor.py:521-533 | a wakeup takes the newest request, which replaces an outstanding one; a gateway that is gone is an error, and a signal that raises leaves the wait |
| `SupervisorState.TakeEvents` | agent/supervisor.py:498-533 | one batch of events in order, left early by an exception or a gateway that is gone |
| `SupervisorState.TakeReady` | agent/supervisor.py:535-555 | a first ready frame gains the signal right and settles the reload owed from the boot before as done; a foreign pid is refused and drops the commit evidence; a process that cannot be opened leaves the wait |
| `SupervisorState.TakeTurn` | agent/supervisor.py:486-555 | one pass of the wait loop, with the start deadline before ready |
| `SupervisorState.SelectLoop` | agent/supervisor.py:486-555 | the wait loop until the guardian has exited or the boot has failed |
| `SupervisorState.LeaveChild` | agent/supervisor.py:557-560 | the exit drain of a healthy open pipe, then a reload still owed is settled as failed |
| `SupervisorState.WaitChild` | agent/supervisor.py:456-574 | the whole wait and the result it hands to the boot loop |
| `SupervisorState.AfterBoot` | agent/supervisor.py:419-442 | the decision after one boot: return, restart with the reload in hand, or roll back on a new request |
| `SupervisorState.RunSupervisor` | agent/supervisor.py:318-442 | goes from boot to boot, each starting from what the one before handed over, and returns the code or exception of the first boot that does not lead to another |
| `Outcomes.HistoryIsBoots` | agent/supervisor.py:318-442 | those boots are a run in the sense of the theorems below |
| `Outcomes.HistoryIsMaximal` | agent/supervisor.py:318-442 | they play the scripts one after the other and end with them or with the first boot that does not lead to another |
| `Supervisor.ExitCodes` | agent/supervisor.py:421-442 | the supervisor never returns the restart code 75 itself, and returns 0 only for a stop or a child that exited with 0 |
| `Outcomes.EveryBootDecides` | agent/supervisor.py:412-442 | how a boot ends, for every script and hand: 0 for a stop, an exception, 70 for a refused stream; otherwise a restart on complete evidence, which hands the open reload on; otherwise an open reload fails, and a request that is pending or still arrives rolls back with the newest number; otherwise the code of the child, with 70 for 75 and 128 plus the signal for a negative one |
| `Outcomes.LastBootDecides` | agent/supervisor.py:318-442 | a supervisor comes to what the last boot of its history comes to: it raises exactly if the wait of that boot raised, and returns 0 for a stop, 70 for a refused stream, and otherwise the code that reports its child |
| `Outcomes.RollbackExactly` | agent/supervisor.py:424-442 | over whole runs a boot is followed by a rollback exactly when, without a stop, an error or complete evidence, it left a reload open and another request was there; the next boot owes that request |
| `Outcomes.WaitPassesExactly` | agent/supervisor.py:486-555 | the wait loop ends without an error exactly when no pass is past the deadline before ready, every chunk is taken without an error and brings an answer only to an outstanding request, the pipe ends after a whole line, every pending request is signalled, and a new ready frame names a process of this boot |
| `Outcomes.LateBootIsRefused` | agent/supervisor.py:488-496 | a boot past its deadline before ready is refused with what it said so far, and the supervisor returns 70 |
| `Outcomes.StrangerIsRefused` | agent/supervisor.py:538-548 | a ready frame with a foreign pid is refused and its commit evidence dropped, whether a reload is owed or not; a process that cannot be opened raises |
| `Outcomes.UnsentSignalEndsBoot` | agent/supervisor.py:521-533 | a pending request is taken even if its signal fails: a gateway that is gone ends the boot with 70, a signal that raises with its exception |
| `Handshake.TurnsTrack` | agent/supervisor.py:486-555 | while the reader is healthy its state is that of one feed of all bytes read so far, apart from answers already settled |
| `Handshake.DrainTracks` | agent/supervisor.py:557-558 | the same after the exit drain |
| `Handshake.RestartIsTrusted` | agent/supervisor.py:412-442 | a boot that follows another without a rollback follows exit code 75 and an error-free stream with exactly one ready and, after it, exactly one commit, both of that boot and the commit with its nonce |
| `Handshake.RestartExactlyOnEvidence` | agent/supervisor.py:412-442 | and a boot is followed by a restart exactly when it exited with 75, nobody asked to stop, the wait saw no error, and its stream is of that kind |
| `Evidence.BootIsHealthyExactly` | agent/supervisor.py:486-609 | a wait ends without an error exactly when every pass of its loop goes on, what is left at the exit is within 65,536 bytes, and all that the pipe held is clean up to its end; then every byte of it was read |
| `Evidence.RestartExactlyOnScript` | agent/supervisor.py:412-442 | so a restart is decided by the script alone |
| `Evidence.SignalsExactlyWhenReady` | agent/supervisor.py:538-555 | a healthy wait may signal the gateway exactly when it has seen its ready frame |
| `Evidence.WakeTakesTheNewest` | agent/supervisor.py:521-533 | a wake event takes the newest of all requests made so far and clears the bridge; without a request it changes nothing |
| `Evidence.AnswersAreSettled` | agent/supervisor.py:501-516 | while a wait is healthy, the answers in its stream are, in order, its settlements, apart from that of the reload it owed |
| `Evidence.BridgeTellsTheLog` | agent/supervisor.py:249-252 | over whole runs the bridge holds for each reload the outcome of its last settlement |
| `QuietRestart.TrustedCommit` | agent/supervisor.py:173-186 | when the stream is a prefix of what the channel wrote, the commit evidence is the first commit frame written |
| `QuietRestart.RestartFollowsFirstFrame` | agent/restart.py:162-179 | end to end: that commit frame is the first its gate wrote, and was written over no live root exactly when its write found the drained event set |
| `QuietRestart.RestartIsQuiet` | agent/restart.py:162-179 | so in gate runs without overlapping commits or aborts of a waiting one it was written when no external root was live |
| `QuietWitness.QuietRun` | agent/restart.py:162-179 | one run meets all of these hypotheses, with a root live when the restart is prepared |
| `Settings.BootPasses` | agent/supervisor.py:419-574 | one boot keeps the ledger of reloads in order, and settles a reload both ways only if it confirms one handed on as failed |
| `Settings.EveryReloadIsAccountedFor` | agent/supervisor.py:318-442 | over whole runs taken numbers strictly increase, only a taken one is settled, and each is settled, superseded by a later take, handed to the next boot, or left open by a supervisor that has returned |
| `Settings.OneOutstanding` | agent/supervisor.py:486-570 | the reload a boot owes and a fresh request are never both outstanding at its end |
| `Settings.CausesDecide` | agent/supervisor.py:538-570 | a boot restarts although it settled the reload it owed as failed exactly when it owed one, its wait loop had not seen the ready frame, and its drained stream is complete evidence; it settles the reload as done exactly when its wait loop saw the ready frame with a pid of this boot |
| `Settings.MixedExactlyWhenLateThenConfirmed` | agent/supervisor.py:557-570 | over whole runs some reload is settled both as failed and as done exactly when a boot of the first kind is followed by one of the second |
| `SettingsWitness.OneReloadBothWays` | agent/supervisor.py:557-570 | such a run exists: three boots settle one reload as failed and then as done |
| `Settings.AnswerIsCreditedToTheNewest` | agent/supervisor.py:505-516 | answers carry no number: if a second request is taken before the first is answered, the answer settles the second and not the first |
| `Settings.SupersededIsNeverSettled` | agent/supervisor.py:318-574 | over whole runs every settlement goes to the newest number taken before it, so a superseded reload is never settled again |
| `ClientsState.HttpClients.constructor` | bootstrap/web_shell.py:88-91 | a new pool is empty |
| `ClientsState.HttpClients.RetireWithdrawn` | bootstrap/web_shell.py:96-99 | clients of endpoints that are no longer published move from current to retired |
| `ClientsState.HttpClients.CloseIdle` | bootstrap/web_shell.py:100-103 | retired clients without a request are closed once and forgotten; the first close that fails ends the loop and leaves the rest retired |
| `ClientsState.HttpClients.Publish` | bootstrap/web_shell.py:93-103 | an update retires, then closes what is idle; if no close fails the pool is safe afterwards whatever failed before |
| `ClientsState.HttpClients.Open` | bootstrap/web_shell.py:106-120 | a borrow yields the current client of the endpoint or a new one, counted once more |
| `ClientsState.HttpClients.Return` | bootstrap/web_shell.py:121-129 | a return uncounts, and closes a retired client with its last request; a close that fails leaves it retired |
| `Clients.UpdateSafe` | bootstrap/web_shell.py:93-103 | an update keeps every client in exactly one place and leaves no idle client retired, even after closes that failed |
| `Clients.UpdateWithdraws` | bootstrap/web_shell.py:93-103 | an update keeps exactly the clients of endpoints that are still published; a withdrawn one is closed if nobody borrows it and stays retired otherwise, and so does every client retired before |
| `Clients.UpdateDecidesCurrent` | bootstrap/web_shell.py:93-120 | over runs, after an update a client is current only if its endpoint was current and published, or a later borrow opened it |
| `Clients.BorrowKept` | bootstrap/web_shell.py:106-120 | a borrow keeps the pool in order and never yields a retired or closed client |
| `Clients.GiveBackKept` | bootstrap/web_shell.py:121-129 | a return keeps the pool in order, also when its close fails |
| `Clients.RunsAreKept` | bootstrap/web_shell.py:85-129 | in every order of updates, borrows and returns, and whatever close fails, each count equals the open borrows, a borrowed client is open, every created client is in exactly one of current, retired and closed, and none is closed twice |
| `Clients.RunsAreSafe` | bootstrap/web_shell.py:85-129 | if no close fails, every retired client has a positive count between operations |
| `Clients.NothingLeaks` | bootstrap/web_shell.py:93-129 | when all borrows are returned and an update succeeds, exactly the clients that are not current have been closed, once each |
| `Paths.UnquoteHas` | bootstrap/web_shell.py:419-421 | for a character that is no percent sign or hexadecimal digit, decoding yields it exactly where it stood or was encoded, and more often exactly when it was encoded |
| `Paths.UnquoteDecodes` | bootstrap/web_shell.py:421 | decoding turns a percent sign and two digits out of `0123456789abcdef` or `0123456789ABCDEF` into their octet, for every octet, and keeps everything else (section 2.1 of RFC 3986) |
| `Paths.EncodedEverywhere` | bootstrap/web_shell.py:418-419 | searching the lowered text for `%2f` and `%5c` finds exactly the encoded slashes and backslashes |
| `Paths.UnquoteCommutes` | bootstrap/web_shell.py:421 | without an encoded slash, percent-decoding bytes commutes with splitting on slashes (sections 2.1 and 3.3 of RFC 3986) |
| `Paths.DotsCommute` | bootstrap/web_shell.py:421 | decoding UTF-8 with replacement neither makes nor hides a dot segment |
| `Paths.Utf8ReadsBack` | bootstrap/web_shell.py:421 | text that can be encoded is decoded to itself (section 3 of RFC 3629) |
| `Paths.MalformedIsReplaced` | bootstrap/web_shell.py:421 | where no encoding begins, one U+FFFD stands for the longest part that begins an encoding, or for one byte |
| `Paths.RemovalIsIdentity` | bootstrap/web_shell.py:421-422 | remove_dot_segments (section 5.2.4 of RFC 3986) leaves a slash-led path as it is exactly when no segment is a dot segment |
| `Paths.AcceptsExactlyCanonical` | bootstrap/web_shell.py:412-423 | the test accepts, unchanged, exactly the ASCII paths with one leading slash whose decoding makes no backslash and no further slash and is a fixed point of remove_dot_segments |
| `Paths.AcceptsExactlyPlain` | bootstrap/web_shell.py:412-423 | letter by letter: accepted are exactly the ASCII paths with one leading slash, no backslash, no `%2f` or `%5c` in any case, and no segment spelled as a dot segment with plain, `%2e` or `%2E` dots |
| `Paths.AcceptedStaysPut` | bootstrap/web_shell.py:412-423 | the segments of an accepted path decode one by one to those of the decoded path, and remove_dot_segments is the identity on the raw, the decoded and the text form |
| `Routing.ExtendsIsSegmentPrefix` | bootstrap/web_shell.py:432 | being equal to or continued by a slash is being a prefix segment by segment |
| `Routing.ServesIsSegmentPrefix` | bootstrap/web_shell.py:432 | the textual test of a route is the test that its segments begin the path's |
| `Routing.TiesAreIdentical` | bootstrap/web_shell.py:428-434 | two routes that serve one path are equally long only if they are the same, and longer exactly when they have more segments |
| `Routing.Chosen` | bootstrap/web_shell.py:428-434 | the endpoint chosen has a matching route, nobody has a longer one, and nobody published earlier has one as long |
| `Routing.NoMatches` | bootstrap/web_shell.py:428-434 | there is no match exactly when no HTTP endpoint has a matching route |
| `Routing.RoutingIsSegmentWalk` | bootstrap/web_shell.py:426-434 | for slash-led routes the choice is that of a walk up from the whole path to the deepest prefix of its segments that some HTTP endpoint owns, the first published of several |
| `Routing.NoTiesInAPlan` | agent/plugin_composition/endpoints.py:108-110 | in a plan without repeated routes a tie is one route of one endpoint |
| `Routing.RequestsFollowTheirSegments` | bootstrap/web_shell.py:302-307 | an accepted request is routed by the segments it arrived with, each decoded on its own |
| `Relay.RelayWhileAdmitted` | bootstrap/web_shell.py:371-409 | the loop ends at the first denial with 1008, at the first failure that completes 30 seconds of failures only with 1013, telling a browser that is still connected, and otherwise with the relay and its exception |
| `Relay.EndIsUnique` | bootstrap/web_shell.py:377-393 | there is exactly one such end, so it closes exactly when it has to |
| `Relay.AnswersDecide` | bootstrap/web_shell.py:377-393 | at a round that is reached, a missing route or an answer below 500 closes with 1008, an endpoint never closes, and an unreadable plan or a server error after any other round does not close |
| `Relay.OneFailureNeverCloses` | bootstrap/web_shell.py:385-390 | a failure that follows another answer closes nothing |
| `Relay.UnconfirmedIsBounded` | bootstrap/web_shell.py:377-393 | with waits of at most 5 s and rechecks of at most D, any round reached is over less than 35 s + D after the first failure of its outage and less than 40 s + 2D after the last confirmation, whatever the outcomes |
| `Relay.OutageIsClosed` | bootstrap/web_shell.py:390-393 | failures that span the grace end the loop |
| `Relay.BoundIsSharp` | bootstrap/web_shell.py:377-393 | runs come as close to 40 s + 2D as one likes |
| `McNemar.CombIsQuotient` | eval/significance.py:49 | Pascal's rule gives the factorial quotients of the library function |
| `McNemar.TailCounts` | eval/significance.py:49 | the sum of coefficients counts the falls of n coins with at most t heads |
| `McNemar.TwiceTail` | eval/significance.py:49-50 | for unequal counts twice the lower tail counts exactly the falls at least as uneven, for equal ones it exceeds all falls by the middle coefficient |
| `McNemar.PIsChance` | eval/significance.py:37-50 | for all counts p is the exact two-sided chance under fair coins, and lies in (0, 1] |
| `McNemar.ClampActsOnTies` | eval/significance.py:50 | the minimum with one changes the result exactly for equal positive counts |
| `McNemar.SymmetricOrRefused` | eval/significance.py:37-50 | p does not depend on the order of the systems, and only negative counts are refused |
| `McNemar.OneMoreWin` | eval/significance.py:37-50 | one more win for the side ahead strictly lowers p, and one that breaks a tie leaves it at one |
| `McNemar.LargerCountLowersP` | eval/significance.py:37-50 | with the smaller count fixed p never rises as the larger grows |
| `McNemar.WiderGapLowersP` | eval/significance.py:37-50 | at a fixed number of disagreements a wider gap strictly lowers p |
| `McNemar.SixDisagreements` | eval/significance.py:53-69 | a separating verdict on the unrounded p needs six disagreements, and the one-sided split of n separates exactly from n = 6 on |
| `Wilson.BoundsAreScoreSet` | eval/significance.py:30-34 | centre and half width enclose exactly the p with total (p - phat)^2 <= z^2 p (1 - p) |
| `Wilson.IntervalIsScoreSet` | eval/significance.py:19-34 | the function returns exactly that set; it contains phat, lies in [0, 1], and the clamps change nothing |
| `Wilson.NoQuestions` | eval/significance.py:19-27 | without any question every share is possible, and only a count outside the total is refused |
| `Wilson.Reflects` | eval/significance.py:19-34 | counting wrong answers mirrors the interval |
| `Wilson.LargerZEncloses` | eval/significance.py:19-34 | a larger z encloses the interval of a smaller one |
| `Pooling.LastRowWins` | eval/pool_reports.py:37-39 | a score exists exactly when the system has a row for the question and is that of its last row |
| `Pooling.LastCategoryWins` | eval/pool_reports.py:92 | a question has the category of its last row |
| `Pooling.WhatIsDropped` | eval/pool_reports.py:91-118 | a question is answerable unless its last row calls it an abstention, and dropped if any of its rows has an error; each such row is counted |
| `Pooling.CellsPartition` | eval/significance.py:53-64 | the four cells partition the paired questions, and the difference of the correct totals is that of the disagreements |
| `Pooling.CompareNeverRefuses` | eval/pool_reports.py:54-71 | neither statistic refuses the counts; p is the chance of the disagreements, which separate exactly below 0.05 and need to be six; the reported difference is that of the two shares, its margins span 2 * 1.96 times the root of the disagreements over the questions, and the reported interval is the score set of the first share, or everything without questions |
| `Pooling.Pool` | eval/pool_reports.py:74-123 | stops at the first report without rows, or at the first that shares questions, naming the earliest report it shares with and how many; otherwise all reports are pairwise disjoint and the result is that of all rows together |
| `Pooling.FirstOverlap` | eval/pool_reports.py:79-84 | the earliest run that shares a question |
| `Pooling.ByCategory` | eval/pool_reports.py:98-102 | one comparison per category, over its questions only |
| `Pooling.WithoutIds` | eval/pool_reports.py:88-89 | the question sets are taken out of the entries and nothing else changes |
| `Pooling.PoolingAddsRuns` | eval/pool_reports.py:74-119 | every paired count over all questions is the sum of that count over the runs |
| `Pooling.EachQuestionOnce` | eval/pool_reports.py:76-87 | the question counts of the runs add up to the number of distinct questions |
| `Pooling.CategoriesAdd` | eval/pool_reports.py:96-120 | the counts of the categories add up to those over all questions, and without abstention to the answerable ones |
| `Pooling.ExclusionSplits` | eval/pool_reports.py:116-118 | dropping the questions with a transport failure removes exactly their counts |
| `Pooling.UnpairedIsTheRest` | eval/pool_reports.py:94-107 | every answered question is paired or counted as answered by one system only |
| `Pooling.FailuresAreReported` | eval/pool_reports.py:85-112 | the report lists every run with its path and the number of its questions, and counts the questions and the rows of all runs that failed |

## Assumptions and results to know

- The source does not recheck a commit after its wait, and two commits of one request can pass the same check. Exactly
  what goes wrong is `GateRuns.OneFrameExactlyWithoutRepeat` and `GateRuns.QuietExactlyWithoutLoud`.
  `GateRuns.DisciplinedCommitsAreQuiet` and `QuietRestart.RestartIsQuiet` assume instead that commits of a request do
  not overlap and that nobody aborts it while it waits. Neither assumption can be dropped:
  `GateRuns.AbortedCommitStillWrites` aborts a waiting commit without any overlap, and
  `GateRuns.OverlappingCommitStillWrites` overlaps two commits without any abort request; both write over a live root.
  `GateRuns.OverlappingCommitsWriteTwice` shows the second frame.
- A commit is accepted only after ready. The handler of the settings restart
  (kirakira_agent/_upstream_main.py:391-397) waits for the core, not for ready, so its commit may come too early;
  `Channel.RuntimeIsAccepted` assumes that it does not, and `Channel.EarlyCommitIsRefused` says what happens if it does.
- "No reload is settled both as failed and as done" is false of the source. A boot that owes a reload, writes ready and
  commit and exits with 75 before the loop sees its ready frame settles the reload as failed when it leaves and still
  hands it to the next boot, which settles it as done. `Settings.CausesDecide` and
  `Settings.MixedExactlyWhenLateThenConfirmed` give the exact condition, `SettingsWitness.OneReloadBothWays` the run.
- `Settings.AnswerIsCreditedToTheNewest` and `Settings.SupersededIsNeverSettled` show what follows from answers without
  a number.
- The comment at bootstrap/web_shell.py:36-37 gives about 45 seconds as the longest relaying without a confirmation,
  with a guard timeout of 10 seconds. Counted from the first failed recheck that is the bound proved; counted from the
  last confirmation the bound is 60 seconds, and `Relay.BoundIsSharp` shows that nothing less holds.
- The reader takes its decoder as a parameter. `QuietRestart.RestartIsQuiet`, `Channel.ReaderAcceptsWriter` and
  `Channel.RuntimeIsUnderstood` assume that it reads back the frames the channel wrote, which `Json.DecodeInverts` proves
  of the decoder of `Json`; no other property assumes anything about it.
- `Relay.RelayWhileAdmitted` assumes a clock that never runs backwards, which the monotonic clock promises.

## Left out

- JSON decoding in general: the decoder is a parameter that returns a value, one of the two caught errors, or an exception; `Json` decodes objects of strings, natural numbers and booleans without white space, which is what the channel writes.
- Process, signal and pipe effects of the supervisor (`Popen`, `flock`, pidfds, cleanup of boot processes): waits return scripted events instead.
- Freshness of boot ids and nonces: each boot of a script carries its own.
- SupervisorState.RunSupervisor: the bridge is shared with web threads only through the numbers of requests that arrive between two looks at it, because the threads' own steps are covered by `BridgeRuns`.
- `wait_drained` and `wait_shutdown` of the gate: they wait for events that the model has, and change nothing.
- Timeouts of asyncio: a commit whose wait fails is a step that may come at any time.
- ChannelState.SupervisorCommitChannel.PublishStage: the clock is a parameter; truncation and floor agree because elapsed time is not negative.
- Short writes to the pipe: a frame of at most 4096 bytes is written whole or not at all.
- The final `aclose` of the pool, use after it, and a cancellation while a return waits for the lock.
- HTTP and WebSocket transport, header filtering, error pages, and the guard's own verdict: an admission is one of an endpoint, a response, no route, or an unreadable plan; another exception out of a recheck is not modelled.
- Other checks of a published endpoint plan than that routes are slash-led and not repeated.
- Floating-point rounding and the rounding of reported numbers: the statistics are over integers and reals.
- Wilson.IntervalIsScoreSet: the square root is a parameter, any non-negative real whose square is the radicand; `Pooling` takes a function for it.
- Pooling.Pool: the order in which categories are listed is not kept; rows without a question id, system or category, and files that cannot be read, are not modelled.
- Evaluation harnesses, corpora, and the start-up plumbing of the runtime, beyond the order in which it emits frames.
