# mtest, verified

A Dafny model of the parts of mtest that are hardest to get right, with proofs about them.

* **The exec adapter** (`native/mtest_exec_native.c`): a process supervisor kept as mutable state. `Adapter.dfy` is
  one class whose methods are the ABI calls and which holds the slot array, the runtime latch, the signal flags and
  the token counter, any capacity. Around it stands a kernel: process table, process groups, descriptors, signal
  dispositions. `World.dfy` gives the state as one value with its invariant, `Steps.dfy` proves that every single
  step keeps it, `OpenStages.dfy` follows an open through its stages, and `Histories.dfy` proves what holds over any
  sequence of calls. `Polling.dfy`, `SetupProtocol.dfy`, `ExecSearch.dfy`, `LaunchPlan.dfy` and
  `InterruptCounter.dfy` cover polling, the byte protocol of a child that fails before its exec, the child's own
  region, the environment and PATH builders, and the interrupt handler.
  What pipe, fcntl, fork, setpgid, kill, waitid, waitpid, read, close, sigaction and the clock answered is recorded in
  order in ghost state, so that a contract can say that a call was made, when, and what followed from its answer;
  `Answers.dfy`, `AbortAnswers.dfy` and `OpenAnswers.dfy` say what may be read off such a record.
* **The post-fork audit** (`scripts/checks/postfork.py`), in `PostforkAudit.dfy`.
* **The canary** (`scripts/canary/run.py`), in `CanaryVerdicts.dfy` and `Canary.dfy`; `CanaryDays.dfy` tells the verdict
  of a day from its last step.
* **The stop-commands fences** (`scripts/formats/annotations.py`), in `Fences.dfy`.
* **The SAFETY-comment gate** (`scripts/checks/safety.py`): stripping in `SafetyLexer.dfy` and, as laws about the text,
  in `SafetyLiterals.dfy`, coverage over lines in `SafetyCoverage.dfy`, both over characters, with the splitting of
  `TextLines.dfy`, in `SafetyText.dfy`, the ten patterns in `SafetyCandidates.dfy`, single lines by their characters in
  `SafetyLines.dfy`, and texts it misjudges in `SafetyShift.dfy`.

`dafny verify dfyconfig.toml` checks everything.

## The kernel contract

A system call's contract leaves its answer open, and callers use nothing but the contract. The bodies of the
`System...` methods only show that the contract can be met (some of them by always failing; `PipeCanSucceed` and
`ForkCanSucceed` show that success is possible in every state). What is assumed:

* a failing `sigaction` changes nothing; `close` always consumes the descriptor;
* only the adapter reaps its children, so `waitpid` never answers ECHILD for an unreaped one;
* the child of a fork leads a new group from the start, and while a leader is unreaped its number names its own group;
* a delivered SIGKILL leaves no member of a group able to run, and ESRCH says there is none; only a member that can
  run can put a new process into its group;
* on Darwin, a complete snapshot that shows only zombies is believed;
* an answer that a leader is waitable means that it is a zombie;
* each wait between two looks at a leader moves the clock by at least a millisecond;
* the host changes its own signal dispositions only while the runtime is closed, and never to mtest's own handler.

Calls that are retried on EINTR are one step together with their retries.

## What the proofs turned up

* A failed close at the end of the setup pipe makes the next drain call a well-formed failure record corrupt
  (`VerdictIsTheByteString` says exactly when, `FailedCloseLosesTheRecord` gives the run).
* An installed flag is set exactly when the kernel holds mtest's disposition, except where the host's own
  disposition is the same one; a host that leaves SIGCHLD at its default looks installed before any open.
* A close of the runtime can fail with the runtime OPEN and no child left: exactly if no child is left but a look at a
  leader or a clock reading failed or TERM was refused during one of its aborts (`RuntimeClose`, by `CloseAnswered`;
  `CloseCanEndOpen` gives the states and the answers between them). Nothing is restored then.
* An abort whose first clock reading is zero has no grace period, as if the clock had failed; an unseen leader gets one
  after any other reading (`GraceIsExact`).
* An end-to-end suite killed after printing exactly the tolerated roster is not a timeout to the canary
  (`KilledSuiteDay` is a day that ends in a pass). The timeout verdict is exact if and only if no killed command
  printed such a roster (`TimeoutIsExact`).
* The SAFETY gate indexes the lines of a text by those of its stripped form. They are the same lines exactly if no
  line end other than a newline stands in a literal or a comment, the end of the text apart (`SameLines`). Below one
  that does, the gate looks too far up (`CodeLineInText`) and passes, for one, any unsafe operation in a certain place
  that is not documented (`CoveredWithoutComment`, `ScanFree`); above the first such line end its verdict is that of
  the text (`CoverageInText`).
* A fence whose token is an annotation kind keeps its closing line in the extracted tail
  (`TokenCanBeAnAnnotation`); a log the fencing check accepts has no such fence.

## Model

| member | source | states |
|---|---|---|
| Kernel.EventsInterfere | native/mtest_exec_native.c:2220-2225 | however members fork, exit and are reaped by others, no child of the adapter is reaped behind its back and a group without a runnable member never gets one |
| Kernel.PipeCanSucceed | native/mtest_exec_native.c:1421-1432 | the contract of pipe can be met by success in every state |
| Kernel.ForkCanSucceed | native/mtest_exec_native.c:1700-1705 | so can the contract of fork |
| World.EvolvesTransitive | native/mtest_exec_native.c:88-93 | what one call may do to a held, wedged or stuck child composes over calls |
| Steps.InterferenceKeeps | native/mtest_exec_native.c:2195-2260 | the whole invariant survives anything the outside world does between two steps |
| Steps.SignalKeeps | native/mtest_exec_native.c:2124-2141 | a signal through the number of an unreaped child keeps the invariant, stray-signal counter included |
| Steps.CloseChannelKeeps | native/mtest_exec_native.c:557-571 | clearing the field and closing keeps descriptors and slot fields in exact correspondence and closes nothing twice |
| Steps.ReapKeeps | native/mtest_exec_native.c:2326-2364 | reaping an observed leader keeps the invariant: children are again exactly the unreaped leaders, and no other slot's leader is touched |
| Steps.FreeKeeps | native/mtest_exec_native.c:2370-2378 | releasing a reaped, swept slot with closed channels keeps the invariant and records its group as dead |
| Steps.ForkKeeps | native/mtest_exec_native.c:1721-1722 | recording a forked child keeps the invariant; its group differs from that of every child held or released |
| Steps.PublishKeeps | native/mtest_exec_native.c:1754-1764 | moving the read ends and the next token into the record keeps descriptors conserved and serials distinct |
| Steps.SessionSettled | native/mtest_exec_native.c:1036-1235 | a signal transaction that ends CLOSED has every disposition back at the host's, one that ends OPEN holds all four with the originals saved |
| Adapter.Adapter.constructor | native/mtest_exec_native.c:94-121 | the zero-initialised adapter meets the invariant, closed, with every slot free |
| Adapter.TokenAfter | native/mtest_exec_native.c:1760-1764 | incrementing a 64-bit token and skipping zero is counting modulo 2^64 - 1 |
| Outcomes.NextToken | native/mtest_exec_native.c:1760-1764 | the successor of the n-th token is the (n+1)-th, wrapping after 2^64 - 1 |
| Adapter.Adapter.FromHandle | native/mtest_exec_native.c:1592-1611 | the lookup returns the first active slot with that token, -1 for zero and for tokens nobody holds |
| Adapter.Adapter.FirstLiveHandle | native/mtest_exec_native.c:992-1006 | zero only if no slot is published, otherwise a token the lookup finds |
| Adapter.Adapter.RuntimeSettle | native/mtest_exec_native.c:1020-1030 | CHILD_ACTIVE if any slot is active, OPEN otherwise, nothing else changed |
| Adapter.Adapter.ClaimSlot | native/mtest_exec_native.c:966-980 | claims the first free slot, or reports that all are active |
| Adapter.Adapter.Relocate | native/mtest_exec_native.c:1392-1419 | the end is above the standard descriptors or unchanged, and whatever happens exactly the returned descriptor is open in place of the given one |
| Adapter.Adapter.PreparePipe | native/mtest_exec_native.c:1421-1455 | two new distinct descriptors above 2 after calls none of which was refused, or no descriptor more than before and a diagnostic with the operation and the error number of the first call that was |
| Adapter.Adapter.PreparePipes | native/mtest_exec_native.c:1688-1696 | six new distinct descriptors above 2, or none of those made on the way, and then the first refusal is reported |
| Adapter.Adapter.ReapUnpublished | native/mtest_exec_native.c:1731-1748 | a child killed during open is reaped and leaves no trace, or its slot stays claimed without a token |
| Adapter.Adapter.PublishChild | native/mtest_exec_native.c:1754-1769 | the slot holds the new child with the next token and the three read ends, nothing is left in local variables |
| Adapter.Adapter.ProcessOpen | native/mtest_exec_native.c:1641-1770 | with a plan, a free slot and an open runtime every answer is accounted for in order, and success comes exactly if pipes and fork were not refused and setpgid was not or only with EACCES, ESRCH or EPERM; success fills the first free slot with a live unreaped child; failure leaves slots, latch, tokens and descriptors as they were, except the one failure whose child could not be reaped; the only signals sent are the two kills of a failed setpgid |
| OpenAnswers.OpenByTheAnswers | native/mtest_exec_native.c:1641-1770 | such an open succeeds exactly if no answer refuses it: a pipe, a copy, a flag, the fork or the close of an end being moved failed, or setpgid answered another number than 0, 1, 3 and 13; a success forked a child and set its group; a failure reports the operation and the number of the first answer that refuses, and as its cleanup what the collection of the killed child answered |
| Adapter.Adapter.ProcessRead | native/mtest_exec_native.c:1948-2002 | bad arguments and a closed channel read nothing; otherwise the call reports what the one read made on that channel answered, data fits the buffer, and end of file closes exactly that channel and reports what that close answered |
| Adapter.Adapter.ProcessSetupDrain | native/mtest_exec_native.c:2020-2087 | one drain is one step of the setup protocol on that child's pipe and touches nothing else of the slot; it stops only where its last answer says so, with that answer's error, and at the end of the pipe succeeds exactly if the close does |
| Adapter.Adapter.ProcessChannelClose | native/mtest_exec_native.c:2089-2112 | closes exactly that channel, whatever close answers, and reports that answer; closing a closed channel changes nothing |
| Adapter.Adapter.KillGroup | native/mtest_exec_native.c:2204-2251 | sends that signal and no other, once except for the bounded Darwin retries, each after a refusal; a delivered kill, ESRCH or a proven all-zombie group mean that no member can run |
| Adapter.Adapter.ProcessGroup | native/mtest_exec_native.c:2263-2283 | refused on a reaped leader; otherwise exactly that signal goes to that group, and the last answer decides: success exactly if it was accepted, the state gone exactly on ESRCH, the group marked swept exactly by a kill or when no member can run, and otherwise an error with that answer's number |
| Adapter.Adapter.ProcessObserve | native/mtest_exec_native.c:2285-2324 | reports what the one waitid made on the leader answered; observed is set exactly when that is waitable, stays set, and needs no call once set |
| Adapter.Adapter.ProcessReap | native/mtest_exec_native.c:2326-2364 | refused unless observed and unreaped; otherwise reports the one waitpid made on the leader, and reaped is set exactly on success |
| Adapter.Adapter.ProcessClose | native/mtest_exec_native.c:2380-2393 | frees exactly the slots that are reaped, swept and closed, settles the latch, and is EBUSY without effect for others |
| Adapter.Adapter.GraceWait | native/mtest_exec_native.c:2438-2456 | does nothing, not even a look, if the leader was seen before or the start reading is zero; otherwise looks at that leader first, at nothing but it and the clock, up to the first answer that ends the grace period; seen exactly if that answer says waitable, silent exactly if no look or reading failed |
| Adapter.Adapter.SweepAndReap | native/mtest_exec_native.c:2457-2500 | kills the group unless it was swept, then the leader unless it was seen, then collects it; the leader is reaped exactly if the last answer says so, and otherwise the cleanup diagnostic is that answer, unless there was one before |
| Adapter.Adapter.ProcessAbort | native/mtest_exec_native.c:2395-2516 | the slot is freed, reaped and swept, or kept with channels closed and the leader in the reaped state it had; every answer is accounted for in order: the closes, TERM, the first clock reading, the grace period, force; freed exactly if the last answer reaps the leader; the primary diagnostic is a failed first reading, the cleanup one the first failure of any other call, each under its own number |
| AbortAnswers.GraceIsExact | native/mtest_exec_native.c:2419-2456 | of an abort with such answers: before the first clock reading only TERM is tried; a grace period follows exactly if the leader had not been seen and the reading succeeded and is not zero; it is made of looks at that leader and at the clock, of which exactly the last finds the leader waitable, fails, or reads the first reading plus the grace or more |
| AbortAnswers.AbortSucceeds | native/mtest_exec_native.c:2405-2515 | an abort of an unreaped leader succeeds exactly if no look, no collection and no clock reading failed and no signal was refused for good |
| AbortAnswers.NamesTheFirst | native/mtest_exec_native.c:2405-2500 | from what TERM, the grace period and the force each report: the first failure of the whole abort is the one named |
| AbortAnswers.AbortLog | native/mtest_exec_native.c:2395-2516 | an abort of a reaped leader meets no trouble, and no abort touches a disposition |
| Outcomes.FreeingCounts | native/mtest_exec_native.c:1249-1263 | freeing an active slot lowers the number of active slots, the measure of the close loop |
| Adapter.Adapter.SaveFirst | native/mtest_exec_native.c:1072-1103 | saves the three dispositions installed first or, at the first refusal, forgets all of them |
| Adapter.Adapter.InstallAll | native/mtest_exec_native.c:1104-1234 | all four installed and OPEN exactly if nothing was refused; otherwise the first refusal is reported and everything rolled back to CLOSED, or RESTORE_REQUIRED with the first refusal of the rollback as cleanup diagnostic |
| Adapter.Adapter.Rollback | native/mtest_exec_native.c:1184-1234 | tries every restore; CLOSED if none was refused, RESTORE_REQUIRED with the first refusal otherwise |
| Adapter.Adapter.RestoreAll | native/mtest_exec_native.c:1277-1324 | tries every restore, never sets a flag, CLOSED exactly if none was refused, otherwise the first refusal |
| Adapter.Adapter.RuntimeOpen | native/mtest_exec_native.c:1036-1235 | EBUSY without effect unless closed; success exactly if no mask call and no sigaction was refused, and then all four dispositions are held; a failure reports the first refusal and, as its cleanup, the next one, each with its operation, and one that ends CLOSED leaves the host's |
| Answers.TransactedByTheAnswers | native/mtest_exec_native.c:1036-1235 | the numbers by the answers: 2 and 3 for a refused query, 4 and 5 for a refused installation, 6 and 7 for a refused restore of SIGINT and SIGTERM, none for the other signals and the mask; success exactly if nothing was refused |
| Adapter.Adapter.RuntimeClose | native/mtest_exec_native.c:1237-1325 | terminates; success means closed, no slot active, every disposition the host's, and comes exactly if no child is left, no abort had trouble and no restore was refused; OPEN exactly if no child is left but there was trouble; CHILD_ACTIVE exactly if a child is left, because no slot has a token, an abort had trouble, or the last abort kept its child; RESTORE_REQUIRED exactly if only a restore was refused; a retry only clears flags |
| Outcomes.RestoredByTheAnswers | native/mtest_exec_native.c:1277-1324 | a close that ends RESTORE_REQUIRED reports the first refused restore, as 6 for SIGINT, 7 for SIGTERM and none for the others; a successful one had none refused |
| Outcomes.AbortInClose | native/mtest_exec_native.c:1249-1263 | one abort of a close: success means a freed slot and no trouble; a failure leaves no child only after trouble, and otherwise one of the three reasons |
| Histories.CloseCanEndOpen | native/mtest_exec_native.c:1237-1325 | an end in OPEN exists: valid states around the abort of an observed, swept child whose clock reading failed, with all answers |
| Histories.Run | native/mtest_exec_native.c:88-93 | any sequence of ABI calls, with any system call failing anywhere, keeps the invariant and is a history; each call leaves every setup pipe alone that it does not name |
| Histories.EvolvesOver | native/mtest_exec_native.c:88-93 | a history does to held children only what a single call may do |
| Histories.StuckForever | native/mtest_exec_native.c:2278-2281 | a child reaped before its group was swept is never released and the runtime is CHILD_ACTIVE ever after |
| Histories.WedgedForever | native/mtest_exec_native.c:1736-1745 | a child that could not be reaped during open pins its slot and the runtime for good, stays our child, and is found by no handle |
| Histories.ReleasedForever | native/mtest_exec_native.c:2366-2378 | a released group has no runnable member, no child of ours and no slot at every later moment |
| Histories.HeldUntilSwept | native/mtest_exec_native.c:2380-2393 | a published child is held with nothing undone until its slot is released, and then nothing of its group can run |
| Histories.NothingStray | native/mtest_exec_native.c:2190-2260 | at every moment of every run no signal has gone through a number that was not an unreaped child's and no descriptor has been closed twice |
| Histories.TokensCollide | native/mtest_exec_native.c:1760-1764 | two tokens are equal exactly if their places differ by a multiple of 2^64 - 1; none is zero |
| Histories.TokensComeBack | native/mtest_exec_native.c:1760-1764 | the token handed out 2^64 - 1 opens after another is the same, so the bound on the age of handles is tight |
| Histories.LookupFindsThePublished | native/mtest_exec_native.c:1592-1611 | while no live handle is 2^64 - 1 opens old, live handles are distinct and each finds its own slot |
| Histories.ConsumedHandlesStayStale | native/mtest_exec_native.c:1592-1611 | over a run a handle finds its own child while it is held and nothing once consumed, within the same bound |
| Histories.DescriptorsConserved | native/mtest_exec_native.c:557-571 | the open descriptors are exactly the non-negative fields of active slots, no two fields share one, all are above 2 |
| Histories.ChildrenConserved | native/mtest_exec_native.c:1721-1722 | the unreaped children are exactly the unreaped leaders held, in slots and groups of their own |
| Histories.AbortThatFreed | native/mtest_exec_native.c:2507-2515 | an abort that freed its slot reaped an unreaped leader, left its group dead, and closed exactly the slot's descriptors |
| Histories.DrainAgainAndAgain | native/mtest_exec_native.c:2020-2087 | drains of one child, with any other calls between them that do not drain or close its setup pipe or get rid of it, are a run of the setup protocol from a fresh state on the bytes its child had to deliver |
| Histories.FlagsTellTheDisposition | native/mtest_exec_native.c:1237-1324 | a set flag means mtest's disposition is in force and the saved one is the host's; the flag and the disposition agree exactly if the flag is set or the host's differs from mtest's |
| Histories.DefaultHostLooksInstalled | native/mtest_exec_native.c:1059-1061 | the exception is real: no flag set, yet the kernel holds what mtest would install |
| Histories.LatchTellsTheSignals | native/mtest_exec_native.c:1277-1324 | CLOSED means all four are the host's, RESTORE_REQUIRED that a flag is set, OPEN and CHILD_ACTIVE that all four are mtest's; OPENING is never visible; CHILD_ACTIVE exactly if a slot is active |
| SetupProtocol.Judged | native/mtest_exec_native.c:2077-2085 | the judgement on a closed pipe is what the received bytes mean |
| SetupProtocol.ClassifyByTheBytes | native/mtest_exec_native.c:2004-2018 | byte by byte: nothing is success; a failure is eight bytes, a little-endian stage from 1 to 8 and a positive error number; anything else is corrupt |
| SetupProtocol.RecordByTheBytes | native/mtest_exec_native.c:1471-1493 | the eight bytes a child writes |
| SetupProtocol.RecordRoundTrip | native/mtest_exec_native.c:1471-1493 | a record reads back as written exactly if its stage is 1 to 8 and its error number positive, and as corrupt otherwise |
| SetupProtocol.FailureHasOneRecord | native/mtest_exec_native.c:2004-2018 | the only bytes that mean a given failure are its record |
| SetupProtocol.VerdictIsTheByteString | native/mtest_exec_native.c:2020-2087 | however reads are split, stalled and repeated, a verdict is what the byte string means, except exactly a failure record whose close failed, which becomes corrupt |
| SetupProtocol.VerdictIsFinal | native/mtest_exec_native.c:2033-2035 | a verdict never changes |
| SetupProtocol.FailedCloseLosesTheRecord | native/mtest_exec_native.c:2072-2076 | the exception is real |
| Polling.ProcessPoll | native/mtest_exec_native.c:1772-1837 | refusals, interrupts and errors report nothing; otherwise exactly the open channels with news, or the first faulty channel and the news before it |
| Polling.ReportsByTheAnswers | native/mtest_exec_native.c:1812-1836 | of stdout, stderr and setup in this order the first open channel with a negative or invalid answer is diagnosed, with EIO or else with EBADF and the whole mask; ready are exactly the channels with news before it |
| Polling.PollSet | native/mtest_exec_native.c:1839-1922 | structural errors leave results untouched, duplicates and stale handles are named by the first offending index and leave exactly zeros, entries behind the span are never touched, and otherwise each handle is reported in order up to the first fault |
| Polling.SetPollRefinesSinglePolls | native/mtest_exec_native.c:1839-1922 | on one snapshot a set poll succeeds exactly if every single poll does, with the same readiness, and otherwise fails as the first failing single poll does |
| Polling.SetPollIgnoresOrder | native/mtest_exec_native.c:1839-1922 | listing the same handles in another order permutes the results and does not change whether the poll succeeds |
| Polling.KeysFit | native/mtest_exec_native.c:1866-1890 | the flattened list never holds more than three entries per handle |
| InterruptCounter.SettledCounterIsExact | native/mtest_exec_native.c:472-495 | for any interleaving of activations, once none is in flight the counter is the number begun since the reset, or two if there were more |
| InterruptCounter.CounterIsBounded | native/mtest_exec_native.c:472-495 | with activations in flight it is the number finished or the ceiling, never above the number begun |
| InterruptCounter.CounterIsMonotone | native/mtest_exec_native.c:477-484 | it never decreases |
| InterruptCounter.AtMostTwoExchanges | native/mtest_exec_native.c:479-484 | no activation attempts more than two exchanges, and one fails only after another succeeded |
| InterruptCounter.Cell.OnInterrupt | native/mtest_exec_native.c:485-494 | one activation terminates under any interference, with at most two attempts, and raises the counter or leaves it at the ceiling |
| ExecSearch.TryCandidate | native/mtest_exec_native.c:1548-1573 | a busy program is tried at most six times, its last error or a failed wait ends the trial |
| ExecSearch.Search | native/mtest_exec_native.c:1546-1589 | the first candidate that is not passed over decides; if all are, EACCES outweighs other misses; at most 6n + 1 exec calls |
| ExecSearch.ChildExec | native/mtest_exec_native.c:1500-1590 | the first failing setup stage is reported in order, the search starts only after all succeeded |
| ExecSearch.ParentUnderstands | native/mtest_exec_native.c:1471-1493 | the parent reads silence exactly for a child that became a program or a shell, and otherwise the reported stage and a positive error number, never corruption |
| ExecSearch.FirstRunnableWins | native/mtest_exec_native.c:1548-1585 | candidate i runs exactly if it can and every earlier one is passed over |
| ExecSearch.SearchByTheAnswers | native/mtest_exec_native.c:1546-1589 | by the answers of exec and of the shell alone: candidate i becomes the program exactly if its exec returns nothing and all before it are passed over, and is handed to the shell exactly if its last error is 8; which errors pass a candidate over, what is reported for any other, for a shell that fails and when all are passed over, by number |
| ExecSearch.StagesByTheAnswers | native/mtest_exec_native.c:1500-1545 | the first setup stage whose call fails is reported under its number and with its error; the search begins exactly if none does |
| LaunchPlan.Validate | native/mtest_exec_native.c:681-725 | accepts exactly the acceptable overrides and otherwise names the smallest offending index |
| LaunchPlan.AcceptableMeans | native/mtest_exec_native.c:683-686 | acceptable means proper assignments with pairwise distinct keys |
| LaunchPlan.ProperMeans | native/mtest_exec_native.c:681-686 | a proper assignment is a name, an equals sign and a value without a NUL; the name is not empty and has no equals sign |
| LaunchPlan.Merge | native/mtest_exec_native.c:742-793 | the buffer holds the kept inherited entries in order, then the overrides |
| LaunchPlan.MergeMeans | native/mtest_exec_native.c:744-752 | an override governs its key, every other key keeps its meaning, no overrides change nothing |
| LaunchPlan.ValueMeans | native/mtest_exec_native.c:795-802 | the value of a key is what follows the equals sign in the first entry that begins with the key and one |
| LaunchPlan.MergedInOrder | native/mtest_exec_native.c:742-793 | place by place: the inherited entries with a key of their own in their order, then all overrides in theirs |
| LaunchPlan.MergeCounts | native/mtest_exec_native.c:744-752 | each override occurs once and every other inherited entry as often as it did |
| LaunchPlan.OverriddenKeysOnce | native/mtest_exec_native.c:744-752 | no overridden key is set twice |
| LaunchPlan.MergeIdempotent | native/mtest_exec_native.c:742-793 | merging the same overrides again changes nothing |
| LaunchPlan.Candidates | native/mtest_exec_native.c:855-921 | a program with a slash is its own candidate; otherwise one candidate per component of the environment's PATH or the system's |
| LaunchPlan.SearchPath | native/mtest_exec_native.c:866-895 | the components split the path at its colons and each makes one candidate |
| LaunchPlan.CandidateMeans | native/mtest_exec_native.c:833-853 | the candidate of a component is the component, a slash and the program, and of an empty one the program alone |
| LaunchPlan.SplitUnique | native/mtest_exec_native.c:888-895 | a path splits into colon-free components that join back to it in one way only |
| LaunchPlan.OverrideGovernsSearch | native/mtest_exec_native.c:749-752 | a PATH set by an override is the one searched, and its components joined with colons rebuild it |
| PostforkAudit.Auditor.Audit | scripts/checks/postfork.py:334-511 | accepts exactly if everything a child can execute is free of cleanups and unresolved or forbidden calls and its platform calls are exactly the allowed ones; the local names are those of the reachable functions |
| PostforkAudit.RegionMeans | scripts/checks/postfork.py:434-460 | a piece of the program runs in a child exactly if it is in the child's branch, a plain statement of the gap, or the condition or any but the failing arm of a test for a failed fork |
| PostforkAudit.FailingArmIsIgnored | scripts/checks/postfork.py:452-459 | two programs that differ only in what they do after a failed fork are accepted or rejected alike |
| PostforkAudit.SoundMeans | scripts/checks/postfork.py:334-511 | the verdict in terms of such pieces and of the functions they reach |
| PostforkAudit.GuiltyPieceRejects | scripts/checks/postfork.py:339-384 | a cleanup or a forbidden call in any such piece rejects, an else arm included |
| PostforkAudit.Auditor.Visit | scripts/checks/postfork.py:376-384 | terminates on any graph, visits only reachable functions, closes what it visits, and fails only on real evidence |
| PostforkAudit.Auditor.VisitCalls | scripts/checks/postfork.py:339-358 | walks a call list, adding exactly the platform calls of it and of what it newly visited |
| PostforkAudit.Auditor.Conclude | scripts/checks/postfork.py:500-511 | a finished walk has visited exactly what is reachable |
| PostforkAudit.CalleeReachable | scripts/checks/postfork.py:343-347 | a local callee of reachable code is reachable |
| PostforkAudit.ConvictionIsUnsound | scripts/checks/postfork.py:348-370 | each failure the walk reports is one for which the program must be rejected |
| CanaryVerdicts.SearchVersions | scripts/canary/run.py:530-556 | the versions offered, first occurrences in order |
| CanaryVerdicts.OfferedVersions | scripts/canary/run.py:530-556 | they are those of any platform, each once |
| CanaryVerdicts.VersionsNewerThan | scripts/canary/run.py:587-621 | the versions some platform lists above the pin, first occurrences in order |
| CanaryVerdicts.NewerVersions | scripts/canary/run.py:587-621 | a version is newer exactly if some platform that lists the pin lists it before the pin |
| CanaryVerdicts.E2eToleratesExactly | scripts/canary/run.py:686-754 | an end-to-end roster is tolerated exactly if it is a permutation of the tolerated scenarios on a moved toolchain |
| CanaryVerdicts.ContractToleratesExactly | scripts/canary/run.py:847-959 | a contract run is tolerated exactly if it names a permutation of the tolerated failures, skips nothing, accounts for 127 checks, exits 1, on a moved toolchain |
| Canary.Probe.Classify | scripts/canary/run.py:998-1369 | for every answer the commands may give, which the recorded trace holds: a timeout exactly if the last command was silenced, and no earlier one was; an infrastructure failure only if some command failed and before any identity was asked; an idle day exactly if nothing was found and nothing newer listed, with no file rewritten; the gates run exactly if something newer was offered, installed and identified, and they alone end in a pass or packaging failure, on the version that was identified |
| CanaryDays.DayByItsLastStep | scripts/canary/run.py:998-1369 | the verdict of a day is told by its last step alone: for each of the nine verdicts, an if-and-only-if over which command came last and how it ended, protocol drift and source incompatibility among them, and the version judged is the one identified |
| Canary.Probe.AskChannels | scripts/canary/run.py:1034-1183 | goes on only with a readable inventory naming the pin and a nonempty set of newer candidates |
| Canary.Probe.InstallCandidate | scripts/canary/run.py:1185-1255 | one install, and a second exactly if the first failed without being killed; the last of them decides, a success goes on, a kill is a timeout, a failure is judged by the control search |
| Canary.Probe.RunGates | scripts/canary/run.py:1294-1352 | the gates run in order, the first that does not hold decides, all holding is a pass; protocol drift exactly if the last is the generation and it wrote drifted transcripts or marked them, a source incompatibility exactly if any other failing source gate was, a packaging failure exactly if a package check was |
| Canary.PackagingIsLast | scripts/canary/run.py:1339-1352 | a pass or packaging failure held every source gate on a toolchain other than the pin with exactly the tolerated failures |
| Canary.TimeoutIsExact | scripts/canary/run.py:1372-1399 | the timeout verdict is given exactly if some command was killed, and that is the last, if and only if no killed command is an end-to-end run that named exactly the tolerated roster |
| Canary.SilentKillsAreTimeouts | scripts/canary/run.py:1372-1399 | so it is if killed commands name no scenario |
| Canary.KilledSuiteCanPass | scripts/canary/run.py:1323-1337 | five gates, the end-to-end suite killed after its roll-call, that end in a pass |
| Canary.KilledSuiteDay | scripts/canary/run.py:998-1369 | a whole day on which that happens, from the first search to the pass |
| Canary.NewerIsListed | scripts/canary/run.py:587-621 | nothing newer means that every platform listing the pin lists it first |
| Fences.ScanFences | scripts/formats/annotations.py:199-221 | the scan computes the fences and whether one is left open |
| Fences.FenceMeans | scripts/formats/annotations.py:199-221 | the fences are exactly the stops in force at the line that lifts them |
| Fences.StopsMeans | scripts/formats/annotations.py:52-52 | a line stops commands exactly if it is `::stop-commands::` and at least one more character, none of them white space, and exactly that rest between two pairs of colons lifts it |
| Fences.OpensMeans | scripts/formats/annotations.py:45-51 | a line opens an annotation exactly if it begins with two colons and a kind, and then ends or goes on with a space or a colon |
| Fences.ScanConcat | scripts/formats/annotations.py:199-221 | behind a log that leaves no fence open another log is scanned as if it stood alone |
| Fences.FenceComposes | scripts/formats/annotations.py:199-221 | whatever a fence holds, it is one fence, between the fences before it and the shifted fences behind it |
| Fences.SealedMeans | scripts/formats/annotations.py:313-314 | a line is sealed exactly if commands are stopped there and the same stop is lifted further down |
| Fences.AnnotationTail | scripts/formats/annotations.py:293-316 | the tail is the annotation lines no fence seals, in order |
| Fences.ParsedLinesOpen | scripts/formats/annotations.py:43-50 | every line the grammar accepts is one the looser opener accepts |
| Fences.TailIsProcessedExactly | scripts/formats/annotations.py:293-316 | the tail is what a stop/resume machine processes exactly if no annotation line lifts a stop or stands behind one never lifted |
| Fences.CheckFencing | scripts/formats/annotations.py:232-284 | accepts exactly logs with no dangling fence, hexadecimal tokens, none of them the seeded one, and a fence where required |
| Fences.AcceptedMeans | scripts/formats/annotations.py:248-284 | the tokens of an accepted log have at least 32 characters, all lower-case hexadecimal digits, and none is the seeded one; any other log with lifted stops is rejected |
| Fences.AcceptedTailIsProcessed | scripts/formats/annotations.py:248-260 | of an accepted log the tail is exactly what GitHub processes |
| Fences.HexNeverOpens | scripts/formats/annotations.py:52-53 | a line lifting a hexadecimal token reads as no annotation |
| Fences.TokenCanBeAnAnnotation | scripts/formats/annotations.py:293-316 | without the check the tail can differ |
| SafetyLexer.Sanitize | scripts/checks/safety.py:92-142 | the loop that takes triple quotes and comments at one go computes what a reader of single characters computes |
| SafetyLiterals.CleanStrips | scripts/checks/safety.py:92-142 | a literal is blanked up to the first matching quotes, three for a triple, that no odd row of backslashes stands before, a comment up to its line end, an open literal to the end of the text; what follows is stripped as if it stood alone; every other character is kept |
| SafetyLiterals.OneStripper | scripts/checks/safety.py:92-142 | these laws admit no other function: whatever obeys them strips exactly as the source does |
| SafetyLexer.CleanKeepsLayout | scripts/checks/safety.py:93 | length and newlines stay, every character is kept or blanked, no quote or comment sign is left |
| SafetyLexer.CleanIdempotent | scripts/checks/safety.py:93 | stripping again changes nothing |
| SafetyCoverage.Group | scripts/checks/safety.py:153-176 | statements are in order and apart, run until their brackets close, and hold every line with code |
| SafetyLines.OpeningLineGoesOn | scripts/checks/safety.py:144-168 | the next line belongs to a statement exactly if its first line opens more brackets than it closes |
| SafetyLines.OpenBracketsGoOn | scripts/checks/safety.py:163-166 | and generally it goes on with the next line as long as more brackets were opened in it than closed |
| SafetyCoverage.HasSafety | scripts/checks/safety.py:183-189 | finds a SAFETY comment exactly if the contiguous comment block at the indices right above holds one |
| SafetyCoverage.CoverFrom | scripts/checks/safety.py:191-205 | covers exactly what an unbroken run of unsafe statements within eight lines reaches |
| SafetyCoverage.CoveredLines | scripts/checks/safety.py:153-207 | a line is covered exactly if some documented statement covers it |
| SafetyCoverage.CoverageIsLocal | scripts/checks/safety.py:191-205 | every covered line lies in an unsafe statement fewer than eight lines below the start of one for which a SAFETY comment was found, with only unsafe statements between |
| SafetyCoverage.Scan | scripts/checks/safety.py:242-252 | reports exactly the unsafe lines nothing covers |
| TextLines.LinesMakeTheText | scripts/checks/safety.py:154-155 | the split is that of `str.splitlines`: a text is its lines, each followed by one line end, CR LF counting as one, which only the last may lack |
| SafetyText.SameLines | scripts/checks/safety.py:92-142 | stripping never adds a line, and the lines of a text and of its stripped form start at the same characters, or are as many, exactly if no line end before the last character is blanked |
| SafetyText.CodeLineInText | scripts/checks/safety.py:154-155 | line k of the stripped text is the line of the text that many further down as lines were lost above it, and so line k exactly if none was |
| SafetyText.StraightMeans | scripts/checks/safety.py:92-142 | none was lost above a line exactly if every line end above it was kept |
| SafetyText.DocumentedInText | scripts/checks/safety.py:183-189 | above the first lost line the comment block found is the one directly above in the text |
| SafetyText.CoverageInText | scripts/checks/safety.py:153-207 | there a line is covered exactly if it is in the text: an unsafe statement with a SAFETY comment directly above it, fewer than eight lines up, only unsafe statements and no blank line between |
| SafetyText.ScanText | scripts/checks/safety.py:242-253 | strip, split, group, cover and report: exactly the candidates not covered, and where no line was lost above, exactly those not covered in the text |
| SafetyShift.NotDocumented | scripts/checks/safety.py:127-131 | in a text whose first line is a comment with a form feed and a SAFETY comment behind it, a plain step stands directly above any operation put on the third line |
| SafetyShift.CoveredWithoutComment | scripts/checks/safety.py:183-189 | that operation is covered for the gate and not in the text, for every test that takes it for unsafe and the step and the blanked comment for safe |
| SafetyShift.ScanShifted | scripts/checks/safety.py:242-253 | and nothing is reported |
| SafetyCandidates.CandidateOpens | scripts/checks/safety.py:43-60 | each of the ten patterns needs an opening parenthesis, an opening bracket or an equals sign in the line |
| SafetyLines.CallsMeans | scripts/checks/safety.py:43-60 | a pattern for a call matches exactly if the line has the name, white space and the sign in it; so `CallsWordMeans` and `CallsPrefixedMeans` for names that must begin a word or may go on |
| SafetyLines.PatternsMean | scripts/checks/safety.py:43-60 | the ten patterns, each by the characters of the line: what may stand before the name, the name, what may follow it, white space and the sign; a construction may name its parameters in brackets first |
| SafetyLines.SafetyMeans | scripts/checks/safety.py:69-70 | a SAFETY comment is white space, the comment sign, white space, the word with its colon and something that is not white space |
| SafetyLines.CommentMeans | scripts/checks/safety.py:70-70 | a comment line is white space, the comment sign and anything |
| SafetyShift.PatternsSingle | scripts/checks/safety.py:43-60 | so whatever operation they match, the step and the blanked comment they do not |
| SafetyShift.ScanFree | scripts/checks/safety.py:242-253 | with the ten patterns themselves, an undocumented free goes unreported |

## Left out

- Testing builds: fault tables, reentry hooks and sanitizer controls; arbitrary answers of system calls take their place.
- NULL arguments of ABI calls, unknown channel and action codes, and an out-of-range outcome in a drain state, except where polling checks its arrays.
- Concurrency of ABI callers: calls run one at a time, as the records assume; the interrupt counter is modelled by itself because the handler touches nothing else.
- The bytes of stdout and stderr, and so which child stream each of the three pipes carries.
- Adapter.Adapter.PreparePipe: the close-on-exec and non-blocking flags it sets are calls without a modelled effect, and so is the parent's setpgid, because the contract of fork already puts the child into its own group.
- Raw wait statuses, fork's memory image, `confstr`, `getrlimit`, the Darwin `sysctl` query, the signal number in a diagnostic's subject, and the clock call's own error codes: a failed reading is reported under its operation with whatever errno holds.
- Adapter.Adapter.GraceWait: assumes that every wait moves the clock, without which the loop need not end.
- Adapter.Adapter.ProcessOpen: building the launch plan is one step that succeeds or fails without effect; `LaunchPlan` covers what it builds, and allocation failures are plans that could not be built.
- ExecSearch.ChildExec: a report whose own write fails leaves the pipe silent, which the parent takes for success; the report is modelled as one write that arrives whole.
- LaunchPlan.Validate: a missing override buffer is an empty one.
- Polling.ProcessPoll: a missing result buffer.
- PostforkAudit.Auditor.Audit: the AST walk, the checks on the shape of the fork region and the call path in a diagnostic; functions, calls and the pieces of the region are inputs.
- Canary.Probe.Classify: JSON and regular expressions, diagnostics, file rewriting beyond its success, and the wait between two installs; each answer is given by what its reader finds.
- Fences.CheckFencing: the forged-marker search, which looks only at the first line containing the marker.
- Fences.AnnotationTail: `check_tail`'s grammar, escaping and sorting rules for the lines it is given.
- SafetyText.ScanText: the source reports a line once for each pattern that matches, the model once; the patterns are any test on a stripped line.
- SafetyCandidates.CandidateOpens: which characters are word characters is a parameter.
- SafetyLexer.Sanitize: the inventory of possible pointer arithmetic and the check of unknown `unsafe_` spellings.
- The policy and pinning checkers, the shell and PTY harnesses and the end-to-end scenarios: fixed-text comparison and input and output.
