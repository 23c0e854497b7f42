# RansomGuard decision pipeline: a Dafny model

RansomGuard watches a Windows machine for ransomware. Detectors submit signals to a scoring window; a responder
quarantines or terminates the processes that signals accuse; a kernel minifilter blocks file operations of quarantined
processes; an incident reporter groups the responder's actions into campaigns; and small pieces around them split
sessions, match an allowlist and print records for a SIEM. This project models those components and proves what each
of them guarantees over all inputs and all runs.

`dafny verify dfyconfig.toml` checks the whole project.

## How it is organised

Each component has a pure part (a state, a step for every event, and the run over a list of events) and, where the
program changes objects in place, a class whose methods are proved to make exactly those steps. The results are lemmas
about the pure part; the methods' postconditions carry them over to the classes.

| file | models |
|---|---|
| `Collections.dfy`, `Texts.dfy`, `SlidingWindow.dfy`, `GapSplit.dfy` | shared vocabulary: filters, sums, normalised text, pruned time queues, splitting at time gaps |
| `Signals.dfy`, `Scoring.dfy` | signals, actor trust, the scoring window and the score |
| `ThreatBreakdown.dfy` | the per-PID view of the score |
| `Responder.dfy`, `PolicyTables.dfy` | the response policy, its gates and its memory; the shipped name tables |
| `Driver.dfy` | the minifilter: PID tables, command dispatcher, client port, file-operation filters |
| `Protocol.dfy` | the bridge's commands, and what the responder may believe about the kernel table |
| `WriteBursts.dfy`, `RenameBursts.dfy`, `BurstMonitor.dfy` | per-PID write and rename accounting |
| `Campaigns.dfy`, `ReportDedup.dfy`, `PopupBudget.dfy`, `IncidentReporter.dfy` | campaigns, report suppression, popup budget, and the reporter that uses them |
| `Cef.dfy` | the CEF printer and a parser that inverts it |
| `Allowlist.dfy` | allowlist entries, what an operator types, and the cached decision per process |
| `Agent.dfy` | the responder with the allowlist behind its third gate |
| `Sessions.dfy` | the two scans for the last recorded session |

## Assumptions

- Times are real numbers. The clock is nondecreasing; results that need an order of events say so as a condition.
- One public call is one atomic step with one clock reading; the breakdown view takes three. The program releases its
  locks inside some calls (`responder.py:351-400`, `allowlist.py:224-240`), and the results hold per atomic call.
- A time of 0.0 means "never" in the burst counters, as in the program, so within the first four (five) seconds of the
  epoch a burst can look debounced. The results name that case.
- Signals carry an identity, so that "other than the triggering signal" means the object and not an equal one.
- Scoring and responding look up a signal's PID under the same four keys in different orders
  (`scoring.py:222`, `responder.py:298`). `Signals.PidOrdersAgree` says exactly when they agree, and
  `Responder.AccuserForgottenIff` what follows when they do not.

## Findings

- The wiki says that a process exit and a disconnect clear the quarantine (`docs/WIKI.en.md:735`,
  `docs/WIKI.en.md:745`). The driver does neither (`minifilter/RansomGuard.c:602-619`,
  `minifilter/RansomGuard.c:1013-1015`), and the model follows the driver.
- Campaigns are the maximal runs of actions whose consecutive stamps differ by at most 120 s if and only if no action
  is misfiled (`Campaigns.CampaignsAreMaximalRunsIff`), and both ways of misfiling occur. An action can come late,
  after the finaliser has closed its campaign (`Campaigns.ActionCanBeLate`), and stamps out of order can bridge a gap
  without any poll (`Campaigns.DisorderMisfiles`): an action is stamped when the response is made (`responder.py:413`)
  and filed only after its incident report has been written (`incident_report.py:853-875`). Against the clustering
  that measures from the greatest stamp of the group, as the reporter does, lateness alone decides
  (`Campaigns.OnlineEqualsOfflineIff`). Before the forced poll at shutdown, it is ruled out when no action is stamped
  earlier than a poll that preceded it (`Campaigns.NeverLateUnderOrderlyClock`), which the code does not enforce across
  that gap.
- A protected system name is meant to protect only images in a system directory. The check is a string prefix
  (`responder.py:141-145`, `responder.py:475-481`), so an image in `C:\Windows\System32evil` is protected too
  (`PolicyTables.ImpostorBesideSystem32`). `PolicyTables.ProtectionMeansTrustedDirIff` says exactly when it means what
  it is for.
- The popup limiter's marker counts like a popup. The budget is never exceeded, but a request is refused with budget
  to spare exactly when markers fill the rest (`PopupBudget.HeedsBudgetIff`). Under evenly spaced requests, 10 seconds
  apart or less, only the first three popups are ever permitted, and requests are refused with nothing shown in the
  last 30 seconds (`PopupBudget.RefusedWithNothingShown`); evenly spaced requests further apart are all served
  (`PopupBudget.SteadyDemandServedIff`).
- A write burst does not always report every byte of the last four seconds (`WriteBursts.BurstCanMissRecentBytes`): a
  window that is replaced takes its recent bytes with it, and `WriteBursts.BurstReportsLastFourSecondsIff` says
  exactly when none are lost. Nearly twice the threshold can pass unreported within four seconds
  (`WriteBursts.SingleThresholdCanHide`), but not more when no burst is recent
  (`WriteBursts.DoubleThresholdForcesBurst`); `WriteBursts.SpanFiresIff` says exactly when a span raises a burst.
- With 32-bit PIDs the responder's belief that a PID is quarantined fails exactly after a driver reload, or a flush
  that gets through, until the PID is released or the agent restarts (`Protocol.LostIffWiped`), and it does not send
  the PID again (`Protocol.WipedIsNotRebuilt`). With PIDs that wrap to the same 32-bit value, releasing one breaks the
  belief in the other and quarantining one can mend it (`Protocol.LostIffTaken`).
- The bridge's comment says that a quarantine call returns false when it fails
  (`detectors/minifilter_bridge.py:295-298`). The call's result type is `HRESULT`
  (`detectors/minifilter_bridge.py:209`), so a send that fails raises, and the model follows that
  (`Protocol.Bridge.Send`).
- A name entry of the allowlist is not always found under the value it is listed with: one that starts with a
  space, or with what reads as a drive letter, is normalised to something else when it is typed again
  (`Allowlist.RetypedAsListedIff`, `Allowlist.SpacedNameIsNotRetyped`).
- The allowlist cache is transparent as long as a process reads the same in name and path between lookups, letter case
  and separators at the end aside, and only then (`Allowlist.SecondLookupTransparentIff`); an image that could not be
  read once stays refused (`Allowlist.UnreadableImageStaysRefused`).

## Model

| member | source | states |
|---|---|---|
| Signals.PidOrdersAgree | scoring.py:219-226 | attribution for the score and for the response name the same PID unless `process_id` and `child_pid` conflict and neither `pid` nor `ProcessId` decides; one finds a PID if and only if the other does |
| Signals.ScoresForHeldPid | scoring.py:219-226 | the PID a signal scores for is the positive integer (true being 1) under the first of its four keys that holds one; none if and only if none does |
| Signals.AccusesHeldPid | responder.py:296-302 | the PID a signal accuses likewise, in its own order of those keys |
| Signals.ParentIsHeldPid | responder.py:304-310 | the parent PID likewise, under its three keys |
| Signals.NameSets | scoring.py:58-99 | ground-truth names are encryption names, gated names are not, and ground truth counts as evidence whatever the trust stamp says |
| Signals.EvidenceIff | scoring.py:58-99 | the eleven names of encryption evidence, six of them whatever their stamp, five while untrusted |
| Signals.TrustedIff | scoring.py:229-242 | a signal is trusted exactly when its stamp is a true value of any type and its name is none of the six kinds of ground truth |
| Scoring.EncPidsMembers | scoring.py:249-256 | the correlation set holds exactly the PIDs named by some untrusted encryption signal in the window |
| Scoring.ScoreIsTotalOfCounted | scoring.py:244-273 | the score is the total weight of the untrusted signals that are not gated or whose PID has untrusted encryption evidence in the window |
| Scoring.ForgettingKeepsTheOthers | scoring.py:206-210 | forgetting a PID leaves exactly the signals of others, each contributing what it did before |
| Scoring.ForgettingRemovesExactlyTheShare | scoring.py:206-210 | forgetting a PID lowers the score by exactly its share |
| Scoring.ForgettingKeepsOtherShares | scoring.py:249-273 | every other PID keeps its share and the forgotten one has none left |
| Scoring.SubmittingAddsExactly | scoring.py:244-273 | a new signal adds its own contribution plus, when it is its PID's first encryption evidence, the weights of that PID's gated signals |
| Scoring.SubmittedJoinsTheWindow | scoring.py:126-150 | a submitted signal not older than the window is its last one afterwards, with its own identity, name, weight and time, trusted by a new stamp exactly when the classifier answered true; when nothing expires the score grows by exactly its contribution and what it unlocks |
| Scoring.ScoreCoversGroundTruth | scoring.py:229-242 | with nonnegative weights the score is never below the sum of the ground-truth weights, whatever the stamps |
| Scoring.TrustedSignalsAreInvisible | scoring.py:251-265 | dropping every trusted signal from the window leaves the score unchanged |
| Scoring.SuffixScoresNoMore | scoring.py:244-273 | with nonnegative weights no suffix of the window scores more than the window |
| Scoring.SuffixScoresTheSameIff | scoring.py:244-273 | a suffix scores the same exactly when the signals before it contributed nothing and no kept signal depended on their evidence |
| Scoring.EvictionExactIff | scoring.py:214-217 | looking only at the front keeps exactly the signals in the window if and only if no stale signal is behind a fresh one |
| Scoring.EvictionUnderDisorder | scoring.py:214-217 | with arrivals out of order by at most d, nothing retained is older than the cutoff less d |
| Scoring.EvictionUnderDelay | scoring.py:139-143 | with arrival delays of at most d, only stale signals are dropped and nothing older than window plus d stays; without delay exactly the window stays |
| Scoring.EvictSettles | scoring.py:214-217 | evicting again at the same reading removes nothing |
| Scoring.EndSlice | scoring.py:160-163 | the last limit signals, all of them for 0, and for a negative limit all but that many from the front |
| Scoring.LevelForScore | scoring.py:275-285 | the five levels with their bounds 30, 60, 100 and 150 |
| Scoring.ScoringEngine.constructor | scoring.py:108-114 | an engine starts with an empty window |
| Scoring.ScoringEngine.EvictOld | scoring.py:214-217 | the loop drops the stale prefix; what stays is no older than the window plus the disorder observed so far |
| Scoring.ScoringEngine.CurrentScoreLocked | scoring.py:244-273 | the two loops compute the correlation-gated sum |
| Scoring.ScoringEngine.SumContributions | scoring.py:258-273 | the second loop sums what each signal contributes |
| Scoring.ScoringEngine.ClassifyActor | scoring.py:126-137 | a signal without a stamp gets one, untrusted when the classifier raises; nothing else about it changes |
| Scoring.ScoringEngine.Submit | scoring.py:126-150 | the signal is stamped once; not older than the window it is the last one afterwards, and when nothing expires it is appended and the score grows by exactly what it adds; score and level are those of the new window |
| Scoring.ScoringEngine.CurrentScore | scoring.py:152-155 | the score of the evicted window |
| Scoring.ScoringEngine.CurrentLevel | scoring.py:157-158 | the level of the evicted window's score |
| Scoring.ScoringEngine.RecentSignals | scoring.py:160-163 | the end slice of the evicted window |
| Scoring.ScoringEngine.FindEncryptionActivity | scoring.py:165-184 | found exactly when some other untrusted encryption signal is in the window |
| Scoring.ScoringEngine.Reset | scoring.py:186-188 | the window becomes empty |
| Scoring.ScoringEngine.ForgetPid | scoring.py:190-210 | removes the PID's signals, reports how many, and lowers the score by the PID's share |
| ThreatBreakdown.RowMeaning | agent.py:302-328 | a row lists the signals of its PID in order and its score is the sum of their contributions |
| ThreatBreakdown.RowExists | agent.py:310-328 | there is a row for exactly the keys that occur, with the key's PID and the greatest severity among its signals |
| ThreatBreakdown.RowNamesProcess | agent.py:310-316 | a row names the process that the first of its signals to name one names, and is marked trusted when its first signal is |
| ThreatBreakdown.BucketsPartitionTheSum | agent.py:303-316 | bucketing by PID loses nothing and counts nothing twice |
| ThreatBreakdown.BucketsReconcile | agent.py:293-316 | the rows made from a list of signals add up to that list's score |
| ThreatBreakdown.RowsAndTotalAreEnds | agent.py:283-337 | what the rows show and what the total counts are two ends of one window; the limit shortens the first, an expiry between the readings the second |
| ThreatBreakdown.ViewReconcilesIff | agent.py:274-337 | rows and total agree exactly when cutting the longer end down to the shorter loses nothing; without a cut by the limit the rows never add up to less, without an expiry never to more |
| ThreatBreakdown.CollectEncPids | agent.py:293-300 | the view's own loop computes the engine's correlation set |
| ThreatBreakdown.PutInBucket | agent.py:304-328 | one signal goes into its PID's bucket, opened at its first signal |
| ThreatBreakdown.FillBuckets | agent.py:302-328 | the buckets are those of the signals, keyed and ordered by first appearance |
| ThreatBreakdown.SortPermutes | agent.py:334 | sorting neither loses nor repeats a row |
| ThreatBreakdown.SortDescends | agent.py:334 | rows come out in falling order of score |
| ThreatBreakdown.BuildRows | agent.py:293-334 | the sorted rows are the buckets of the signals and add up to their score |
| ThreatBreakdown.Breakdown | agent.py:272-339 | rows add up to the score of the end they show, total and level are the engine's, each at its own reading of the clock |
| Responder.ReactionActsExactly | responder.py:233-294 | a signal gets exactly these PIDs terminated, and exactly these quarantined: the accused one and the parent of an accused tool, each behind its gates, in a mode that does it and unless it has been done, and none unless the signal is CRITICAL, or HIGH with other untrusted encryption evidence or two detectors naming the PID among the latest 200 signals |
| Responder.WarrantsIff | responder.py:238-294 | the evidence that suffices, spelled out: a named PID, and CRITICAL, or HIGH with another untrusted encryption signal or two different detectors among the latest 200 signals |
| Responder.AttemptsAreJustified | responder.py:269-294 | in every run each termination was in KILL mode and each quarantine request in QUARANTINE or KILL mode, none was of the agent, of a never-kill or of an allowlisted process, and each automatic one had the required evidence |
| Responder.QuarantinesAreJustified | responder.py:336-400 | in every run each PID that counts as quarantined was acknowledged for such a request |
| Responder.ResponseEffect | responder.py:348-411 | what a response does to memory, window and log, by mode, gates, memory and the answers of kernel and kill |
| Responder.OffModeTouchesNothing | responder.py:374-379 | in OFF mode a response leaves memory, window and log as they were |
| Responder.OffModeOnlyWatches | responder.py:374-379 | in OFF mode a signal changes nothing but the window it joins |
| Responder.NoSecondTermination | responder.py:351-400 | in every run no PID is terminated again after a success without a release in between |
| Responder.RunKeepsLog | responder.py:219-229 | in every run the remembered kills are exactly the successful, unreleased terminations, and the remembered quarantines exactly the acknowledged, unreleased requests |
| Responder.ReleaseAndModeEffect | responder.py:201-229 | a release takes exactly its PID out of both memories; a mode change changes the mode only |
| Responder.KillLowersScoreByShare | responder.py:402-411 | a successful kill removes exactly the PID's share from the score and nothing else |
| Responder.AccuserForgottenIff | responder.py:296-302 | after a kill the accusing signal has left the window exactly when the two PID key orders agree on it |
| Responder.FlagsTellTheTruth | responder.py:370-416 | a refusal and OFF mode leave both flags down and change nothing; otherwise a flag is up exactly when the PID is remembered afterwards, which in KILL mode is when no termination failed |
| Responder.NoteTellsWhy | responder.py:336-416 | the error of an action names the first gate that refused, or exactly what failed |
| Responder.ActionNamesProcess | responder.py:326-350 | an action names the process as the lookup does, or else as the detector did, and a refusal names none |
| Responder.QuietSignalsLeaveNoTrace | responder.py:238-240 | a signal that names no PID or is neither HIGH nor CRITICAL changes nothing and is not recorded |
| Responder.UncorroboratedIsObserved | responder.py:250-255 | a signal whose evidence does not suffice changes nothing and leaves one entry with both flags down |
| Responder.ReactionIsRecorded | responder.py:257-267 | otherwise the history gains one entry for the accused PID and one for the parent of a tool, judged by what the first response left, and none for a PID that needed nothing more; the last 1000 are kept |
| Responder.LolbinIff | responder.py:312-318 | a tool is accused exactly when the process text, whatever its letter case, is a listed name |
| PolicyTables.ProtectionMeansTrustedDirIff | responder.py:458-481 | a path-verified name is protected just when its image lies in a trusted directory or cannot be read, if and only if no trusted directory is a string prefix of a readable path that stops inside a component |
| PolicyTables.ProtectedByName | responder.py:458-472 | a pseudo process and a listed name that is not path-verified are protected whatever the image; a name on neither list never is |
| PolicyTables.ShippedNamesAreProtected | responder.py:458-472 | with the shipped tables Explorer.EXE, chrome.exe, MsMpEng.exe and System are protected wherever their image is |
| PolicyTables.ImpostorBesideSystem32 | responder.py:141-145 | with the shipped tables an image in a directory beside System32 is protected |
| Responder.ProcessResponder.constructor | responder.py:172-193 | a responder starts having touched no PID |
| Responder.ProcessResponder.ChangeMode | responder.py:201-213 | a mode change forgets nothing and acts on nobody |
| Responder.ProcessResponder.Record | responder.py:435-440 | the history keeps the last 1000 actions |
| Responder.ProcessResponder.Noop | responder.py:418-422 | a refusal is recorded with both flags down |
| Responder.ProcessResponder.RespondToPid | responder.py:322-416 | memory, window and log change as specified; the action is exactly the specified one, and a handled PID is not recorded again |
| Responder.ProcessResponder.RespondPastGates | responder.py:348-416 | the part behind the gates: nothing for a handled PID, a record in OFF mode, otherwise the response |
| Responder.ProcessResponder.Act | responder.py:370-411 | quarantine then kill: each is remembered only on success, a kill also clears the PID's signals, and the error text names what failed |
| Responder.ProcessResponder.AskKernel | responder.py:381-389 | the kernel is asked once, and the PID remembered exactly when it acknowledges |
| Responder.ProcessResponder.TerminateIfDue | responder.py:391-411 | in KILL mode a PID not yet killed is terminated; exactly a success is remembered and clears its signals |
| Responder.ProcessResponder.IsConfident | responder.py:269-294 | confident exactly on CRITICAL, on other encryption evidence, or on two detectors naming the PID |
| Responder.ProcessResponder.CountDetectors | responder.py:287-294 | the early-exit loop finds two exactly when two distinct detectors name the PID |
| Responder.ProcessResponder.Dispatch | responder.py:233-267 | the listener makes exactly the specified reaction and records exactly the specified actions |
| Responder.ProcessResponder.RespondAndEscalate | responder.py:257-267 | the accused PID is responded to first, then the parent of a tool, with the evidence of the moment of dispatch |
| Responder.ProcessResponder.RecordObserved | responder.py:424-433 | an uncorroborated signal is recorded, with the detector's hints where the lookup is empty, and nothing else |
| Responder.ProcessResponder.OnSignal | scoring.py:126-150 | submission followed by the listener is one step of the run |
| Responder.ProcessResponder.KillManually | responder.py:219-220 | an operator's kill passes the same gates without evidence and returns the specified action |
| Responder.ProcessResponder.ReleaseManually | responder.py:222-229 | both memories forget the PID whatever the bridge does; its answer, or its exception, is the caller's |
| Agent.ListedIffAdmitted | responder.py:339-346 | in every history of the list a process that has kept its own name and image is let off exactly when a current entry admits it, whatever other processes did |
| Agent.ListedIsNeverTouched | responder.py:336-346 | responding to a listed process that has kept its name and image changes neither memory nor window nor log |
| Agent.UnlistedIsJudgedByTheRest | responder.py:328-346 | for an unlisted process that has kept its name and image the other gates alone decide |
| Agent.RespondConsulting | responder.py:322-346 | the list is asked in its place among the gates, and its answer and cache are those of one lookup |
| Driver.DeniedIffQuarantineHeld | minifilter/RansomGuard.c:868-959 | in every run an operation is denied exactly when it is a user-mode write, rename, extended rename, disposition or extended disposition of a PID whose quarantine, carried out with room in a table of 256, no release, flush or reload has ended |
| Driver.TableHoldsAcknowledged | minifilter/RansomGuard.c:449-574 | in every run the quarantine and the protection table each hold exactly the PIDs whose acknowledged entry has not ended |
| Driver.ProtectedIffHeld | minifilter/RansomGuard.c:532-574 | in every run a PID is protected exactly when a protect command, with room in a table of 16 and not for PID 0, has been ended by no unprotect and no reload |
| Driver.RepliesExactly | minifilter/RansomGuard.c:644-678 | which of the four statuses each command gets, by version, kind, PID and table |
| Driver.ClientIsFirstConnected | minifilter/RansomGuard.c:580-619 | the client is the one that connected first since the last disconnect or reload |
| Driver.QuarantineFailsIffFull | minifilter/RansomGuard.c:465-487 | success means the PID is held; the command fails only for a new PID in a full table and then changes nothing |
| Driver.TablesStayBounded | minifilter/RansomGuard.c:532-558 | no run exceeds 256 quarantined or 16 protected PIDs, and PID 0 is never protected |
| Driver.SwapRemove | minifilter/RansomGuard.c:494-500 | swap-remove deletes exactly one value and keeps the rest distinct |
| Driver.PidTable.Contains | minifilter/RansomGuard.c:449-463 | the scan finds a PID exactly when the table's set holds it |
| Driver.PidTable.Add | minifilter/RansomGuard.c:465-487 | the array refines a bounded set: present is success, full is failure, else appended |
| Driver.PidTable.Remove | minifilter/RansomGuard.c:489-503 | the array refines set removal |
| Driver.PidTable.Flush | minifilter/RansomGuard.c:505-510 | the set becomes empty |
| Driver.MiniFilter.constructor | minifilter/RansomGuard.c:80-98 | a loaded driver has empty tables and no client |
| Driver.MiniFilter.PortConnect | minifilter/RansomGuard.c:580-600 | a second client is refused and nothing else changes |
| Driver.MiniFilter.PortDisconnect | minifilter/RansomGuard.c:602-619 | the client goes and both tables stay |
| Driver.MiniFilter.PortMessage | minifilter/RansomGuard.c:621-690 | every readable command does exactly its dispatch step; a missing or faulting input changes nothing, and a faulting reply buffer hides a command that has been carried out |
| Driver.MiniFilter.Execute | minifilter/RansomGuard.c:649-678 | the dispatcher carries out one command and says what its reply holds |
| Driver.MiniFilter.PreWrite | minifilter/RansomGuard.c:868-889 | denied exactly for user-mode writes of a quarantined PID |
| Driver.MiniFilter.PreSetInfo | minifilter/RansomGuard.c:907-959 | denied exactly for the two rename and the two disposition classes, in user mode, of a quarantined PID |
| Protocol.AcknowledgedMeansHeld | detectors/minifilter_bridge.py:419-439 | a true result of a quarantine command means the kernel table holds the PID |
| Protocol.CommandOutcome | detectors/minifilter_bridge.py:419-439 | a command without a handle is refused; one lost on the way raises and changes nothing; one that arrives is carried out, and answered true exactly when the driver reports success and the reply gets back |
| Protocol.ResponseSendsExactly | responder.py:351-389 | a response sends one quarantine command, and nothing else, exactly in QUARANTINE mode or in KILL mode before the kill, with every gate passed and the PID not remembered; in OFF mode the channel stays as it was |
| Protocol.ResponseRemembersExactly | responder.py:381-389 | a PID is newly remembered exactly when such a command was answered true |
| Protocol.ForgetsExactly | responder.py:222-229 | a release takes exactly its PID out of both memories; a restart leaves the mode, and the driver's tables as they are |
| Protocol.HandleIffOpened | detectors/minifilter_bridge.py:359-392 | in every run the bridge has a handle exactly when it opened the port while the driver had no client and has neither closed it nor restarted since |
| Protocol.LostIffTaken | detectors/minifilter_bridge.py:292-301 | in every run, with any PIDs, a PID counts as quarantined without being in the kernel table exactly when a reload, a flush that got through, or a release of another PID with the same 32-bit value took it out, and since then it has been neither forgotten nor put back through such another PID |
| Protocol.LostIffWiped | detectors/minifilter_bridge.py:292-301 | in every run with 32-bit PIDs a PID counts as quarantined without being in the kernel table exactly when a reload, or a flush that got through, came while it counted and it has not been forgotten since |
| Protocol.FlushOrReloadLoses | responder.py:381-389 | connecting, quarantining a PID and then flushing or reloading is such a run |
| Protocol.BeliefHoldsIff | detectors/minifilter_bridge.py:292-301 | the whole belief holds exactly when no PID has been wiped |
| Protocol.BelievedIsBlockedIff | minifilter/RansomGuard.c:879-886 | the file operations of a believed PID are denied exactly when it has not been wiped |
| Protocol.WipedIsNotRebuilt | responder.py:381-389 | a wiped PID stays believed, its file operations pass, and responding to it again sends nothing, for the rest of the run until it is forgotten |
| Protocol.ReleaseKeepsBeliefIff | detectors/minifilter_bridge.py:422-423 | a release keeps the belief exactly when it does not get through or no other believed PID wraps to the same 32-bit value |
| Protocol.WrappedReleaseFreesAnother | detectors/minifilter_bridge.py:422-423 | releasing 4 + 2^32 frees PID 4 |
| Protocol.Bridge.Send | detectors/minifilter_bridge.py:419-439 | a command through the driver object is the abstract command step: true, false, or an exception when the send fails |
| WriteBursts.TotalCoversSuffix | detectors/minifilter_bridge.py:543-548 | the running total is the bytes of a suffix of the writes, all within one window |
| WriteBursts.BurstReportsItsStretch | detectors/minifilter_bridge.py:553-573 | a burst reports exactly the bytes of a stretch of writes that ends with it and lies within its last 4 s |
| WriteBursts.BurstReportsLastFourSecondsIff | detectors/minifilter_bridge.py:544-548 | the report covers all of the last 4 s exactly when no non-empty write among them was followed by the opening of a window or by an earlier burst |
| WriteBursts.UnreportedIffLost | detectors/minifilter_bridge.py:544-576 | an earlier write is not measured with this one exactly when a window opened after it or a burst came at or after it |
| WriteBursts.OpensIff | detectors/minifilter_bridge.py:544-546 | on an ordered clock that has passed zero, a write opens a window exactly when no write of the last 4 s opened one or raised a burst |
| WriteBursts.BurstCanMissRecentBytes | detectors/minifilter_bridge.py:544-548 | a burst that leaves out a thousand bytes written 0.2 s before it |
| WriteBursts.FiresIff | detectors/minifilter_bridge.py:541-576 | a write raises a burst exactly when the clock has reached 4 s, no burst is less than 4 s old, and the writes measured with it reach the threshold |
| WriteBursts.SpanFiresIff | detectors/minifilter_bridge.py:541-576 | a span that starts undebounced raises a burst exactly when the writes measured with one of its writes reach the threshold |
| WriteBursts.BurstsAreDisjoint | detectors/minifilter_bridge.py:553-576 | bursts of one PID are at least 4 s apart and share no write |
| WriteBursts.ReportedNeverExceedsWritten | detectors/minifilter_bridge.py:541-576 | bytes reported plus bytes pending never exceed bytes written |
| WriteBursts.DoubleThresholdForcesBurst | detectors/minifilter_bridge.py:541-576 | 150 MB within 4 s raise a burst in that span unless one was raised less than 4 s before it |
| WriteBursts.SingleThresholdCanHide | detectors/minifilter_bridge.py:544-551 | a trace in which nearly 150 MB within 4 s raise nothing |
| RenameBursts.QueueIsRecount | detectors/minifilter_bridge.py:578-609 | the pruned queue is the recount from the full history, and a burst fires exactly when the recount says so |
| RenameBursts.FiresWhenDue | detectors/minifilter_bridge.py:587-593 | a rename fires exactly when 20 renames since the last burst are within 5 s and that burst is 5 s old, and reports their number |
| RenameBursts.FiresIff | detectors/minifilter_bridge.py:583-596 | the same without the recount: whichever rename raised the last burst, the next one comes exactly with 20 renames after it within 5 s, when it is 5 s ago, and counts exactly those |
| RenameBursts.BurstsAreDisjoint | detectors/minifilter_bridge.py:590-609 | bursts are at least 5 s apart and count no rename twice |
| BurstMonitor.Monitor.AccountWrite | detectors/minifilter_bridge.py:541-576 | in-place counters make exactly one accounting step for the PID and touch no other |
| BurstMonitor.Monitor.AccountRename | detectors/minifilter_bridge.py:578-609 | the in-place queue makes exactly one accounting step for the PID and touches no other |
| BurstMonitor.Monitor.HandleWrite | detectors/minifilter_bridge.py:518-520 | what a write raises is decided by that PID's own write history |
| BurstMonitor.Monitor.HandleRename | detectors/minifilter_bridge.py:522-524 | what a rename raises is decided by that PID's own rename history |
| SlidingWindow.PruneIsFilter | detectors/minifilter_bridge.py:583-585 | on an ordered queue pruning the front keeps exactly the recent times |
| SlidingWindow.PopOld | incident_report.py:1346-1348 | the popping loop computes the pruned queue |
| Campaigns.OnlineEqualsOfflineIff | incident_report.py:1128-1146 | for every interleaving and any timestamps the campaigns are the offline clustering, measured from the greatest stamp of a group, if and only if no action came late |
| Campaigns.CampaignsAreMaximalRunsIff | incident_report.py:1128-1146 | for every interleaving and any timestamps the campaigns are the maximal runs with consecutive stamps at most 120 s apart if and only if no action was misfiled |
| Campaigns.MisfiledIffDecidedDifferently | incident_report.py:1129-1133 | an action is misfiled exactly when the reporter joins it to the open campaign and its distance to the action before it does not call for that, or the other way round |
| Campaigns.DisorderMisfiles | incident_report.py:1128-1146 | stamps 100, 99 and 220, without any poll, end up in one campaign although the last two are 121 s apart |
| Campaigns.CampaignsAreTheMaximalRuns | incident_report.py:1128-1156 | under an orderly clock the campaigns are exactly the maximal runs with gaps of at most 120 s, and the last 200 are tracked |
| Campaigns.NeverLateUnderOrderlyClock | incident_report.py:1186-1192 | when no action is stamped earlier than a poll before it, an unforced poll only closes campaigns that no later action could join |
| Campaigns.ActionCanBeLate | incident_report.py:1128-1192 | an action stamped before a poll and filed after it is late, and its group is split in two |
| Campaigns.EveryActionInOneCampaign | incident_report.py:1144-1146 | in every run each reported action is in exactly one campaign, in order |
| Campaigns.CampaignsSummariseTheirMembers | incident_report.py:1139-1146 | start, last time, PIDs and file name of every campaign describe its members |
| Campaigns.TrackedAreTheLatest | incident_report.py:1141-1143 | the reporter's list is the last 200 campaigns formed |
| Campaigns.WrittenOnceAndComplete | incident_report.py:1178-1203 | the snapshots handed to the writer are exactly the finalised campaigns, each once and complete |
| Campaigns.PollMarksExactly | incident_report.py:1178-1192 | a poll sets the two marks of finality on exactly the open campaigns quiet for more than 120 s, on all open ones when forced, and changes nothing else |
| Campaigns.PollLeavesNoQuietCampaign | incident_report.py:1183-1192 | after any poll no campaign is open whose latest action is more than 120 s old, however many actions it has |
| Campaigns.CloseWritesEverythingTracked | incident_report.py:1205-1211 | after a forced poll every tracked campaign has been written |
| Campaigns.ReportFilesAreDistinct | incident_report.py:1136-1138 | under an orderly clock no two campaigns share a report file name |
| GapSplit.SplitCharacterised | postmortem.py:148-161 | a grouping is the gap split exactly when its groups are the maximal gap-free runs |
| GapSplit.LastGroupStartsAtLastGap | scan_damage.py:134-139 | the last group is the suffix that starts at the last gap |
| Sessions.IsolateLastSession | postmortem.py:148-161 | the forward scan returns the last group of the split at 300 s, for every list |
| Sessions.LastSessionBackward | scan_damage.py:130-139 | the early-exit backward scan returns that same group |
| ReportDedup.PruningIsUnobservable | incident_report.py:844-851 | on a nondecreasing clock every call gets the same answer from the pruned and the unpruned table |
| ReportDedup.ReportedUnlessRecent | incident_report.py:838-843 | a state is reported exactly when no report about it is less than 60 s old |
| ReportDedup.ReportsAreSpaced | incident_report.py:838-843 | two reports about one state are at least 60 s apart |
| ReportDedup.TableIsPruned | incident_report.py:844-851 | in every run the table exceeds 2048 entries only while all of them are within 60 s of the latest report |
| PopupBudget.AtMostThreePerWindow | incident_report.py:1337-1357 | every closed interval of 30 s contains at most three permitted popups |
| PopupBudget.QueueStaysShort | incident_report.py:1349-1357 | the limiter's queue never exceeds four entries |
| PopupBudget.FirstThreePermitted | incident_report.py:1356-1357 | the first three requests are permitted however close together |
| PopupBudget.PermitsIff | incident_report.py:1345-1357 | for every ordered list of requests, one is permitted exactly when the popups and the markers of the last 30 s are together fewer than three |
| PopupBudget.HeedsBudgetIff | incident_report.py:1349-1355 | a request is refused just when three popups were shown in the last 30 s, except exactly when fewer were shown and markers fill the rest |
| PopupBudget.SteadyRequestsStarve | incident_report.py:1350-1354 | under evenly spaced requests, 10 s apart or less, only the first three popups are ever permitted |
| PopupBudget.RefusedWithNothingShown | incident_report.py:1350-1354 | such requests are refused with no popup shown in the last 30 s |
| PopupBudget.SteadyDemandServedIff | incident_report.py:1349-1357 | evenly spaced requests are all served exactly when they are more than 10 s apart |
| IncidentReporter.CampaignRecord.constructor | incident_report.py:1139-1140 | a campaign opens empty at its first action's time |
| IncidentReporter.CampaignRecord.Add | incident_report.py:1144-1146 | an action updates last time, PIDs and members |
| IncidentReporter.CampaignRecord.Close | incident_report.py:1190-1191 | finalising sets the flag and its time only |
| IncidentReporter.Reporter.constructor | incident_report.py:803-815 | a reporter starts with nothing tracked, reported or shown |
| IncidentReporter.Reporter.UpdateCampaign | incident_report.py:1128-1146 | the in-place update of the campaign list is the clusterer's step |
| IncidentReporter.Reporter.OpenCampaign | incident_report.py:1135-1146 | a new campaign is appended and the list cut to its limit |
| IncidentReporter.Reporter.FinalizeDue | incident_report.py:1178-1203 | a poll finalises what is due and returns the snapshots to write |
| IncidentReporter.Reporter.AdmitReport | incident_report.py:838-851 | the answer and the new table are those of the dedup step |
| IncidentReporter.Reporter.NotifyRateOk | incident_report.py:1337-1357 | the answer and the new queue are those of the budget step |
| IncidentReporter.Reporter.OnAction | incident_report.py:826-885 | only effective, unrepeated actions are filed, and only filed ones may raise a popup |
| Cef.EscapesAreOnePass | integrations.py:48-60 | both chains of substitutions equal one-pass escapes |
| Cef.RenderingIsInvertible | integrations.py:72-96 | splitting at the first seven unescaped bars, then at unescaped equals signs with the last preceding space, undoes the rendering of any fields and pairs |
| Cef.RecordIsRecovered | integrations.py:63-96 | a reader recovers all seven header fields and every key with its value from any record, line breaks having become spaces |
| Cef.ReaderFindsExactly | integrations.py:79-96 | under every key a reader of the record finds the event's text for it, line breaks having become spaces, and nothing else; process, PID and path only when they are not empty, and nothing under any other key |
| Cef.ReaderFindsHeader | integrations.py:63-78 | a reader finds format, vendor, product and version, the name and message with their defaults, and the severity in the header |
| Cef.SeverityExactly | integrations.py:77 | the severity is 1, 3, 5, 8 or 10 by level, and 5 for any other text |
| Cef.MillisExactly | integrations.py:81 | the time is the event's, or that of printing, in whole milliseconds truncated toward zero |
| Texts.DecimalReadsBack | integrations.py:81-86 | a number is printed as digits that read back as it, without a leading zero |
| Cef.RecordHasPair | integrations.py:72-96 | a reader finds every pair and every header field of the event in the record |
| Cef.RecordIsOneLine | integrations.py:54-60 | no record contains a carriage return or line feed |
| Allowlist.PathEntryMatchesComponents | allowlist.py:72-86 | a path entry matches exactly when its components are a prefix of the image path's components |
| Allowlist.SiblingNeverMatches | allowlist.py:76-85 | a sibling that merely starts like the entry is never matched |
| Allowlist.AllowedIffAdmitted | allowlist.py:72-86 | a name and path are allowed exactly when some entry equals the lower-cased name or its components are a prefix of the normalised path's |
| Allowlist.SameVerdictsIff | allowlist.py:72-86 | two readings get the same decision from every list exactly when they agree in lower-cased name and in normalised path less the separators at its end |
| Allowlist.CacheIsTransparent | allowlist.py:208-241 | in every run a lookup through the cache answers what matching against the current entries answers, for a process whose own readings agree in that sense |
| Allowlist.SecondLookupTransparentIff | allowlist.py:228-240 | a second lookup of one process is right whatever the list exactly when its readings agree |
| Allowlist.CacheStaysCurrent | allowlist.py:164-197 | in every run each cached answer is the current one for the process it came from, and the cache holds at most 4096 |
| Allowlist.RetypedAsListedIff | allowlist.py:89-105 | an entry typed in again as it is listed is normalised to itself exactly when it is a path entry, or a name that is not empty and starts with neither a space nor what reads as a drive letter |
| Allowlist.ReadAs | allowlist.py:89-102 | what was typed is an error when empty, a path entry when the kind says so or, without a kind, when it looks like a path, and a name entry otherwise |
| Allowlist.ReadAsName | allowlist.py:103-105 | a name entry holds, in lower case, the part of what was typed after its last separator and drive letter |
| Texts.LowerCharExactly | allowlist.py:104 | lower-casing turns each capital into its own small letter and leaves every other character |
| Texts.StripExactly | allowlist.py:95 | the white space at both ends of what was typed goes, and nothing else |
| Allowlist.SpacedNameIsNotRetyped | allowlist.py:103-104 | a name after the last separator keeps its leading space and is lost when typed again |
| Allowlist.RemoveUndoesAdd | allowlist.py:164-191 | removing what was just added under the same text restores the entries |
| Allowlist.FileHoldsTheEntries | allowlist.py:147-197 | in every run the entries are those last handed to the file's writer or loaded since |
| Allowlist.UnreadableImageStaysRefused | allowlist.py:228-240 | an image unreadable at the first lookup stays refused after it becomes readable |
| Allowlist.OperatorAllowlist.constructor | allowlist.py:114-122 | the list starts with the loaded entries and an empty cache |
| Allowlist.OperatorAllowlist.LoadEntries | allowlist.py:126-145 | loading replaces the entries and empties the cache; an unreadable file changes nothing |
| Allowlist.OperatorAllowlist.AddEntry | allowlist.py:89-175 | what was typed is normalised; an empty value or a duplicate changes and saves nothing; a new entry is appended, the cache emptied and the list saved |
| Allowlist.OperatorAllowlist.RemoveEntry | allowlist.py:177-191 | exactly the entries of the normalised kind and value go; when one did, the cache is emptied and the list saved |
| Allowlist.OperatorAllowlist.ClearAll | allowlist.py:193-197 | entries and cache become empty and the empty list is saved |
| Allowlist.OperatorAllowlist.AnyEntryMatches | allowlist.py:201-206 | true exactly when some entry matches the lower-cased name or the normalised path |
| Allowlist.OperatorAllowlist.PidAllowed | allowlist.py:208-241 | answer and cache change as the lookup step says |

## Left out

- Detectors that compute entropy, compare magic bytes or match regular expressions, and their own sliding windows.
- Process lookup and termination, the filter library, databases, files, sockets and the web dashboard: each is
  replaced by its possible results (a kill succeeds or fails, a lookup returns texts or empty ones, a message is
  delivered or lost).
- Interleavings inside one call; the agent, the finaliser and the driver are separate steps.
- The campaign's captured signals and the Markdown, tables and notifications made from them.
- The file name of a campaign report is its start time in whole seconds; local time and its repeated hour are not
  modelled, nor is a failing disk write.
- The driver's start-up and unload order, registry and handle filtering.
- Threat-breakdown technique tags and the attack map's data; the technique of a record is a parameter of the printer.
- The forwarder's queue and counters.
- The allowlist's signal exemption, the parsing of its file, a write of it that fails, and network paths under an
  explicit name kind; the system root is taken to be `C:\Windows`.
- White space, lower-casing and path normalisation cover the ASCII characters.
- Error texts and time stamps of actions: errors are a small set of values.
- Metadata values of unexpected types under the process and command-line keys count as absent.
- PopupBudget.AtMostThreePerWindow: an upper bound only; that a popup is ever shown again is false under evenly spaced
  requests, as `PopupBudget.SteadyDemandServedIff` shows.
