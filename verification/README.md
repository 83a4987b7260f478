# Verified models of the remote workspace agent

This project models the parts of the agent whose correctness rests on an argument rather than on a
single function body, and proves those arguments with Dafny. `dafny verify dfyconfig.toml` checks
everything. A text is a `string` in which each character stands for one byte; times are integers
(or reals for the rate limiter); clocks, random identifiers, the file system, the network and process
events are parameters or adversarial choices. Code that changes state step by step is a class or a
method with loops, proved against a specification function or predicate; concurrent code is a
relation over its critical sections, and its results hold for every interleaving.

- **Unified diff** (`TextLines`, `DiffScripts`, `DiffEngine`, `DiffHunks`, `DiffPatch`, `UnifiedDiff`,
  `DiffReader`). Splitting loses nothing and is the only split. The script from the trimmed, backwards-filled flat
  table keeps as many lines as any script can and is the shortest. The hunks are exactly the maximal
  stretches near a change. A patch reader that trusts only headers and bodies rebuilds the new lines,
  including the decremented start of an empty range ("Diff -u or -U Output Format", `diff`,
  POSIX.1-2017 XCU). The printed text itself reads back to the same names, headers, marks and lines.
- **Exact edits and indentation** (`Search`, `EditSpans`, `EditPlan`, `EditMeaning`, `Indentation`). A successful
  plan is the simultaneous replacement of pairwise disjoint spans; success and result do not depend on the
  order of the edits. One plain edit cuts the text at its target and joins it by its replacement.
  Re-indented lines land where column arithmetic says.
- **Newlines** (`Newlines`). Sizing and building agree; contents are kept and only the chosen break remains.
- **Batch edit** (`FileWorker`). Every failure pattern of a file system whose failed writes may have
  taken effect leaves exactly the updated files, exactly the original ones, or says otherwise; failures
  still to come are counted, and each costs at most one file that cannot be restored.
- **Memory scanner** (`MemoryScan`). The chunked search reports what a one-shot search would.
- **Stdio bridge** (`BridgeSession`, `BridgeProtocol`, `BridgeSafety`, `BridgeAnswers`, `BridgeProgress`,
  `BridgeCancellation`). Scanner, workers and lifecycle workers interleave over the five-phase session and
  the in-flight table; every finished request has been answered exactly once unless one of four named steps
  ended it, and no handshake is abandoned.
- **Exec supervisor** (`ExecTable`, `ExecSupervisor`, `ExecService`, `ExecRevocation`). Starts, revocation,
  exits and shutdown race; a revocation takes all processes of its owner exactly when no request is past its check.
- **Approvals** (`Paths`, `ApprovalClaims`, `ReplayStore`, `ApprovalProtocol`). Register, inspect, take
  and consume interleave; each acceptance spends its own registration and is for its verifier's scope.
- **Seccomp filters** (`Bpf`). An interpreter for classic BPF and two verified generators.
- **Gateway** (`RateLimiter`, `RateWindow`, `RateDrops`, `Sessions`, `SessionRuns`, `SessionLedger`,
  `Lifecycle`, `Registry`, `Router`). Runs of the limiter with expiry, eviction and late clock readings, of
  the session and workspace stores with their notifications, and of a server's revocation. What the session
  store answers is proved from the history of calls alone.
- **Ignore rules** (`GitIgnore`) and **shell quoting** (`ShellQuote`, against sections 2.2.1, 2.2.2, 2.2.3
  and 2.3 of POSIX.1-2017 XCU).

`Basics` and `StringOrder` hold shared definitions.

## Where the code falls short of a claim

Each of these is proved as an exact condition, with a concrete failing case:

- Forwarding a cancellation ignores the duplicate verdict on the id the cancellation itself carries, and
  then queues an empty job whose execution panics. A run has made such a job exactly when a cancellation
  got to its `newJob` with its own id in flight at that moment (`BridgeCancellation.CrashesIff`). Seen
  from the earlier mark on the cancelled job, no continuation makes one exactly when that id is not in
  flight at the mark; if it is, a worker may still finish the id in time
  (`BridgeCancellation.CancellationUsable`, `BridgeCancellation.SelfCancellationCrashes`).
- Adapting indentation can swallow a blank line: a line feed left alone after a carriage return joins
  it, and a blank last line without a break disappears (`Indentation.AdaptedSplitsBack`,
  `Indentation.SwallowedLine`).
- A rate-limited subject can exceed the bound of a window: burst and what time brings from the reading of
  the window's first request to the subject's latest reading. In any run, evictions and late readings
  included, it is certain to stay within that bound, however it goes on to use its tokens, if and only if
  its bucket is only ever missing while idle time would have refilled it (`RateDrops.StaysInBoundIff`).
  - Under expiry alone and readings that come in order this is so in all runs if and only if
    rate * lifetime is at least burst (`RateDrops.BoundedIff`).
  - The clock is read before the lock is taken. When readings may come late to the lock, expiry alone can
    break the bound for every rate and lifetime: it is kept in all runs if and only if burst is 0
    (`RateDrops.BoundedInAnyOrderIff`).
  - Eviction from a full table can break it: two requests at once are allowed against a bound of one
    (`RateDrops.EvictionBreaksBound`).
- A server that a replacement moves to another workspace id stays routed although it has been revoked
  (`Router.ReplacementUnrevoked`, `Router.MovedServerIsRevoked`). The gateway's own reload builds a new
  server for every binding and never meets this (`Router.FreshServersUnrevoked`); only other callers of the
  router are exposed.
- `exec_run` does not hold the execution mutex while it runs. A revocation is certain to leave no process
  of its owner alive or listed if and only if no `exec_run` of the owner was between its check and the
  listing of its process when the owner entered the revoked set (`ExecRevocation.RevokeTakesAllIff`,
  `ExecSupervisor.ExecRunMayOutliveRevoke`).
- `Server.Revoke` returns at once when another call has begun: the return means that every request has
  been cancelled exactly for the first caller (`Lifecycle.ReturnMeansCancelledIff`,
  `Lifecycle.SecondCallerReturnsEarly`).

## Model

| member | source | states |
|---|---|---|
| TextLines.LinesJoin | internal/textfile/diff.go:153-183 | joining the lines of a text gives the text back |
| TextLines.LinesCanonical | internal/textfile/diff.go:153-183 | no line contains a break, no CRLF is cut in two, and only a last non-empty line may lack a break |
| TextLines.LinesUnique | internal/textfile/diff.go:153-183 | any line list with these properties is recovered from its text, so the split is the only one |
| DiffEngine.SplitDiffLines | internal/textfile/diff.go:153-183 | the splitting loop computes that split |
| DiffScripts.KeptBounded | internal/textfile/diff.go:185-245 | no script keeps more lines than a longest common subsequence has |
| DiffScripts.LcsTrim | internal/textfile/diff.go:186-199 | trimming a shared prefix and suffix loses nothing of the longest common subsequence |
| DiffEngine.FillTable | internal/textfile/diff.go:208-221 | filled backwards, every cell of the flat table holds the longest common subsequence length of the two remainders |
| DiffEngine.WalkTable | internal/textfile/diff.go:222-243 | the walk yields a script from one side to the other that attains the table's length |
| DiffEngine.CalculateDiff | internal/textfile/diff.go:185-245 | the script turns the old lines into the new ones, no script keeps more lines, none is shorter; it fails exactly when the trimmed table is too large |
| DiffEngine.LcsScriptIsMinimal | internal/textfile/diff.go:185-245 | a script that keeps a longest common subsequence is a shortest one |
| DiffHunks.MakeHunks | internal/textfile/diff.go:247-286 | the hunks are exactly the maximal stretches of ops within the context of a change, ordered and with an op between neighbours |
| DiffHunks.HunksUnique | internal/textfile/diff.go:247-286 | a script has only one such list of hunks |
| DiffHunks.NoHunksIffEqual | internal/textfile/diff.go:67-74 | there are no hunks exactly when the script changes nothing |
| DiffPatch.HunkCounts | internal/textfile/diff.go:297-308 | the counts are the lengths of the hunk's two sides |
| DiffPatch.AdvanceTo | internal/textfile/diff.go:288-295 | the positions advance by the lines each side of the skipped ops has |
| DiffPatch.LocateHunks | internal/textfile/diff.go:85-121 | every hunk gets the one-based start and count of both sides, the start of an empty side being decremented |
| DiffPatch.PatchGivesNew | internal/textfile/diff.go:85-121 | applying the hunks to the old lines by their (start, count) headers gives exactly the new lines |
| UnifiedDiff.Diff | internal/textfile/diff.go:53-123 | the diff renders faithful hunks, is empty exactly for equal texts, and fails exactly when the table or the text is too large |
| UnifiedDiff.WriteHunks | internal/textfile/diff.go:80-122 | the incremental size check fails exactly when the complete rendering would exceed the limit |
| UnifiedDiff.HunksRebuildText | internal/textfile/diff.go:53-123 | the hunks of a diff patch the old text into the new text, and there are none exactly when the texts are equal |
| UnifiedDiff.MinimalOnEqual | internal/textfile/diff.go:185-245 | a minimal script between equal line lists keeps every line |
| DiffReader.RenderReadsBack | internal/textfile/diff.go:76-123 | the printed diff, read as a patch program reads it, gives back the names, header numbers, kinds and lines of every hunk, with or without a last line break |
| DiffReader.PrintedDiffRebuilds | internal/textfile/diff.go:53-123 | the printed text of a diff, read back and applied, turns the old lines into the new ones, CR and CRLF being printed alike |
| EditSpans.MatchesAreMaximal | internal/textfile/edit.go:249-261 | the matches are occurrences that do not overlap, and every occurrence overlaps a match that starts no later |
| EditSpans.LiteralMatches | internal/textfile/edit.go:249-261 | the loop returns the first matches up to the limit |
| EditSpans.NeighboursSuffice | internal/textfile/edit.go:137-148 | after sorting, comparing neighbours decides disjointness of all pairs |
| EditSpans.DisjointIsPairwise | internal/textfile/edit.go:137-148 | pairwise disjointness of the list is a property of the collection, free of order |
| EditSpans.BuildReplaces | internal/textfile/edit.go:150-159 | the splice of a sorted list without overlaps is the simultaneous replacement of the set of spans |
| EditSpans.BuildLength | internal/textfile/edit.go:97-136 | the length of the splice is the text's length plus the summed growth of the spans |
| EditSpans.GrowthPermutes | internal/textfile/edit.go:97-136 | the tracked growth does not depend on the order of the spans |
| EditSpans.Sort | internal/textfile/edit.go:137-142 | the sorted list is sorted and has the same spans |
| EditSpans.HasConflict | internal/textfile/edit.go:143-148 | the loop finds a conflict exactly when some span starts before its predecessor ends |
| EditSpans.Splice | internal/textfile/edit.go:150-159 | the builder loop computes the splice |
| EditPlan.PlanEdits | internal/textfile/edit.go:86-164 | the planner returns the specified outcome: the first error in the order of checks, otherwise the simultaneous replacement and the match counts |
| EditPlan.PlanAccepts | internal/textfile/edit.go:86-164 | a plan succeeds exactly when every edit is usable on its own, the spans are disjoint, the totals fit and the result has no control character; its text is then the simultaneous replacement |
| EditPlan.PlanPermutes | internal/textfile/edit.go:86-164 | permuting the edits changes neither success nor the result |
| EditPlan.EditedLength | internal/textfile/edit.go:97-136 | the tracked output length is the length of the result |
| EditPlan.HasControl | internal/textfile/codec.go:338-348 | binary means that some control character other than tab and line breaks occurs |
| EditPlan.File.Apply | internal/textfile/edit.go:59-68 | the text changes only when the whole edit set succeeds, and then to the planned text |
| EditMeaning.PlannedIff | internal/textfile/edit.go:86-164 | a plan has exactly the text in which each edit's replacement, or its re-indented form, stands at each of that edit's sites, and the number of sites of each edit; if and only if all edits are usable, the sites are disjoint, and the limits and the binary check hold |
| EditMeaning.OneEdit | internal/textfile/edit.go:86-164 | one plain edit cuts the text at its target from left to right and joins it by its replacement, counting the cuts, or gives the first of the errors not found, ambiguous, too many, too large and binary |
| EditMeaning.OnlyOccurrence | internal/textfile/edit.go:105-131 | a target that occurs once is replaced there, with count 1, and nothing else changes |
| Indentation.RenderMeasured | internal/textfile/edit.go:226-247 | measuring a rendered indentation returns the requested column for every style and width |
| Indentation.AdaptedMeans | internal/textfile/edit.go:166-202 | the first line, every ending and every text after its indentation are kept; a non-blank continuation line lands at column max(0, target + own - first), target being where the indentation of the line of the match ends; a blank one is emptied |
| Indentation.LineStartIff | internal/textfile/edit.go:170-174 | the line of a position starts after the last break before it, or at the start of the text |
| Indentation.AdaptedSplitsBack | internal/textfile/edit.go:181-200 | the adapted text has exactly the adapted lines if and only if no blank line is swallowed |
| Indentation.SwallowedLine | internal/textfile/edit.go:181-200 | a replacement with a swallowed line exists |
| Indentation.IndentationColumns | internal/textfile/edit.go:226-236 | the loop measures the column after a stretch of indentation |
| Indentation.RenderIndentation | internal/textfile/edit.go:238-247 | division with remainder renders as many whole tabs as fit and then spaces |
| Indentation.ReplacementLine | internal/textfile/edit.go:204-216 | the scan finds the line at a position, its break and the next start |
| Indentation.AdaptReplacementIndentation | internal/textfile/edit.go:166-202 | the loop computes the adapted text, unchanged when the replacement has one line |
| Indentation.Normalized | internal/textfile/editorconfig.go:242-254 | normalized settings have a style and a tab width from 1 to 32 |
| Newlines.InspectNewlines | internal/textfile/codec.go:350-406 | the counts are those of the lines' endings; the style says which kinds occur; the dominant style is a most frequent one, the text's first one on a tie that includes it |
| Newlines.NormalizeNewlines | internal/textfile/codec.go:408-460 | the normalised text is returned exactly when it fits the limit: sizing and building agree |
| Newlines.NormalizedLines | internal/textfile/codec.go:408-460 | normalising keeps the number of lines and every line's content, and every break becomes the chosen one |
| Newlines.NormalizeTwice | internal/textfile/codec.go:408-460 | normalising is idempotent, and a second style overrides the first |
| Newlines.NormalizedCounts | internal/textfile/codec.go:350-460 | after normalising only the chosen style is counted, as often as all three before |
| Newlines.NormalizedStyle | internal/textfile/codec.go:408-460 | after normalising, the chosen break is the first and only kind of break in the text |
| Newlines.CountsArePlaces | internal/textfile/codec.go:350-406 | the reported counts are the numbers of places at which each kind of break stands |
| FileWorker.FileSystem.WriteFile | internal/workspace/workspace.go:517-551 | the write contract: without an expected digest only a missing file is created, with one only the file that has it is replaced; without a failure it succeeds exactly when that and the limit allow; a failure leaves old or new bytes |
| FileWorker.Service.PreflightEdits | internal/fileworker/worker.go:572-633 | unless an operation fails, the preflight gives exactly the specified plans or refusal |
| FileWorker.PlanFilesMeans | internal/fileworker/worker.go:572-633 | the specified plans are one for each file, with distinct paths, made from its content, and both byte totals are within the limit |
| FileWorker.PreflightIff | internal/fileworker/worker.go:572-633 | one to twenty files are planned exactly when there is a list of plans made from them, with distinct paths and both byte totals within the limit, that leaves something of the input budget for each file; those are the plans |
| FileWorker.Service.RestoreEdit | internal/fileworker/worker.go:564-570 | true means that the target holds its original bytes; without a failure a target with its original or updated bytes is restored; no other file changes |
| FileWorker.Service.RollBack | internal/fileworker/worker.go:528-553 | at most one target stays changed for each operation that fails during the rollback, and without one everything is restored; a completed rollback leaves every file as before the batch and says "restored" exactly when an earlier file was written or the failed write had taken effect |
| FileWorker.Service.Edit | internal/fileworker/worker.go:504-562 | without failures the outcome is exactly the specified one; if a single operation fails after the preflight every file is as before; applied means that every target goes from its before digest to its after digest and nothing else changes; otherwise fewer targets stay changed than operations failed |
| FileWorker.Service.Apply | internal/fileworker/worker.go:524-561 | without failures the writes are applied; after one failure they are rolled back; after more, fewer targets stay changed than operations failed |
| FileWorker.AllOriginal | internal/fileworker/worker.go:528-553 | when every target holds its original bytes and nothing else changed, the file system is as before |
| FileWorker.AppliedMeans | internal/fileworker/worker.go:517-561 | carrying out the batch gives each target its updated bytes and changes no other file |
| MemoryScan.OccurrencesExact | internal/execworker/mem_linux.go:126-168 | the list is ascending and has exactly the occurrences, overlapping ones included |
| MemoryScan.SearchWindow | internal/execworker/mem_linux.go:141-156 | searching the carry and the new bytes extends the first maxResults occurrences to all bytes seen; the filter on matches inside the carry rejects nothing |
| MemoryScan.NextCarry | internal/execworker/mem_linux.go:157-161 | the bytes kept are the end of what has been seen, one byte short of a pattern |
| MemoryScan.ScanMemoryRegion | internal/execworker/mem_linux.go:126-168 | for every chunk size the scan reports the first maxResults occurrences in the consumed bytes, at most the budget, and stops early only with that many |
| MemoryScan.StreamIsMemory | internal/execworker/mem_linux.go:130-162 | when every read returns the memory's bytes at its offset, the consumed bytes are the memory's own, in order and without gaps, up to the budget |
| MemoryScan.ScanProcessMemory | internal/execworker/mem_linux.go:33-68 | the regions share one byte budget and one result budget |
| BridgeSession.StepCoherent | cmd/stdio-bridge/bridge.go:508-668 | every session operation keeps the session id present exactly in waiting-initialized and initialized, never moves the phase back and never leaves failed |
| BridgeSession.RunCoherent | cmd/stdio-bridge/bridge.go:508-668 | the same over every order of operations |
| BridgeSession.OneAttempt | cmd/stdio-bridge/bridge.go:508-531 | at most one initialization attempt is ever opened |
| BridgeSession.SessionGuard.BeginInit | cmd/stdio-bridge/bridge.go:508-531 | the method's new state and answer are those of the specification |
| BridgeSession.SessionGuard.BeginNotice | cmd/stdio-bridge/bridge.go:533-558 | the method's new state and answer are those of the specification |
| BridgeSession.SessionGuard.CompleteInit | cmd/stdio-bridge/bridge.go:600-610 | the method's new state is that of the specification |
| BridgeSession.SessionGuard.FailInit | cmd/stdio-bridge/bridge.go:612-623 | the method's new state is that of the specification |
| BridgeSession.SessionGuard.CompleteNotice | cmd/stdio-bridge/bridge.go:625-637 | the method's new state is that of the specification |
| BridgeSession.SessionGuard.FailNotice | cmd/stdio-bridge/bridge.go:639-653 | the method's new state is that of the specification |
| BridgeSafety.RunInv | cmd/stdio-bridge/bridge.go:223-506 | the invariants on identity, hand-over, in-flight table and response lines hold in every interleaving |
| BridgeSafety.RunForward | cmd/stdio-bridge/bridge.go:664-668 | over any run the phase only moves forward, failed is absorbing, and a negotiated identity stays |
| BridgeSafety.IdentifierPresence | cmd/stdio-bridge/bridge.go:600-668 | in every reachable state the session id is non-empty exactly in waiting-initialized and initialized |
| BridgeSafety.RequestsAfterInitialization | cmd/stdio-bridge/bridge.go:560-598 | every ordinary request sent carries the one negotiated or configured identity, and only after the session was initialized |
| BridgeSafety.EverInitializedIsHistory | cmd/stdio-bridge/bridge.go:625-637 | the history flag means that some earlier state of the run was initialized |
| BridgeSafety.OneJobOneLine | cmd/stdio-bridge/bridge.go:369-396 | two unfinished jobs never share an id, and no job writes a second response line |
| BridgeAnswers.EveryRequestAnswered | cmd/stdio-bridge/bridge.go:398-506 | in every run each finished job of a message that is not a notification has been answered with exactly one line, unless the bridge went down, its cancellation or a message without an id met a full queue, or it was an initialized notice with an id that was refused |
| BridgeAnswers.NotificationsUnanswered | cmd/stdio-bridge/bridge.go:687-693 | in every run a notification is never answered |
| BridgeAnswers.NoJobStuck | cmd/stdio-bridge/bridge.go:398-506 | in every reachable state each queued or running job has a step that brings it closer to its end |
| BridgeAnswers.NoticeCompletes | cmd/stdio-bridge/bridge.go:459-467 | in every run an accepted notice of the open attempt leaves the session initialized with the negotiated identity |
| BridgeAnswers.InitializedServes | cmd/stdio-bridge/bridge.go:560-598 | once the session is initialized, an ordinary job that looks at it gets the negotiated identity |
| BridgeAnswers.HandshakeCompletes | cmd/stdio-bridge/bridge.go:223-506 | for every safe session id and version that the remote side answers with there is a run that ends initialized with them |
| BridgeProgress.NoAbandonedAttempt | cmd/stdio-bridge/bridge.go:508-668 | in every run a session that is initializing has an initialize job of the open attempt that is still to complete or fail it, and so has a session whose initialized notice was read a job of that notice |
| BridgeSafety.NoLostWakeup | cmd/stdio-bridge/bridge.go:560-598 | a worker that waits does so on a session that has not changed since it looked |
| BridgeCancellation.CrashesIff | cmd/stdio-bridge/bridge.go:714-737 | a run has made an empty job exactly when a cancellation got to its newJob with its own id in flight at that moment; no other run crashes, and such a run can |
| BridgeCancellation.CancellationUsable | cmd/stdio-bridge/bridge.go:714-737 | from the mark on, until another cancellation is read, no continuation makes an empty job if and only if the carried id is not in flight at the mark; some continuation always gives the cancellation a usable job |
| BridgeCancellation.NotificationsNeverCrash | cmd/stdio-bridge/bridge.go:714-737 | a run whose cancellations carry no id never makes an empty job |
| BridgeCancellation.ForwardedOnce | cmd/stdio-bridge/bridge.go:725-734 | over any run the cancellation of a job is marked for forwarding at most once |
| BridgeCancellation.SelfCancellationCrashes | cmd/stdio-bridge/bridge.go:714-737 | a run in which a cancellation carries the id it cancels ends in the panic |
| ExecTable.AcceptedLength | internal/execworker/backend_linux.go:380-414 | both output streams together keep min(total, limit) bytes |
| ExecTable.AcceptedIs | internal/execworker/backend_linux.go:397-414 | each output stream keeps exactly its own bytes among the first limit bytes that arrived on both |
| ExecTable.BoundedOutput.Write | internal/execworker/backend_linux.go:397-414 | each write keeps what the shared budget still allows and reports the whole length |
| ExecTable.BoundedOutput.Snapshot | internal/execworker/backend_linux.go:416-420 | the snapshot is within the limit and says truncated exactly when bytes were dropped |
| ExecTable.ProcessTable.Insert | internal/execworker/backend_linux.go:196-216 | a launched record enters the table unless it has been closed |
| ExecTable.ProcessTable.MarkExited | internal/execworker/backend_linux.go:218-240 | an exited record is no longer running and nothing else changes |
| ExecTable.ProcessTable.Collect | internal/execworker/backend_linux.go:304-313 | revocation collects exactly the owner's listed records |
| ExecTable.ProcessTable.Remove | internal/execworker/backend_linux.go:320-326 | the collected records leave the table and no other |
| ExecTable.ProcessTable.BeginClose | internal/execworker/backend_linux.go:328-342 | the first close marks the table closed and collects every running record |
| ExecSupervisor.RunInv | internal/execworker/server.go:238-273 | the invariant on threads, mutex and table holds in every interleaving |
| ExecSupervisor.RevokedStaysClean | internal/execworker/server.go:238-273 | once session_revoke has returned, no process_start record of the owner is listed or alive, then and ever after |
| ExecSupervisor.ClosedStaysQuiet | internal/execworker/backend_linux.go:328-348 | once the first close has returned, no listed record runs and none is added |
| ExecSupervisor.ExecRunMayOutliveRevoke | internal/execworker/server.go:238-273 | a run in which an exec_run process is listed and running after its owner's revocation returned |
| ExecService.StartServes | internal/execworker/server.go:250-262 | undisturbed, process_start of an owner that is not revoked starts and lists one process of that owner, a closed table kills it again, and a revoked owner's starts nothing |
| ExecService.RunServes | internal/execworker/backend_linux.go:68-81 | undisturbed, exec_run of an owner that is not revoked lists one running process of that owner and takes it out again when it ends |
| ExecService.RevokeServes | internal/execworker/server.go:241-249 | undisturbed, a revocation returns with the owner revoked and exactly its records out of the table, every other process being left alone |
| ExecService.CloseServes | internal/execworker/backend_linux.go:328-348 | undisturbed, the first close returns with the table closed and everything listed still listed and no longer running |
| ExecRevocation.RunTrackedAll | internal/execworker/backend_linux.go:196-216 | in every interleaving each running process that is not listed is held by exactly one request |
| ExecRevocation.RevokeTakesAllIff | internal/execworker/server.go:238-273 | from the moment the owner is in the revoked set: in every continuation the returned revocation leaves, then and ever after, no process of the owner of either kind listed or alive, if and only if no exec_run of the owner is between its check and the listing of its process |
| Paths.SplitJoin | internal/capability/token.go:200-209 | splitting a joined list of components gives the list back |
| Paths.NormalizedParts | internal/capability/token.go:200-209 | a normalized path is made of proper names: no "..", no ".", no empty component, unless it is "." itself |
| Paths.NormalizePathIdempotent | internal/capability/token.go:200-209 | normalizing a normalized path changes nothing |
| Paths.NormalizePathIff | internal/capability/token.go:200-209 | a path is normalized exactly when it is not empty, relative, has no NUL and leads from every place to one at or below it; the result names that one |
| ApprovalClaims.NormalTargets | internal/approval/token.go:236-256 | normalized targets are as many as before, clean, distinct and keep their hashes |
| ApprovalClaims.NormalIff | internal/approval/token.go:217-272 | a claim is its own normal form exactly when its identifiers, approver, review digest, distinct clean targets with valid hashes and single-target fields meet the requirements |
| ApprovalClaims.NormalizedIsNormal | internal/approval/token.go:217-272 | normalized claims satisfy every requirement of a normal claim |
| ApprovalClaims.NormalizeClaimsIdempotent | internal/approval/token.go:217-272 | normalizing claims is idempotent |
| ApprovalClaims.NormalFormIff | internal/approval/token.go:217-272 | the normal form of any claim is the same claim with the challenge named, the targets normalized and the single-target fields in agreement, provided that is a normal claim |
| ApprovalClaims.AuthenticateIff | internal/approval/token.go:168-203 | a signed token is good exactly when its claims normalize with an approver, it has not expired and has at most five minutes left, and its session, operation, review digest and normalized targets are those asked for |
| ReplayStore.UsedOnce | internal/replay/store.go:42-56 | over any sequence of operations, between an admitted use of a key and its expiry no other use of that key is admitted |
| ReplayStore.ReusedIff | internal/replay/store.go:42-56 | after an admitted use the next one of its key is admitted exactly when its own clock reading, or that of an admitted use of any key in between, has reached the expiry |
| ReplayStore.TakeDeliversIff | internal/replay/store.go:58-91 | in every run a take delivers a payload exactly when an unexpired registration of it has since been neither taken nor replaced |
| ReplayStore.RegistersIff | internal/replay/store.go:58-70 | in every run a challenge is registered exactly when no standing registration of its key is unexpired at the store's reading |
| ReplayStore.FirstUse | internal/replay/store.go:42-56 | in every run the first use of a key is admitted |
| ReplayStore.Memory.ConsumeUse | internal/replay/store.go:42-56 | the method prunes expired uses and admits one unexpired use per key |
| ReplayStore.Memory.PutChallenge | internal/replay/store.go:58-70 | an unexpired challenge is never replaced |
| ReplayStore.Memory.PeekChallenge | internal/replay/store.go:71-79 | peeking delivers a fresh payload and changes nothing |
| ReplayStore.Memory.TakeChallenge | internal/replay/store.go:80-91 | whatever the outcome, the key holds no challenge afterwards |
| ApprovalProtocol.RunInv | internal/approval/token.go:79-166 | in every interleaving each registration is in one place: in the store, with one verifier, or spent |
| ApprovalProtocol.Conservation | internal/approval/token.go:127-148 | an id is verified at most as often as it was registered, and each acceptance spends a registration of its own |
| ApprovalProtocol.AcceptedIsBound | internal/approval/token.go:205-215 | in every interleaving each accepted approval has the ids, session, operation, review digest and targets of the one registration it spends, and expires no later |
| ApprovalProtocol.AcceptedIsAuthorized | internal/approval/token.go:168-203 | in every interleaving each accepted approval has a valid approver, its verifier's session, operation and review digest, exactly its targets with normalized paths and well-formed digests, and was in time at its verifier's reading with at most five minutes left |
| ApprovalProtocol.VerifyAcceptsIff | internal/approval/token.go:127-148 | in every reachable state an undisturbed verification accepts exactly when the claims normalize, are in scope and in time, match a standing registration, and no use of their id is remembered |
| ApprovalProtocol.RegistersIff | internal/approval/token.go:79-95 | in every reachable state a registration succeeds exactly for claims that normalize, expire in the future and within five minutes, and whose id has no unexpired challenge |
| Bpf.CheckedStops | internal/execworker/child_linux.go:185-239 | a program that passes the kernel's static check stops with a verdict on every input |
| Bpf.ExecFilterCorrect | internal/execworker/child_linux.go:185-239 | for every deny list and input the exec filter kills on a wrong architecture, refuses a denied call, a disallowed socket family and PR_SET_PDEATHSIG, and allows the rest |
| Bpf.SimpleFilterCorrect | internal/sandbox/seccomp_linux.go:13-49 | for every deny list and input the simple filter kills on a wrong architecture, refuses a denied call and allows the rest |
| Bpf.FiltersChecked | internal/execworker/child_linux.go:190-239 | both programs pass the kernel's check, up to its length limit |
| Bpf.ApplySeccomp | internal/sandbox/seccomp_linux.go:18-40 | the appending loop builds the simple filter |
| Bpf.ApplyExecSeccomp | internal/execworker/child_linux.go:190-230 | the appending loop builds the exec filter |
| RateLimiter.Limiter.Allow | internal/gateway/gateway.go:1588-1619 | the new table and the answer are those of the specification, for some order of visiting the table |
| RateLimiter.Limiter.RemoveExpired | internal/gateway/gateway.go:1621-1627 | exactly the expired buckets go |
| RateLimiter.Limiter.EvictOldest | internal/gateway/gateway.go:1629-1640 | eviction is the fold over the order in which the table is visited |
| RateLimiter.EvictsOldest | internal/gateway/gateway.go:1629-1640 | without the empty subject, eviction removes exactly the bucket that is older than every other |
| RateLimiter.EvictsNothing | internal/gateway/gateway.go:1629-1640 | with the empty subject, eviction removes nothing exactly when the visit ends with it and no bucket was seen before it |
| RateWindow.RunBounded | internal/gateway/gateway.go:1588-1640 | in every run over non-empty subjects, expiry and eviction included, the table never exceeds its limit |
| RateWindow.EvictedIff | internal/gateway/gateway.go:1588-1640 | in every run over non-empty subjects a live bucket leaves the table exactly to make room for a new subject in a full table, when it is older than every other |
| RateWindow.RunSane | internal/gateway/gateway.go:1588-1640 | in every run, expiry and eviction included, the tokens of every bucket stay in [0, burst] |
| RateWindow.ForgettingIsInvisible | internal/gateway/gateway.go:1588-1640 | in every run, with readings in any order, while a subject's bucket is only missing when idle time would have refilled it, the subject is answered as by a limiter that never drops a bucket, whatever happens to other subjects |
| RateWindow.WindowBound | internal/gateway/gateway.go:1588-1640 | in every run, with readings in any order, such a subject is allowed at most burst and what time brings from the window's first reading to its latest |
| RateDrops.StaysInBoundIff | internal/gateway/gateway.go:1588-1640 | in any run, with readings in any order, at every moment and however the subject goes on to use its tokens, it stays within the bound in every window, if and only if its bucket is only missing while idle time would have refilled it |
| RateDrops.BoundedIff | internal/gateway/gateway.go:1588-1627 | in all runs whose clock readings come in the order of the lock, subjects that are never evicted stay within the bound, if and only if rate times lifetime is at least burst |
| RateDrops.BoundedInAnyOrderIff | internal/gateway/gateway.go:1588-1627 | when readings may come late to the lock, subjects that are never evicted stay within the bound in all runs if and only if burst is zero |
| RateDrops.EvictionBreaksBound | internal/gateway/gateway.go:1596-1640 | with rate times lifetime at least burst, a subject evicted from a table of one bucket is allowed twice at once against a bound of one |
| Sessions.SessionStore.Create | internal/gateway/session.go:44-68 | expired sessions go, then the oldest until there is room; exactly these are notified, and the new session is added |
| Sessions.SessionStore.EvictOldest | internal/gateway/session.go:165-185 | the evicted session has the least (last seen, id) |
| Sessions.SessionStore.DropExpired | internal/gateway/session.go:154-163 | exactly the expired sessions are removed and listed, each once |
| Sessions.SessionStore.ValidateAndTouch | internal/gateway/session.go:70-95 | the method's new store and answer are those of the specification, whose meaning over runs the `SessionLedger` rows state |
| Sessions.SessionStore.MarkRevokingSession | internal/gateway/session.go:97-122 | the method's new store and answer are those of the specification, whose meaning over runs the `SessionLedger` rows state |
| Sessions.SessionStore.DeleteRevokedSession | internal/gateway/session.go:124-130 | only a revoking session of that principal is deleted |
| Sessions.SessionStore.Snapshot | internal/gateway/session.go:138-152 | the snapshot is the store without its expired sessions, which are notified |
| SessionRuns.EvictionConserves | internal/gateway/session.go:44-68 | eviction leaves every session unchanged or lists it exactly once |
| SessionRuns.RunInv | internal/gateway/session.go:44-185 | over all runs at most max sessions are live, and each created session is in exactly one of live, notified once, deleted or cleared |
| SessionRuns.RevokingNeverAccepted | internal/gateway/session.go:70-122 | after a session was marked as revoking, no later lookup of it is accepted |
| SessionLedger.LookupAcceptedIff | internal/gateway/session.go:70-95 | in every run a lookup is accepted exactly for a live session created for that principal and version, not marked as revoking, less than a lifetime after its creation or its latest accepted lookup; the answer carries those values |
| SessionLedger.MarkingAcceptedIff | internal/gateway/session.go:97-122 | in every run a marking is accepted under the same conditions, marked before or not |
| SessionLedger.RefusedIff | internal/gateway/session.go:70-122 | the owner of a live session is told that it expired exactly when a lifetime has passed, and that the version is wrong exactly when it is in time and was created under another |
| SessionLedger.DeletedIff | internal/gateway/session.go:124-130 | in every run a deletion takes a session out exactly when the principal it was created for asks and a marking of it was accepted before |
| SessionLedger.ListingKeeps | internal/gateway/session.go:138-163 | in every run a listing keeps exactly the sessions seen less than a lifetime ago |
| SessionLedger.CreationKeeps | internal/gateway/session.go:44-68 | in every run a creation keeps exactly the newest of the sessions seen less than a lifetime ago, so many that the new one fits |
| Lifecycle.Server.Admit | internal/gateway/lifecycle.go:12-23 | a request is tracked under a fresh number or rejected after revocation |
| Lifecycle.Server.FinishRequest | internal/gateway/lifecycle.go:25-33 | a tracked request leaves the table and is cancelled |
| Lifecycle.Server.CreateSession | internal/gateway/lifecycle.go:37-44 | no session is created after revocation |
| Lifecycle.Server.Revoke | internal/gateway/lifecycle.go:50-82 | undisturbed, revocation empties the store and cancels every admitted request |
| Lifecycle.RunInv | internal/gateway/lifecycle.go:12-82 | the invariant holds in every interleaving of the critical sections |
| Lifecycle.ServesUntilRevoked | internal/gateway/lifecycle.go:12-44 | in every run, before the revocation: a request is admitted under the next number, a session is created, and a finished request is untracked and then cancelled |
| Lifecycle.RevocationIsFinal | internal/gateway/lifecycle.go:50-82 | once any call has returned, the store stays empty, nothing is admitted, and a request neither finished nor cancelled is one the first caller is about to cancel; once that caller has returned there is none |
| Lifecycle.ReturnMeansCancelledIff | internal/gateway/lifecycle.go:50-82 | over all interleavings a return of the revocation means that every unfinished request has been cancelled exactly when it is the first caller's |
| Lifecycle.SecondCallerReturnsEarly | internal/gateway/lifecycle.go:52-55 | a run in which a second caller returns while a request is uncancelled |
| Registry.WorkspaceRegistry.Register | internal/workspaceregistry/registry.go:83-98 | a valid new workspace is added and the generation advances once; otherwise nothing changes |
| Registry.WorkspaceRegistry.ReplaceAll | internal/workspaceregistry/registry.go:104-134 | a failed replacement changes nothing; a successful one installs exactly the given set with one event per departure, ordered by id |
| Registry.Installs | internal/workspaceregistry/registry.go:104-134 | the table installed for distinct workspaces has exactly their ids, each with its own workspace |
| Registry.WorkspaceRegistry.Get | internal/workspaceregistry/registry.go:163-182 | an expired workspace is removed with one event, otherwise nothing changes |
| Registry.WorkspaceRegistry.Revoke | internal/workspaceregistry/registry.go:186-202 | a present workspace is removed with one event, an absent one changes nothing |
| Registry.WorkspaceRegistry.Snapshot | internal/workspaceregistry/registry.go:229-256 | the expired workspaces are removed with one event each, and the generation advances only then |
| Registry.StepCleansUp | internal/workspaceregistry/registry.go:83-256 | each of the five operations delivers exactly one event for each registration it ends or changes, in the order of identifiers, and the table never changes within a generation |
| Registry.OneEventEach | internal/workspaceregistry/registry.go:104-134 | an ordered list of events counts one for each removed registration and none for any other |
| Registry.Conservation | internal/workspaceregistry/registry.go:83-256 | over every run of the five operations a workspace was registered as often as it was cleaned up, plus once if it is registered now |
| Router.WorkspaceRouter.Lookup | internal/gateway/workspace_router.go:58-92 | a live workspace yields its server; an expired one leaves handlers, expiries and registry and its server is revoked |
| Router.WorkspaceRouter.ReplaceAll | internal/gateway/workspace_router.go:97-133 | a failed replacement changes nothing; a successful one installs exactly the bindings and revokes the server of every id that lost it |
| Router.BindsEach | internal/gateway/workspace_router.go:97-133 | distinct bindings route each workspace's id to its own server and register that very workspace |
| Router.WorkspaceRouter.Revoke | internal/gateway/workspace_router.go:137-157 | the workspace leaves all three structures and its server is revoked |
| Router.WorkspaceRouter.Close | internal/gateway/workspace_router.go:161-181 | closing revokes every routed server and empties all three structures |
| Router.WorkspaceRouter.ExpirePass | internal/gateway/workspace_router.go:190-215 | exactly the expired workspaces go, their servers are revoked, and the next wake-up is the earliest expiry left |
| Router.ReplacementUnrevoked | internal/gateway/workspace_router.go:122-131 | a replacement routes no revoked server if and only if it binds unrevoked servers only and each of them keeps every id it had |
| Router.RemovalUnrevoked | internal/gateway/workspace_router.go:137-157 | a removal routes no revoked server if and only if no server is bound both to a removed id and to one that stays |
| Router.MovedServerIsRevoked | internal/gateway/workspace_router.go:122-131 | a replacement that moves a server between ids routes a revoked server |
| Router.FreshServersUnrevoked | cmd/gateway/workspaces.go:133-147 | in every run of changes, a caller that binds a new server to every workspace of every replacement never has a revoked server routed |
| GitIgnore.MatchMeans | internal/workspace/gitignore.go:140-163 | the matcher is true exactly when some cut of the name fits the pattern, a final "**" taking at least one component and any other any number |
| GitIgnore.DoubleStarIsStar | internal/workspace/gitignore.go:144-148 | two adjacent "**" anywhere in a pattern match what one does |
| GitIgnore.RelativeMeans | internal/workspace/gitignore.go:122-134 | the remainder is what follows the rule's base directory |
| GitIgnore.RuleMatches | internal/workspace/gitignore.go:90-111 | a directory rule applies through the path itself, if it is a directory, or a directory above it |
| GitIgnore.MatchesOneMeans | internal/workspace/gitignore.go:113-120 | a pattern without a slash is matched against the last component alone, any other against the whole remainder |
| GitIgnore.DirectoryRuleMeans | internal/workspace/gitignore.go:90-111 | a directory rule applies exactly through the path itself, if it is a directory, or through one above it |
| GitIgnore.TrimMeans | internal/workspace/gitignore.go:90-111 | trimming a name takes away exactly the slashes at both ends |
| GitIgnore.DirectoryRuleCovers | internal/workspace/gitignore.go:90-111 | a directory rule that applies to a directory applies to everything below it |
| GitIgnore.IgnoredByRules | internal/workspace/gitignore.go:80-88 | a path is ignored exactly when the last rule that applies is not negated |
| ShellQuote.QuoteArgv | internal/remoteworker/policy.go:35-47 | an empty vector and an argument with NUL are refused, any other vector is quoted |
| ShellQuote.QuoteRoundTrip | internal/remoteworker/policy.go:35-47 | the shell reads the quoted line as exactly the argument vector |
| ShellQuote.CommandAllowed | internal/remoteworker/policy.go:11-31 | a command is allowed exactly when a non-empty listed prefix begins it |

## Left out

- Cryptography, base64 and JSON: digests are injective, a presented approval is validly signed, messages arrive parsed.
- HTTP, SSH and SFTP, process launching, cgroups, Landlock, mounts and rlimits: of these only the state kept around them is modelled.
- Encoding detection and UTF-8: texts are byte sequences, and whether an edit is valid UTF-8 is a field of the edit.
- Unicode white space in the approver check: only the ASCII space is treated as white space.
- Previewing an edit: it runs the planner and the diff, both modelled, without storing the result.
- Failure of the random source when a session is created: identifiers are arguments and fresh.
- Diff options and file-name cleaning (`resolveDiffOptions`, `cleanDiffName`): the resolved values are parameters.
- Context bytes around a memory match and the region list read from the process: a match is its region and offset.
- 64-bit overflow of sizes and positions: the configured caps keep them far below it.
- The Bolt-backed replay store and a manager without a challenge store: only the in-memory store with challenges is modelled.
- Aliasing of the targets slice inside normalized claims: targets are values.
- Channel capacities and output errors of the bridge: the interleavings allow more than the channels do.
- Status, signal, memory and stop operations of the exec supervisor: they read the table or signal a listed process.
- Calls of cleanup callbacks and recovery from their panics: each registry operation returns the events delivered to every callback.
- Checks of a workspace that do not look at the clock: they are a parameter of the registry model.
- Waiting in the router's expiry loop: one pass and the wake-up it asks for are modelled.
- Matching of one path component (`path.Match`) and parsing of ignore files: the component matcher is a parameter.
- The legacy edit executor of the gateway, tool schemas, error-kind mapping, audit redaction and the installer.
- RateLimiter.Limiter.Allow: does not model floating-point rounding or the wall clock, because tokens and times are real numbers and the time is an argument.
- EditSpans.Sort: sorts by insertion where the source calls a library sort, because only sortedness and the same spans matter afterwards.
