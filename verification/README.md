# Verified model of agezt's recovery, audit and policy logic

agezt runs long-lived agents as a daemon (`agezt`) with an operator tool (`agt`). What it does is
kept in an append-only, hash-chained journal, and much of the program exists so that a crash, a
restart, an update or an edited file cannot quietly change what the daemon believes. This project
models that part of the program in Dafny and proves what it keeps.

| file | what it models |
|---|---|
| `EventChain.dfy`, `Journal.dfy` | events, the hash chain, and the journal: append, open with recovery, verify, restore |
| `Bundle.dfy`, `PointInTime.dfy` | export bundles, their offline verification and import; restoring to a point in time |
| `PolicyOverlay.dfy`, `PolicyReplay.dfy`, `PolicyDurability.dfy` | runtime policy changes, the compaction snapshot, deny rules across restarts |
| `Resumer.dfy`, `ResumeProtocol.dfy`, `ResumeRaces.dfy`, `ResumeDrain.dfy` | re-dispatching interrupted runs at boot, with crashes and concurrent writers: the loop, the attempt cap, what a racing shutdown can do, and why no ticket wedges the daemon |
| `OrphanRuns.dfy` | marking runs abandoned at boot |
| `Watchdog.dfy` | backoff, the sliding window of starts, the crash-loop guard |
| `UpdateDrain.dfy` | draining, halting and resuming around a self-update |
| `Paths.dfy`, `Backup.dfy` | backup archives: create, inspect, restore |
| `EditDistance.dfy`, `Suggestions.dfy` | the two-row edit distance and "did you mean" |
| `Money.dfy`, `Pricing.dfy`, `Latency.dfy` | amounts as text, estimate against bill, latency statistics |
| `BoardSubject.dfy` | subjects of board messages |
| `Common.dfy`, `Ordering.dfy`, `Text.dfy`, `Decimal.dfy`, `Int64.dfy` | what Go's library provides: filters, sorting, strings, numerals, 64-bit integers |

Conventions. Methods follow the program's loops and are proved against a function or predicate of
the values they work on; the lemmas then say what that function means. Programs that live across
crashes are transition systems whose runs are sequences of states; a theorem "for every reachable
state" quantifies over all of them. A hash is an arbitrary function: where the program relies on it
being collision-free, the theorem says "or two different values that hash alike are at hand"
(`EventChain.Forged`, `PolicyReplay.Collide`) and assumes nothing. I/O outcomes, crashes, clock
readings, and what other goroutines do between two critical sections are inputs. Case mapping is a
parameter that must treat ASCII as Go does. History fields (how often a ticket was dispatched, what the journal
vouches for, which runs were cancelled unmarked) record what happened and decide nothing.

## Where the code differs from what it promises

Each of these is proved as an exact condition, with a concrete run or input that shows it (named last).

- **A short write breaks the journal.** Only a failed sync is taken back (`kernel/journal/journal_io.go:212-233`);
  a write that breaks off leaves its fragment, the next event is glued to it, and the chain ends there
  for every later open (`JournalStore.Journal.Append`, `GarbageEndsChain`, `ShortWriteBreaksChain`).
- **Compaction can lose a policy change.** Collecting the changes and taking the head are two
  steps (`kernel/app/edict/overlay.go:61-77`, `104-121`). A change journaled in between is covered by the
  snapshot's seq and missing from its list (`PolicyReplay.TrustedReplaySkipsGap`, `GapIsHarmlessIff`,
  `SlippedChangeIsLost`).
- **A removed deny rule can come back, and an added one can displace another.** Boot numbers the rules
  afresh while the journal keeps the old names (`PolicyDurability.DurableIffNamesFit`, `RemovedRuleReturns`,
  `AddedRuleTakesAName`).
- **The attempt cap can be exceeded, by one.** `MarkSuspendedAll` lists the tickets outside the lock
  and writes the copies back (`ResumeRaces.WriteBackIsSafeIff`, `RecheckIsExact`, `StaleWriteExceedsCap`).
- **A finished run can be resumed.** The same write-back brings back a ticket deleted in between
  (`ResumeRaces.FinishedRunReturnsIff`, `FinishedRunReturns`).
- **A drain timeout never stops an update.** `DrainAndHalt` counts the registry after halting has
  emptied it, so "active runs" is 0 whether or not the runs have unwound, and the update step asks
  only for that number (`UpdateDrain.LateRunsNeverStopAnUpdate`, `UpdateSwapsUnderLiveRuns`,
  `TimedOutDrainStillApplies`).
- **An aborted update leaves the suspend latch set.** From then on a run cancelled by hand keeps its
  ticket and is resumed at the next boot (`UpdateDrain.CancelledRunComesBackIff`, `AbortedUpdateKeepsTickets`).
- **A failed update resumes a kernel that the operator had halted** (`UpdateDrain.HaltedAfterIff`,
  `AbortAlwaysResumes`, `AbortedUpdateUndoesHalt`).
- **An export that races an append does not verify** (`Bundle.FullExportVerifiesIff`, `RacedExportIsRejected`);
  a bundle without a head hash has no protected tail (`Bundle.NoHeadHashNoTail`, for every prefix); the empty
  bundle is always complete (`Bundle.AcceptedIffJournalTail`, `EmptyBundleIsAccepted`).
- **A `--since` window is rejected, though genuine, if the clock stepped back inside it**: each event's time is
  compared with the cutoff on its own (`kernel/app/journal/search.go:153`), so an event stamped early drops out of the middle
  (`Bundle.WindowedExportVerifies`, `SteppedClockIsRejected`).
- **The watchdog's update sentinel does not reset the streak**: it is removed before it is looked
  at, unless it was there at the start or cannot be removed (`Watchdog.ResetIff`, `UpdateExitNeverResets`,
  `UpdateExitCountsAsFailure`).
- **"quarantined" in the resume banner** counts every ticket that was not resumed, moved aside or not
  (`Resumer.BannerIsRightIff`, `FailedMoveIsReported`, `SkippedTicketIsReported`).
- **A backup of a home with ".." in a file name cannot be restored, and a home given as "." or "/"
  refuses every archive** (`Backup.RestoreUndoesCreate`, `UnnamedHomeRefusesAll`, `DottedNameIsRefused`,
  `DotAndRootRefuse`).
- **The p95 rank is not ⌈0.95 n⌉** when n mod 20 exceeds 10 (`Latency.DocumentedRankIff`, `ElevenMeasurements`).
- **The estimated cost does not match the bill**: it rounds twice, credits negative counts and wraps
  (`Pricing.EstimateIsBillIff`, `WrappedEstimateIsBillIff`, `EstimateMissesAMicrocent`, `EstimateWraps`).
- **A plain board topic "help" or "broadcast" is taken for a call for help or a broadcast**
  (`BoardSubject.TopicIsMistakenIff`, `HelpTopicIsMistaken`).
- **The least 64-bit amount cannot be printed**: negating it gives it back
  (`Money.NegationRestsIff`).

## Model

| member | source | states |
|---|---|---|
| EditDistance.EditDistance | cmd/agt/help.go:105-123 | the two-row loop returns the length of a shortest insert/delete/substitute script: one exists, none is shorter |
| EditDistance.TableIsDistance | cmd/agt/help.go:111-121 | the recurrence the loop evaluates is that least length |
| EditDistance.OneEdit | cmd/agt/help.go:111-121 | one edit anywhere in the text lowers a table entry by at most one |
| EditDistance.CheapestWorks | cmd/agt/help.go:111-121 | a script exactly as long as the table entry does turn one text into the other |
| EditDistance.DistanceIsUnique | cmd/agt/help.go:105-123 | there is one distance |
| EditDistance.DistanceZeroIffEqual | cmd/agt/help.go:105-123 | zero exactly on equal texts |
| EditDistance.DistanceIsSymmetric | cmd/agt/help.go:105-123 | symmetric |
| EditDistance.DistanceTriangle | cmd/agt/help.go:105-123 | triangle inequality |
| EditDistance.DistanceBounds | cmd/agt/help.go:105-123 | at least the difference of the lengths, at most the greater length |
| Suggestions.IsOffered | cmd/agt/help.go:88-93 | a name is offered exactly if it contains the typo, is a prefix of it, or is at most two byte edits away |
| Suggestions.OfferedIff | cmd/agt/help.go:88-93 | exactly if the typo stands in the name, goes on where the name ends, or a script of at most two byte edits leads from one to the other |
| Suggestions.SuggestCommands | cmd/agt/help.go:80-103 | exactly the first four, alphabetically, of all names offered, each as often as listed; nothing for an empty typo |
| Suggestions.TwoEditGateIsSymmetric | cmd/agt/help.go:91 | the two-edit gate does not depend on which text was typed |
| EventChain.ChainLinks | kernel/event/event.go:168-203 | every event of a valid chain has its index as seq, an intact hash and its predecessor's hash |
| EventChain.HexIff | kernel/event/event.go:182-185 | which previous hashes decode: an even number of hex digits of either case |
| EventChain.HeadHashFixesTail | cmd/agt/journal_verify.go:125-136 | a linked window ending in a journal's head hash is that journal's tail, or shows a hash collision |
| EventChain.SameHeadSameHistory | kernel/journal/journal_io.go:166-186 | two valid chains with one head hash are one history, or show a hash collision |
| JournalStore.Scan | kernel/journal/journal_seg.go:42-74 | finds the longest prefix of the stored lines that is a valid chain, and its head |
| JournalStore.Journal.Open | kernel/journal/journal_open.go:80-147 | an offline open fails exactly on a bad line; the daemon's keeps the longest valid prefix, moves every other byte aside and records the cut as the next event, failing if that record cannot be written; a torn last line is cut off |
| JournalStore.Journal.Append | kernel/journal/journal.go:104-130 | adds exactly the event asked for and keeps the chain valid, if the line before it ended; nothing for a rejected spec or a failed sync; after a write that broke off, the next line is glued to the fragment and ends the chain |
| JournalStore.GarbageEndsChain | kernel/journal/journal_seg.go:54-57 | no chain runs through a line that is no event |
| JournalStore.ShortWriteBreaksChain | kernel/journal/journal_io.go:212-233 | one broken-off write and one good append, and the journal fails its own check |
| JournalStore.Journal.Verify | kernel/journal/journal_io.go:166-186 | true exactly when every stored line extends a valid chain |
| JournalStore.Journal.Restore | kernel/journal/journal_io.go:84-164 | succeeds exactly for a non-empty full chain into a directory without a segment file that can be written, which then holds that chain; otherwise changes nothing |
| JournalStore.LinesRoundTrip | kernel/journal/journal_io.go:84-164 | the lines written for a valid chain read back as it |
| Bundle.ScopeLabelReadsBack | cmd/agt/journal_export.go:53-73 | the label an export writes reads back as the same correlation and label, for every accepted spec |
| Bundle.ScopeAcceptedIff | cmd/agt/journal_export.go:53-73 | which specs are accepted, and as what: blanks around do not count, a bare correlation is the same scope as behind "task:", and nothing, an empty "task:" and the five other kinds are refused |
| Bundle.VerifyBundleEvents | cmd/agt/journal_verify.go:119-136 | accepts exactly intact and linked events; otherwise names the first bad one |
| Bundle.VerifyScopedBundleEvents | cmd/agt/journal_verify.go:138-157 | accepts exactly intact events of the scope's correlation; otherwise names the first bad one |
| Bundle.CompleteIff | cmd/agt/journal_verify.go:167-189 | a bundle is complete exactly if its manifest describes it: none counted where none is, else from its first seq to the head it names |
| Bundle.VerifyBundle | cmd/agt/journal_verify.go:22-117 | says OK exactly when count, scope, chain and completeness all hold |
| Bundle.AcceptedIffJournalTail | cmd/agt/journal_verify.go:159-189 | with a journal's true head hash, a bundle is accepted exactly if it is that journal's tail and the manifest is truthful, or it is empty and counted so, or it shows a collision: no edited, dropped, reordered or inserted event passes |
| Bundle.NoHeadHashNoTail | cmd/agt/journal_verify.go:184-187 | without a head hash any prefix passes as a whole journal |
| Bundle.Walk | kernel/app/journal/search.go:137-172 | selects the wanted events up to the cap, reports first and last seq, and whether the cap cut |
| Bundle.Export | kernel/app/journal/search.go:137-172 | the answer's events, count, range, head and truncation flag |
| Bundle.SelectedIff | kernel/app/journal/search.go:152-155 | an event is exported, up to the cap, exactly if it is stamped at the cutoff or later and of the correlation asked for |
| Bundle.TruncatedIff | kernel/app/journal/search.go:156-172 | an export says that it was cut exactly if it leaves out something it is about, and then is as long as the cap |
| Bundle.EmptyBundleIsAccepted | cmd/agt/journal_verify.go:167-173 | a bundle without events passes whatever head it names |
| Bundle.FullExportVerifiesIff | cmd/agt/journal_export.go:150-231 | a full export verifies exactly when its walk ends at the head it attests |
| Bundle.RacedExportIsRejected | cmd/agt/journal_export.go:150-231 | a journal of two events whose export, raced by the second append, is rejected |
| Bundle.UnscopedExportVerifiesIff | cmd/agt/journal_export.go:150-231 | an export without a scope verifies exactly if it is empty or ends the journal it attests, or a collision shows |
| Bundle.WindowedExportVerifies | kernel/app/journal/search.go:137-172 | a time window of a quiet journal, whatever its clock did, verifies exactly if the cap does not cut it and no event behind its first is stamped before the cutoff, or a collision shows |
| Bundle.OrderedWindowVerifies | kernel/app/journal/search.go:137-172 | so under a clock that never went back it verifies exactly if the cap does not cut it |
| Bundle.SteppedClockIsRejected | cmd/agt/journal_export.go:150-231 | a valid journal stamped 10, 5, 12 whose genuine window since 8 is rejected |
| Bundle.ScopedExportVerifies | cmd/agt/journal_verify.go:76-86 | a scoped export of any hash-valid journal verifies, and a bundle with a foreign event never does |
| Bundle.ImportBundle | cmd/agt/journal_import.go:77-134 | imports exactly complete full chains into a home without a segment file that can be written, whose journal then equals the bundle; otherwise nothing changes |
| Bundle.ImportIsWholeJournal | cmd/agt/journal_import.go:77-134 | what imports under a journal's true head hash is that whole journal, or shows a collision |
| PointInTime.CollectPrefix | cmd/agt/backup_restore_helpers.go:86-105 | the loop keeps exactly the prefix before the first event past the cutoff |
| PointInTime.CutIsLongest | cmd/agt/backup_restore_helpers.go:86-105 | every prefix within the cutoff is part of what is kept |
| PointInTime.CutIsUnique | cmd/agt/backup_restore_helpers.go:86-105 | there is one such prefix |
| PointInTime.CutKeepsUntil | cmd/agt/backup_restore_helpers.go:86-105 | what is restored was recorded up to and at the cutoff, and the first event left out after it |
| PointInTime.CutIsFilterIff | cmd/agt/backup_restore_helpers.go:86-105 | it is the plain filter by cutoff exactly when no later event falls back within it |
| PointInTime.MonotoneClockCutIsFilter | cmd/agt/backup_restore_helpers.go:86-105 | with monotone timestamps it is the timestamp filter |
| PointInTime.CutIsValidChain | cmd/agt/backup_restore_helpers.go:86-113 | it is a valid chain from genesis; by seq n it holds the first n + 1 events |
| PointInTime.CutTwiceIsCutOnce | cmd/agt/backup_restore_helpers.go:86-113 | restoring from a restored home is restoring once at the earlier cutoff |
| PointInTime.PointInTimeRestore | cmd/agt/backup_restore_helpers.go:60-135 | succeeds exactly from a valid source with something within the cutoff into a target without a segment file that can be written, whose journal then is the cut; otherwise changes nothing |
| PolicyOverlay.LevelTextParses | kernel/edict/edict_types.go:14-51 | what a trust level prints as parses as it |
| PolicyOverlay.ModeTextParses | kernel/edict/edict_types.go:107-136 | what an ask policy prints as parses as it |
| PolicyOverlay.WordsParse | kernel/edict/edict_types.go:37-51 | which words name a level or a mode, blanks and case aside: those listed and no others |
| PolicyOverlay.MeansIff | kernel/edict/edict_overlay.go:52-106 | which changes count and for what; every malformed or unknown one counts for nothing |
| PolicyOverlay.ProjectOne | kernel/edict/edict_overlay.go:57-97 | one change against the two maps and the order list is one change to the ordered rule list |
| PolicyOverlay.ProjectPolicyChanges | kernel/edict/edict_overlay.go:52-106 | the loop over two maps and an order list computes the fold of the changes |
| PolicyOverlay.LevelIsLastWord | kernel/edict/edict_overlay.go:63-71 | a capability has the last level set for it, and none if none was |
| PolicyOverlay.ModeIsLastWord | kernel/edict/edict_overlay.go:59-62 | so for the mode |
| PolicyOverlay.RuleIsLastWord | kernel/edict/edict_overlay.go:72-96 | a deny rule is there exactly if the last change about its name added it as it is |
| PolicyOverlay.SurvivorsKeepAddOrder | kernel/edict/edict_overlay.go:46-47 | after any history the rules there are those added and not removed since, in the order of those additions; adding one again changes nothing about its place |
| PolicyOverlay.FoldIsWellFormed | kernel/edict/edict_overlay.go:52-106 | rule names are distinct, rules and capabilities proper, after any history |
| PolicyOverlay.ToChanges | kernel/edict/snapshot.go:38-65 | writes out the mode, the levels in order of capability, then the rules in theirs |
| PolicyOverlay.WrittenOutIsUnique | kernel/edict/snapshot.go:67-81 | the list depends on the overlay alone, not on map order |
| PolicyOverlay.WrittenOutFoldsBack | kernel/edict/snapshot.go:38-65 | an overlay written out folds back to itself |
| PolicyOverlay.ResumedFoldIsFullFold | cmd/agezt/main_overlay.go:18-75 | resuming from the written-out list computes what the whole history does |
| PolicyReplay.ReplayPolicyOverlay | cmd/agezt/main_overlay.go:18-75 | boot: the snapshot's list and what follows its seq if the file matches the last journaled hash, else the whole history |
| PolicyReplay.StepKeepsInv | kernel/app/edict/overlay.go:104-121 | every step of appends, compactions, crashes and file overwrites keeps what the journal vouches for sound |
| PolicyReplay.RunKeepsInv | kernel/app/edict/overlay.go:104-121 | so does every run |
| PolicyReplay.TrustedReplaySkipsGap | cmd/agezt/main_overlay.go:63-74 | a boot that trusts a vouched snapshot computes the history without the changes that arrived between collecting and taking the head |
| PolicyReplay.ReplayIsFullFold | cmd/agezt/main_overlay.go:18-75 | in every reachable state a boot computes the fold of the whole history, unless that gap is not empty or the content hash collides |
| PolicyReplay.GapIsHarmlessIff | cmd/agezt/main_overlay.go:63-74 | however the journal goes on, boots that trust a vouched snapshot compute the whole history exactly if the changes lost to its gap change nothing where they stand |
| PolicyReplay.SlippedChangeIsLost | kernel/app/edict/overlay.go:104-121 | a run in which a denial is lost to every later boot |
| PolicyDurability.Engine.AddHardDeny | kernel/edict/edict_engine.go:78-97 | refuses a blank rule, else appends it under the next runtime name |
| PolicyDurability.Engine.RemoveHardDeny | kernel/edict/edict_engine.go:99-116 | removes the first rule of the name and says whether there was one |
| PolicyDurability.RefusedChangesNothing | kernel/app/edict/writes.go:113-165 | a blank rule, or a name the engine does not hold, changes nothing and journals nothing |
| PolicyDurability.Engine.ApplyOverlay | kernel/edict/edict_overlay.go:113-127 | boot adds the journaled rules one by one, numbering them afresh |
| PolicyDurability.DoMatchesFold | kernel/app/edict/writes.go:113-165 | what a request journals changes the folded rules as the session model says |
| PolicyDurability.BootNamesSurvive | cmd/agezt/main.go:928-945 | if the journaled rules bear the names boot gives them, in its order, the same rules are in force after a restart, whatever was requested before it |
| PolicyDurability.DurableIffNamesFit | cmd/agezt/main.go:928-945 | for any folded overlay, every session leaves the same rules in force after a restart, whatever their order, exactly if each name boot gives is journaled for a rule of the same content |
| PolicyDurability.SameRulesIffSameDenials | kernel/edict/edict_decide.go:36-48 | two rule lists hold the same contents exactly if they deny the same, whatever the rules of a content hit: order and names do not count |
| PolicyDurability.DurableIffBootNames | cmd/agezt/main.go:928-945 | for rules of different content that means the names runtime[1], runtime[2], ... in order |
| PolicyDurability.RemovedRuleReturns | kernel/edict/edict_overlay.go:113-127 | three requests and a restart after which a removed rule is back |
| PolicyDurability.AddedRuleTakesAName | kernel/edict/edict_overlay.go:113-127 | one request after a restart whose rule takes another's journaled name, so that the other is gone at the next boot |
| Resumer.Store.List | kernel/modules/runs/resume/resume_ops.go:97-123 | every live ticket once, oldest first |
| Resumer.Store.IncrementAttempt | kernel/modules/runs/resume/resume_ops.go:161-181 | counts one attempt on disk; an error may or may not have reached it |
| Resumer.Store.Quarantine | kernel/modules/runs/resume/resume_ops.go:182-196 | moves the ticket aside, or does nothing |
| Resumer.Store.HandleTicket | cmd/agezt/main_standing_resume.go:72-98 | quarantine, or count durably and only then dispatch |
| Resumer.Store.BuildResumer | cmd/agezt/main_standing_resume.go:40-177 | the loop's effect on the store and its two numbers, under any failures and a kill anywhere |
| Resumer.OnlyFitTicketsResume | cmd/agezt/main_standing_resume.go:72-98 | a dispatched ticket is resumable, below the cap, and its agent there, enabled and not retired |
| Resumer.ResumesIff | cmd/agezt/main_standing_resume.go:72-98 | however writes fail and wherever the daemon dies: a listed ticket is dispatched exactly if it may resume (resumable, below the cap, its own agent there, enabled and not retired), the boot gets to it and its increment succeeds; and is moved aside exactly if it may not, the boot gets to it and the move reaches the disk |
| Resumer.CleanBootResumesIff | cmd/agezt/main_standing_resume.go:72-98 | when nothing fails, exactly the tickets that may resume are dispatched, and all others listed are in the quarantine |
| Resumer.BannerIsRightIff | cmd/agezt/main_standing_resume.go:59-69 | the banner's quarantined number is the number of tickets moved aside exactly when every fit ticket was dispatched and every unfit one was there and its move reached the disk; else it is too high |
| Resumer.FailedMoveIsReported | cmd/agezt/main_standing_resume.go:59-69 | an unfit ticket whose move fails is reported quarantined and still live |
| Resumer.SkippedTicketIsReported | cmd/agezt/main_standing_resume.go:95-98 | so is a fit ticket whose increment fails |
| ResumeProtocol.StepKeepsInv | kernel/modules/runs/resume/resume_ops.go:137-181 | each step of boots, crashes, shutdowns and other writers keeps the counter at most one behind the dispatches, and not behind without a stale write-back |
| ResumeProtocol.DispatchesAreBounded | cmd/agezt/main_standing_resume.go:77-98 | over any run a ticket is dispatched at most cap + 1 times |
| ResumeProtocol.DispatchesWithinCap | kernel/modules/runs/resume/resume_ops.go:137-159 | at most cap times if every write-back of a shutdown first checks, under the lock, that its ticket is there and not counted further than the copy |
| ResumeProtocol.FreshWritesKeepCap | kernel/modules/runs/resume/resume_ops.go:137-159 | and, more generally, if no ticket is written back that was dispatched oftener than its copy says |
| ResumeRaces.WriteBackIsSafeIff | kernel/modules/runs/resume/resume_ops.go:137-159 | in every state reached without a stale write-back: after writing a resumable ticket back, the daemon can come to dispatch it cap + 1 times exactly if it had been dispatched oftener than the copy says |
| ResumeRaces.RecheckIsExact | kernel/modules/runs/resume/resume_ops.go:137-159 | for a ticket still there, and when no increment is half done, that is exactly when the check under the lock fails |
| ResumeRaces.FinishedStaysFinished | kernel/runtime/resume.go:133-142 | with that check before each write-back a ticket once gone stays gone and is not dispatched |
| ResumeRaces.FinishedRunReturnsIff | kernel/modules/runs/resume/resume_ops.go:137-159 | without it, a run whose ticket is gone can be dispatched again exactly if a shutdown holds a copy that is not marked suspended, is resumable and below the cap |
| ResumeRaces.FinishedRunReturns | kernel/modules/runs/resume/resume_ops.go:137-159 | a run of the daemon in which that happens |
| ResumeRaces.StaleWriteExceedsCap | kernel/modules/runs/resume/resume_ops.go:137-159 | a run with cap one and two dispatches |
| ResumeDrain.CleanBoot | cmd/agezt/main_standing_resume.go:72-98 | with working writes every ticket ends counted once more and dispatched, or moved aside |
| ResumeDrain.CleanBootIsRound | cmd/agezt/main_standing_resume.go:72-98 | whatever happens until the next boot, a ticket that was there and still is was below the cap and has been counted once |
| ResumeDrain.TurnsSettle | cmd/agezt/main_standing_resume.go:77-98 | over any run, cap + 1 turns with working writes settle a ticket: its run ended or it was moved aside; one turn more if shutdowns race |
| ResumeDrain.StoreDrains | cmd/agezt/main_standing_resume.go:77-98 | cap + 1 boots that go through their tickets with working writes leave none of the original tickets live, each finished or moved aside, whatever runs start meanwhile; one boot more if shutdowns race |
| OrphanRuns.RunScan.Observe | cmd/agezt/main_overlay_scan.go:38-55 | the four maps always say what the journal read so far says |
| OrphanRuns.RunScan.Orphans | cmd/agezt/main_overlay_scan.go:56-70 | exactly the runs received and not ended, as last received, sorted |
| OrphanRuns.OrphansAscend | cmd/agezt/main_overlay_scan.go:64-70 | oldest start first, and of equal starts the smaller correlation in dictionary order |
| OrphanRuns.OrphansIgnoreOrder | cmd/agezt/main_overlay_scan.go:38-55 | who is orphaned does not depend on the order of the events |
| OrphanRuns.OrphanListIsUnique | cmd/agezt/main_overlay_scan.go:56-70 | nor on the map's iteration order: there is one such list |
| OrphanRuns.ReconcileOrphanRuns | cmd/agezt/main_overlay_scan.go:71-93 | appends one abandonment for each orphan whose publish succeeds, in order, and returns their number |
| OrphanRuns.RescanFindsTheFailed | cmd/agezt/main_overlay_scan.go:71-93 | a rescan finds exactly those whose publish failed |
| OrphanRuns.AllPublished | cmd/agezt/main_overlay_scan.go:79-92 | when every publish succeeds, each orphan is marked once under its correlation and intent, in the order of the list |
| OrphanRuns.AbandonedAtMostOnce | cmd/agezt/main_overlay_scan.go:71-93 | over any appends and boots no correlation is abandoned twice |
| Watchdog.NextDelay | cmd/agezt/watchdog.go:54-66 | the doubling loop, in 64-bit arithmetic, against its recursive form |
| Watchdog.BackoffIsCappedIff | cmd/agezt/watchdog.go:54-66 | the delay is min(base 2^(k-1), max) for every k exactly when no doubling overflows |
| Watchdog.ModestCeilingNeverWraps | cmd/agezt/watchdog.go:54-66 | up to a ceiling of 2^62 nothing overflows exactly if the base is below 2^62; base and ceiling both 2^62 give the second failure a negative delay |
| Watchdog.BaseAboveCeiling | cmd/agezt/watchdog.go:54-66 | a base above the ceiling is waited once, the ceiling from then on |
| Watchdog.BackoffIsMonotone | cmd/agezt/watchdog.go:54-66 | delays never shrink and stay between base and ceiling |
| Watchdog.PruneOlderThan | cmd/agezt/watchdog.go:84-92 | in place: exactly the later times, in order; slots behind untouched |
| Watchdog.RecentIsFilter | cmd/agezt/watchdog.go:122-127 | under a clock that never goes back, pruning at every start is filtering the whole history |
| Watchdog.GuardTripsIff | cmd/agezt/watchdog.go:122-127 | the guard trips exactly if maxCrashes + 1 starts lie closer than the window |
| Watchdog.SuperviseLoop | cmd/agezt/watchdog.go:106-183 | the loop, turn by turn, against its state machine |
| Watchdog.OneTurn | cmd/agezt/watchdog.go:118-182 | one turn: guard, sentinel, spawn, streak, backoff |
| Watchdog.SpawnsAreSpaced | cmd/agezt/watchdog.go:122-127 | any maxCrashes + 1 consecutive spawns span at least the window |
| Watchdog.GivesUpIff | cmd/agezt/watchdog.go:122-127 | it gives up exactly when one more start would break that |
| Watchdog.GoesOnIff | cmd/agezt/watchdog.go:118-181 | it goes on exactly after a start the guard admits whose child was not killed by the cancellation and whose backoff sleep was not cut short, failed spawns and short runs alike; it stops exactly when cancelled before, in or after such a start; each such start is recorded and waits its delay |
| Watchdog.HealthyDaemonIsNeverAbandoned | cmd/agezt/watchdog.go:164-177 | a daemon whose every run lasts resetUptime always waits the base delay and never trips the guard, if so many runs do not fit the window |
| Watchdog.DelayCountsFailures | cmd/agezt/watchdog.go:138-177 | each delay is the backoff for the turns since the last long run or reset; failures to spawn count like short runs |
| Watchdog.ResetIff | cmd/agezt/watchdog.go:129-172 | the reset branch acts exactly when somebody but a child dropped a sentinel, or one was left lying by the turns before, whatever removals fail |
| Watchdog.LiesIff | cmd/agezt/watchdog.go:129-168 | a sentinel is left lying exactly if it was there or was put there and no removal since has worked, over any turns and any failing removals |
| Watchdog.UpdateExitNeverResets | cmd/agezt/watchdog.go:129-172 | while removing works, exactly when somebody but a child dropped one, or one lay there at the start |
| Watchdog.UpdateExitCountsAsFailure | cmd/agezt/watchdog.go:129-172 | a daemon that exits for an update in its first second waits twice as long for its next start |
| UpdateDrain.Lifecycle.SetupRun | kernel/modules/runs/state/state.go:129-194 | a run starts exactly if the kernel is not halted and the correlation not running |
| UpdateDrain.Lifecycle.HaltWith | kernel/modules/runs/lifecycle/manager.go:62-90 | halts once, emptying the registry, and says how many it cancelled |
| UpdateDrain.Lifecycle.ResumeWith | kernel/modules/runs/lifecycle/manager.go:153-177 | clears the flag if set, and says so |
| UpdateDrain.Lifecycle.SuspendRuns | kernel/runtime/resume.go:164-191 | latches and announces once |
| UpdateDrain.Lifecycle.DrainAndHalt | kernel/modules/runs/lifecycle/manager.go:102-127 | three critical sections with anything in between; what it reports |
| UpdateDrain.DrainMarksFirst | kernel/modules/runs/lifecycle/manager.go:106-107 | a drain announces the suspension before all else it publishes, and while it lasts no run is cancelled unmarked, by it or by hand |
| UpdateDrain.LeavesUnmarkedIff | kernel/runtime/resume.go:126-145 | a run leaves the registry by cleanup, cancel or halt; in the last two its ticket is at risk exactly if the latch was clear |
| UpdateDrain.DrainLosesNoRun | kernel/modules/runs/lifecycle/manager.go:106-107 | from the first drain on no run is cancelled unmarked, whatever checks follow |
| UpdateDrain.HaltsAreAnnounced | kernel/modules/runs/lifecycle/manager.go:106-107 | over every run of checks, what a drain publishes comes behind a suspension notice |
| UpdateDrain.Lifecycle.ApplyAvailableUpdate | cmd/agezt/boot_ops.go:118-149 | any apply step, then resume or halt, then the verdict |
| UpdateDrain.Lifecycle.UpdateChecker | cmd/agezt/boot_ops.go:152-186 | checks until one applies an update, and stops there |
| UpdateDrain.HaltedMeansNoRuns | kernel/modules/runs/registry/registry.go:107-122 | over any run of checks, halted means no run is registered |
| UpdateDrain.StartAndCleanup | kernel/modules/runs/state/state.go:129-194 | a run is registered and counted once, not at all while halted; cleaning it up takes that back, cancelled or not |
| UpdateDrain.HaltCounts | kernel/modules/runs/lifecycle/manager.go:62-90 | a halt announces the number of runs it cancelled; a second one does nothing |
| UpdateDrain.DrainReportsNobody | kernel/modules/runs/lifecycle/manager.go:106-127 | a drain reports active runs only if the kernel is resumed during it |
| UpdateDrain.DrainReportsALateRun | kernel/modules/runs/lifecycle/manager.go:106-127 | and then it can |
| UpdateDrain.HaltedAfterIff | cmd/agezt/boot_ops.go:118-149 | an undisturbed attempt leaves the kernel halted exactly if it succeeded, or failed without draining on a halted kernel |
| UpdateDrain.AbortAlwaysResumes | cmd/agezt/boot_ops.go:127-130 | a failed attempt that drained leaves it running whoever halted it |
| UpdateDrain.AbortedUpdateUndoesHalt | cmd/agezt/boot_ops.go:127-130 | so for a kernel the operator halted before |
| UpdateDrain.HaltedOnlyToRestart | cmd/agezt/boot_ops.go:152-186 | over any number of checks a running kernel is halted exactly when the last one applied an update |
| UpdateDrain.OneVerdictEach | cmd/agezt/boot_ops.go:127-149 | the applied and failed events are one per attempt, in order |
| UpdateDrain.VerdictComesLast | cmd/agezt/boot_ops.go:118-186 | an attempt announces the update first and its verdict last |
| UpdateDrain.CheckerDrainsIff | cmd/agezt/boot_ops.go:118-149 | the checker drains on its own exactly if the update was applied and the step did not drain |
| UpdateDrain.LatchedIff | kernel/modules/runs/registry/registry.go:34-39 | the suspend latch is set exactly if some check drained |
| UpdateDrain.CancelledRunComesBackIff | kernel/modules/runs/resume/rules.go:67-81 | a cancelled run keeps its ticket exactly in that case, aborted update or not |
| UpdateDrain.AbortedUpdateKeepsTickets | kernel/modules/runs/resume/rules.go:67-81 | so after one update that drained and failed |
| UpdateDrain.SuspensionAnnouncedOnce | kernel/runtime/resume.go:164-191 | however many updates abort, runs are told of a restart at most once |
| UpdateDrain.RefusedUpdateTouchesNothing | kernel/update/update_apply.go:26-76 | an update not downloaded, verified or trusted changes nothing but the journal |
| UpdateDrain.LateRunsNeverStopAnUpdate | kernel/update/update_apply.go:78-105 | unless resumed during the drain, an update fails only on what precedes the drain or on the swap |
| UpdateDrain.ServiceFailsIff | kernel/update/update_apply.go:30-130 | the step fails exactly on what precedes the drain, on runs the drain reports, or on the swap; and when it drains |
| UpdateDrain.UpdateSwapsUnderLiveRuns | kernel/modules/runs/lifecycle/manager.go:102-127 | if the drain times out and no run unwinds, the update is applied and as many runs are still unsettled |
| UpdateDrain.TimedOutDrainStillApplies | kernel/modules/runs/lifecycle/manager.go:102-127 | so for one run in flight |
| Paths.CleanRender | cmd/agt/backup_restore.go:150 | cleaning a clean path changes nothing |
| Paths.UpUndoesDown | cmd/agt/backup_restore.go:149 | ".." takes back the name before it |
| Paths.UpFromTheTop | cmd/agt/backup_restore.go:149 | with no name before it, ".." leads nowhere from the root and up one level otherwise |
| Paths.UnderFollows | cmd/agt/backup_restore.go:172 | joining a name is walking its segments from the destination |
| Paths.InsideIff | cmd/agt/backup_restore.go:173-175 | a target below the destination passes the prefix test exactly if the destination is neither "." nor "/" |
| Backup.IsAllowedBackupPath | cmd/agt/backup_restore_helpers.go:23-35 | true exactly for names below an included subtree without ".." and no leading slash |
| Backup.AllowedIff | cmd/agt/backup_restore_helpers.go:23-35 | allowed is exactly what lies in one of the two subtrees and has no ".." in it |
| Backup.AllowedStaysDown | cmd/agt/backup_restore.go:168-175 | an allowed name leads below an included subtree of any destination |
| Backup.Disk.CreateExclusive | cmd/agt/backup_restore.go:176-189 | makes the parents and the file, or fails on a file in the way or a taken place |
| Backup.Disk.RestoreBackup | cmd/agt/backup_restore.go:141-192 | the loop's effect on the disk, the manifest and the outcome, for any archive and disk, bodies that break off included |
| Backup.RestoreStaysInside | cmd/agt/backup_restore.go:141-192 | whatever the archive, files already there keep their bytes and new ones lie below the included subtrees of the destination |
| Backup.RestoredIff | cmd/agt/backup_restore.go:141-192 | whatever the archive and the destination: all is restored exactly if every entry can be read and is let in and none finds its place taken; then each entry's bytes are at its own target, where no file was, and nothing else is new but the directories above |
| Backup.RestoreFailsIff | cmd/agt/backup_restore.go:141-192 | a readable archive ends in "cannot write" exactly if a place of the entries before the first one not let in is taken; otherwise it is refused exactly if some entry is not let in |
| Backup.RestoreEnds | cmd/agt/backup_restore.go:141-192 | it stops at the first entry not let in or finding its place taken, names that entry, and has written exactly those before it |
| Backup.ClearIffFree | cmd/agt/backup_restore.go:176-182 | no place is taken exactly if each, when it is reached, is no directory, no file and not below a file |
| Backup.RestoreConcat | cmd/agt/backup_restore.go:141-192 | a restore that succeeds on the first part goes on with the rest from there; one that does not never sees it |
| Backup.FailedWriteLeaves | cmd/agt/backup_restore.go:176-182 | a write below a file leaves everything as it was; one that finds its place taken has made the directories above |
| Backup.BrokenOffArchive | cmd/agt/backup_restore.go:148-192 | what an archive that breaks off leaves behind, and what it is reported as |
| Backup.RestoreWhenClear | cmd/agt/backup_restore.go:141-192 | if what it writes does not clash, a readable archive is refused exactly if some entry is not let in, else every entry lands at its place |
| Backup.InspectBackup | cmd/agt/backup_lib.go:24-63 | succeeds exactly on readable archives with readable manifests; lists every other file, its size and whether it is allowed |
| Backup.ListingShows | cmd/agt/backup_lib.go:24-63 | one line an entry, in order, with its name, size and whether it would be let in |
| Backup.FlaggedIffRefused | cmd/agt/backup_lib.go:24-63 | inspection flags an entry exactly if restore refuses the archive, for homes other than "." and "/" and archives whose entries before the first flagged one do not clash |
| Backup.UnnamedHomeRefusesAll | cmd/agt/backup_restore.go:173-175 | "." and "/" refuse every archive with a file, and write nothing |
| Backup.DotAndRootRefuse | cmd/agt/backup_restore.go:173-175 | so for an archive of one journal segment |
| Backup.CreateBackup | cmd/agt/backup_lib.go:65-121 | succeeds exactly if everything can be read and written; then manifest first, naming the subtrees present in order, and every file below them, once, with its bytes, and nothing else |
| Backup.RestoreUndoesCreate | cmd/agt/backup_lib.go:65-121 | restoring a backup into a fresh home gives exactly the included files if and only if no included path contains ".."; else it is refused |
| Backup.DottedNameIsRefused | cmd/agt/backup_restore_helpers.go:25-28 | so for a home whose journal holds a file named "a..b" |
| Money.FormatReadsBack | cmd/agt/check_json.go:176-199 | every amount above the least int64 reads back exactly, and its text is canonical: two to nine places, none wasted |
| Money.FormatIsInjective | cmd/agt/check_json.go:176-199 | different amounts print differently |
| Money.CanonicalIsUnique | cmd/agt/check_json.go:176-199 | the printed text is the only canonical one for its amount |
| Money.NegationRestsIff | cmd/agt/check_json.go:188-190 | negation makes an amount printable exactly if it is not the least int64, which it leaves as it is |
| Pricing.BillIsClampedSum | kernel/governor/pricing_cost.go:27-41 | the bill is the exact sum of the charges, clamped once; never negative, whatever the counts |
| Pricing.CachedBillIsClampedSum | kernel/governor/pricing_cost.go:55-91 | so is the cache-aware bill |
| Pricing.NoCacheIsPlain | kernel/governor/pricing_cost.go:43-91 | without cache traffic both bills agree |
| Pricing.PromptTokensBilledOnceIff | kernel/governor/pricing_cost.go:57-79 | every prompt token is billed once exactly if reads and writes together fit 64 bits |
| Pricing.EstimateIsBillIff | cmd/agt/check_json.go:157-174 | while both products fit 64 bits: the exact condition for estimate and bill to agree, and how far they differ, for sound counts, negative counts and charges that add up beyond 64 bits |
| Pricing.WrappedEstimateIsBillIff | cmd/agt/check_json.go:157-174 | with a product beyond 64 bits on either side, beside any other charge: what the bill is, and the exact condition for the wrapped estimate to agree; a single charge is never estimated higher |
| Pricing.EstimateMissesAMicrocent | cmd/agt/check_json.go:157-174 | they do differ |
| Pricing.EstimateWraps | cmd/agt/check_json.go:157-174 | beyond 64 bits the estimate goes negative where the bill saturates |
| Latency.ComputeLatencyStats | cmd/agt/check_bench.go:79-99 | the four statistics of the measurements, from a sorted copy; it modifies nothing |
| Latency.PercentilesHaveRank | cmd/agt/check_bench.go:86-97 | p50 is the lower median and p95 the measurement of rank ⌊(19n + 10) / 20⌋, by counting, and nothing else is |
| Latency.ExtremesBound | cmd/agt/check_bench.go:93-98 | min and max are measurements and bound them all |
| Latency.StatsAreOrdered | cmd/agt/check_bench.go:79-99 | min ≤ p50 ≤ p95 ≤ max |
| Latency.StatsIgnoreOrder | cmd/agt/check_bench.go:79-99 | the order of measurement does not matter |
| Latency.DocumentedRankIff | cmd/agt/check_bench.go:74-92 | the p95 rank is ⌈19n / 20⌉ exactly if n mod 20 is at most 10, else one less |
| Latency.ElevenMeasurements | cmd/agt/check_bench.go:74-92 | with eleven measurements it is 10, not 11 |
| BoardSubject.BoardSubjectSlug | cmd/agezt/main_pulse_artifacts.go:73-90 | the loop against its recursive form |
| BoardSubject.SlugIsSlug | cmd/agezt/main_pulse_artifacts.go:73-90 | every topic gives a non-empty word over [a-z0-9_-] with no dash at either end |
| BoardSubject.PlainIff | cmd/agezt/main_pulse_artifacts.go:73-90 | which characters a slug keeps: ASCII letters in lower case, digits, underscore, dash |
| BoardSubject.FixedIff | cmd/agezt/main_pulse_artifacts.go:73-90 | a word is its own slug exactly if it is such a word |
| BoardSubject.SlugIsIdempotent | cmd/agezt/main_pulse_artifacts.go:73-90 | a slug's slug is itself |
| BoardSubject.GapBecomesOneDash | cmd/agezt/main_pulse_artifacts.go:76-84 | whatever stands between two slugs, however long, becomes one dash, and nothing else changes |
| BoardSubject.BoardNotify | cmd/agezt/main.go:981-994 | the subject of a message |
| BoardSubject.RoutedTo | cmd/agezt/main.go:981-994 | the subject of each kind of message, spelled out |
| BoardSubject.SameSubjectIff | cmd/agezt/main.go:981-994 | two messages share a subject exactly if they are routed alike, a topic `help` or `broadcast` counting as the reserved route |
| BoardSubject.TopicIsNeverAddressed | cmd/agezt/main.go:981-994 | a plain topic never gives board.dm.X or board.help.X |
| BoardSubject.TopicIsMistakenIff | cmd/agezt/main.go:981-994 | it gives board.help or board.broadcast exactly if its slug is that word |
| BoardSubject.HelpTopicIsMistaken | cmd/agezt/main.go:981-994 | the topic "help" does |

## Left out

- Flag parsing, control-plane calls, printing and tables of both commands; HTTP surfaces, tunnels, channels, vaults, and the daemon's wiring: no state of their own.
- BLAKE3, SHA-256, JSON, gzip and tar bytes, fsync and atomic renames: hashes are arbitrary functions, records and archives are values, a write happens or fails.
- Segment rotation and file names of the journal: the segments are one sequence of lines and a torn tail, and whether there is a segment file at all. What a daemon appends behind a glued line before it is restarted is moved aside at its next open like any other line there, and is not followed further.
- Event payloads: one string; JSON normalisation of payloads and of `tags` is not part of this model.
- Case mapping and trimming beyond what the slug and the parsers need: case mapping is a parameter fixed on ASCII.
- Binary floating point: percentages are exact fractions, and prices arrive as integers; the conversion of dollar prices to microcents is not part of this model.
- Go's sort: modelled by what it guarantees, a sorted rearrangement, which `Ordering.SortedIsUnique` shows to be one value; where elements can tie, the order used is total.
- Goroutine scheduling: interleavings are explicit where several writers meet (resume tickets, compaction, export, drain) and absent elsewhere.
- Symbolic links and file modes in backups; two manifest fields that are constants; what a failed parse leaves half filled in.
- The watchdog's growing slice: a fixed array with a length; reallocation is not modelled. `Watchdog.OneTurn` is the loop body as a method of its own, and `PolicyOverlay.ProjectOne` likewise.
- File names of tickets: two correlations that sanitise to one file name are not modelled; correlations are taken as file names.
- Built-in deny rules and trust checks of the policy engine: only the runtime rules, whose names the restart question is about; removing a rule that is not a runtime rule, which the engine answers with an error, is here a removal that finds none. Durable policy is taken to be switched on.
- Estimates for models without a price, and the lookup of prices.
- PolicyReplay.ReplayIsFullFold: does not promise the full fold when a change slipped into the gap, because the code does not keep it; `GapIsHarmlessIff` says when that matters.
- ResumeProtocol.DispatchesAreBounded: promises cap + 1, not cap, because a racing shutdown can exceed the cap; `DispatchesWithinCap` gives the cap if write-backs look again first.
- Bundle.ScopedExportVerifies: says nothing of completeness, because a scoped cut cannot show events that were left out.
