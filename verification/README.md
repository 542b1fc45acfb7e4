# UnodeAi host logic, verified

UnodeAi is an editor extension that runs coding agents. This project models the parts of its host that make exact claims:
what the host keeps, shows, runs or restores must agree with what really happened. Each part of the model takes the form
of its source: objects that change in place are classes, loops are loops, and each is proved against a specification about
which the main theorems are proved.

| files | part of the host |
|---|---|
| Basics | optional values, results, and small functions and lemmas that several parts use |
| AnsiEscapes, AnsiStream, BoundedCommandOutput | command output without escape sequences, bounded at both ends |
| TextLines, EditScripts, UnifiedDiff, PrintedDiff | the interpreter of unified diffs, and the printed format of POSIX.1-2017 `diff -u` |
| CommandText, CommandShell, CommandScanner, PrintedCommand, ScannedCommand, RawSegments | the two readers of a command line |
| CommandPolicy, AgentCommandPolicy | what may run without a prompt, and a per-agent ceiling |
| Checkpoints, CheckpointStore, RestorePlan | the log of restore points, its shared limit, and the restore planner |
| RestoreHost, CheckpointRestore, RestoreCommit | the restore protocol on a file system that others change at every wait |
| ExecutionLane | one agent's foreground commands, one at a time, and one-shot starts |
| VerificationCheck | the completion check that runs at most once |
| UsageLedger | what turns and compactions are charged |
| TurnEvidence | which files a turn changed or was refused |
| Crc32, PngFilters, PngChunks, PngDecode | the icon tool's PNG decoder and chunk writer (RFC 2083, sections 3.2, 3.4 and 6) |

Waits. Between two awaits the host's code runs undisturbed, so a step of a model is the code between two awaits. At an
await everything another program, person or task may do is arbitrary: RestoreHost.Host.Wait replaces the whole file system
and authority, VerificationCheck.Check.Wait replaces the world, tries other runs and calls the closures handed out, and
ExecutionLane lets any enabled step come next. What RestoreCommit claims of the disk itself it claims for a host marked
quiet, where nothing else acts.

Where the code is not what one might expect, the model follows the code:

- An escape sequence pending for more than 4,096 units is handed on as text. The output is exact if and only if no
  complete sequence crosses such a release (AnsiStream.StreamExactIff, AnsiStream.LongSequenceLeaks).
- The diff interpreter ignores the counts of a hunk header, so a context-free insertion lands one line early; it passes over
  changed lines that print as `--- ` or `+++ `; and an empty result is written as a single newline
  (PrintedDiff.PrintedDiffAppliesIff says exactly when a printed diff is right). The line that says a text has no final
  newline counts for the new text even where it stands behind the old one (PrintedDiff.AddedNewlineIsLost), and a file
  with CRLF line ends is written back with LF (PrintedDiff.EndingsDoNotMatter).
- A restore marks only the changes it undoes. Restoring an older change after the newest one leaves the newest record
  naming the earlier content, and no further restore of that file is offered (RestorePlan.StepKeepsUpIff,
  RestorePlan.StaleAfterTwoRestores). Two more events have this effect: deleting a file that a recorded change left
  empty, which is skipped as no change (RestorePlan.EmptyDeleteIsMissed), and dropping a raw entry by its age or size
  when its record is the file's newest and an older text record stays (RestorePlan.RawEvictionUncoversOlder;
  src/backend/RawCheckpointStore.ts:410-447, src/extension.ts:5428).
- The allowlist's splitter also cuts inside quotes. An entry that leaves a quote open can equal what stands in front of
  such a cut, and then allows a command that it neither is nor begins (CommandPolicy.AllowedIsSoundIff says exactly when,
  CommandPolicy.OpenEntryMisleads gives one). The settings take any text as an entry, and the template of
  `node "my file.js"` is `node "my` (src/backend/CommandPolicy.ts:405-421).
- A compaction that the host stopped waiting for stays registered, and the next turn may begin, report and end before it
  does (src/backend/CodexBackend.ts:785, 2955-2957, 2996-3011). When the compaction settles inside that turn at a larger
  total, the turn then sets the baseline back and tokens are charged twice (UsageLedger.ConservesIff and
  UsageLedger.OrderConservesIff say exactly when, UsageLedger.OverlapChargesTwice gives one run).
- A refused restore whose temporary name was taken has removed the file that had it. With nothing reported as left behind,
  the disk is as it was if and only if that name was free (RestoreCommit.Undoes, which ReplaceTarget, Commit and Restore
  ensure on a quiet host).
- The decoder stores 0 for a missing raw byte, and notices a bad filter number only in a row that has bytes.

## Model

| member | source | states |
|---|---|---|
| AnsiEscapes.EscapeLengthFinds | src/backend/BoundedCommandOutput.ts:23 | The matcher reports a complete CSI or OSC sequence at the start of a text exactly when the language has one there, and its length is the only possible one. |
| AnsiEscapes.StartedIffProperPrefix | src/backend/BoundedCommandOutput.ts:25 | A pending end is exactly a non-empty proper prefix of some complete sequence. |
| AnsiEscapes.CutIsInvisibleIff | src/backend/BoundedCommandOutput.ts:31-41 | Removing sequences from two halves separately gives the whole removal exactly when no complete sequence crosses the cut. |
| AnsiEscapes.HeldOfConcat | src/backend/BoundedCommandOutput.ts:31-41 | More text never makes a pending sequence start earlier than the one already held. |
| AnsiEscapes.StripReady | src/backend/BoundedCommandOutput.ts:31-41 | Removal may stop in front of what is pending, whatever follows it. |
| AnsiStream.AnsiStripper.Push | src/backend/BoundedCommandOutput.ts:31-41 | What the pushes of a stream return adds up to the specified text of all its chunks so far, and what is kept is what the specification holds of them. |
| AnsiStream.AnsiStripper.Flush | src/backend/BoundedCommandOutput.ts:43-47 | A flush returns exactly the text that was pending, which completes the output of the stream, and leaves nothing. |
| AnsiStream.StreamStripsEachPiece | src/backend/BoundedCommandOutput.ts:28-48 | Any stream, any chunking: the output is each piece between forced releases, stripped once on its own. |
| AnsiStream.StreamExactIff | src/backend/BoundedCommandOutput.ts:23-48 | Any stream, any chunking: the output equals one leftmost removal over the whole stream if and only if no complete sequence crosses the end of an over-long pending one. |
| AnsiStream.ChunkInvariance | src/backend/BoundedCommandOutput.ts:23-48 | When no pending sequence at a chunk boundary exceeds the limit, the output is one removal over the whole stream, and what is held is what is pending of the whole stream. |
| AnsiStream.OneChunkIsExact | src/backend/BoundedCommandOutput.ts:23-48 | A text pushed at once is stripped exactly, however long its last sequence. |
| AnsiStream.LongSequenceLeaks | src/backend/BoundedCommandOutput.ts:17-41 | The limit is real: a longer OSC sequence, cut before its end, is handed on as text. |
| BoundedCommandOutput.BoundedCommandOutput.Push | src/backend/BoundedCommandOutput.ts:73-77 | Adds the stripped part of the chunk to what was seen; nothing after the end. |
| BoundedCommandOutput.BoundedCommandOutput.Finish | src/backend/BoundedCommandOutput.ts:79-93 | Adds what was pending, once; a second call changes nothing. |
| BoundedCommandOutput.BoundedCommandOutput.Add | src/backend/BoundedCommandOutput.ts:95-113 | The head fills first, the tail keeps the last units of the rest, and the count is of everything. |
| BoundedCommandOutput.BoundedCommandOutput.RenderWithin | src/backend/BoundedCommandOutput.ts:115-119 | The rendering of the whole stripped stream from its kept ends. |
| BoundedCommandOutput.BoundedCommandOutput.SnapshotWithin | src/backend/BoundedCommandOutput.ts:121-141 | The same rendering of what was seen so far, finishing nothing. |
| BoundedCommandOutput.KeptRendersLikeWhole | src/backend/BoundedCommandOutput.ts:121-141 | For every ceiling up to twice the smaller side, forgetting the middle cannot be seen: the kept ends render as the whole text would. |
| BoundedCommandOutput.RenderKeptIsHonest | src/backend/BoundedCommandOutput.ts:19-21 | For every ceiling: the result fits it, the omitted count is exact, the ends are the text's own ends and fill the room beside the marker up to one unit each, and no surrogate pair is split. |
| BoundedCommandOutput.RoomIsShared | src/backend/BoundedCommandOutput.ts:121-141 | Two sides that fill their halves share the room evenly, an odd unit being the head's. |
| BoundedCommandOutput.DecimalReads | src/backend/BoundedCommandOutput.ts:19-21 | The digits printed for a count are that count. |
| BoundedCommandOutput.BufferRefinesKeepingEverything | src/backend/BoundedCommandOutput.ts:60-141 | Every chunking within the pending limit: the buffer's rendering is the rendering of the whole stream kept and stripped once. |
| BoundedCommandOutput.BoundedText | src/backend/BoundedCommandOutput.ts:145-150 | A string bounded at once renders as the reference for every ceiling and fits it. |
| EditScripts.PatchMeaning | src/backend/CodexFileChanges.ts:105-152 | A list of lines is patched exactly when every hunk's old side stands at its own position, and the result keeps all other lines in order. |
| UnifiedDiff.ApplyUnifiedDiff | src/backend/CodexFileChanges.ts:105-152 | The two index loops compute the specified result or error for every text and every diff. |
| UnifiedDiff.RunHunks | src/backend/CodexFileChanges.ts:118-147 | The outer loop, from any index and any unread source. |
| UnifiedDiff.RunBody | src/backend/CodexFileChanges.ts:128-146 | The inner loop over one hunk's body, markers and unknown lines included. |
| PrintedDiff.BodyMeaning | src/backend/CodexFileChanges.ts:128-146 | A hunk body applies exactly when every line is understood and its old side stands at the cursor. |
| PrintedDiff.HunksMeaning | src/backend/CodexFileChanges.ts:118-152 | A diff applies exactly when it is understood, holds a hunk, and its hunks fit the source in order. |
| PrintedDiff.AppliedMeaning | src/backend/CodexFileChanges.ts:105-152 | Every text and every diff: when the diff applies, and which lines and final newline it then writes. |
| PrintedDiff.AppliedIsSound | src/backend/CodexFileChanges.ts:105-152 | Whenever it returns, every context and deletion line matched at the position its header names, and untouched lines survive in order. |
| PrintedDiff.ReadHeaderIff | src/backend/CodexFileChanges.ts:119-122 | A line begins a hunk if and only if it has two ranges of a start and perhaps a count in the header's form, whatever follows; its first number is the old start. |
| PrintedDiff.ReadHeaderOf | src/backend/CodexFileChanges.ts:119-123 | Reading a printed hunk header, with counts of one left out or not, gives back the start that was printed. |
| PrintedDiff.ParsePrinted | src/backend/CodexFileChanges.ts:117-147 | Reading a printed diff gives its hunks back, without the lines that look like file headers. |
| PrintedDiff.LandsIff | src/backend/CodexFileChanges.ts:117-147 | Hunks as the code reads them give the intended lines exactly when each is anchored, or its added lines are copies of the line they jump over. |
| PrintedDiff.HiddenIsMissed | src/backend/CodexFileChanges.ts:130-131 | A changed line that prints as a file header is always missed. |
| PrintedDiff.PrintedDiffAppliesIff | src/backend/CodexFileChanges.ts:105-152 | Every plain change of LF text: its printed diff writes the new text if and only if no change is hidden, every hunk is anchored and the new side is not empty. |
| PrintedDiff.PrintedDiffRoundTrip | src/backend/CodexFileChanges.ts:105-152 | A printed diff and then its printed inverse give the original text back. |
| PrintedDiff.EndingsDoNotMatter | src/backend/CodexFileChanges.ts:106-112 | CRLF or LF, in the old text and in the diff, and a last line that is not ended, make no difference to what a diff writes. |
| PrintedDiff.MarkedDiffAppliesIff | src/backend/CodexFileChanges.ts:129-152 | A printed diff with the no-newline line anywhere behind its first header writes exactly the new lines without a final newline if and only if no change is hidden and every hunk is anchored. |
| PrintedDiff.UnmarkedEndsInNewline | src/backend/CodexFileChanges.ts:151-152 | Without that line, whatever a printed diff writes ends in a newline. |
| PrintedDiff.AddedNewlineIsLost | src/backend/CodexFileChanges.ts:129-132 | A newline that only the new text has is lost, because the line behind the old text's last line already takes it. |
| PrintedDiff.FileHeaderIsIgnored | src/backend/CodexFileChanges.ts:128 | A line that reads as a file header, anywhere behind the first hunk header, is passed over. |
| PrintedDiff.ForeignLineIsRefused | src/backend/CodexFileChanges.ts:133-144 | Any other line that is neither context nor a change makes the diff unusable, an empty one in the middle included. |
| PrintedDiff.OrdinaryDiffRoundTrips | src/backend/CodexFileChanges.ts:105-152 | Every change whose hunks have a line on both sides, with no changed line reading as a file header either way round, round-trips. |
| PrintedDiff.InsertionLandsEarly | src/backend/CodexFileChanges.ts:120-123 | A context-free insertion is written one line too early: the counts are ignored. |
| CommandShell.Unquoted | src/backend/CommandShell.ts:314-345 | The loop over index, open quote and text so far computes the command outside quotes, or none when a quote stays open. |
| CommandScanner.RunBoundedScan | src/backend/CommandPolicy.ts:585-666 | The scanner's loop computes the specified segments or refusal for every command, grammar and shell. |
| CommandScanner.TakeStep | src/backend/CommandPolicy.ts:596-655 | One turn of that loop, at any character. |
| CommandScanner.RunReadQuoted | src/backend/CommandPolicy.ts:613-634 | The inner loop finds the quoted span and its closing quote, or none. |
| CommandScanner.SpanIsLiteral | src/backend/CommandPolicy.ts:613-634 | A quoted span that is read holds no line end, no quote of its kind, and between double quotes nothing its shell expands. |
| PrintedCommand.ScanUndoesPrint | src/backend/CommandPolicy.ts:585-666 | Printing 1 to 32 segments of 1 to 256 printable words, chained by admitted separators, and scanning gives the same segments, for every grammar. |
| PrintedCommand.QuotedWordEnds | src/backend/CommandPolicy.ts:613-634 | What may stand behind a closing quote. |
| PrintedCommand.NeutralReadsNothing | src/backend/CommandPolicy.ts:552-556 | In an unidentified shell the scanner reads no bare character. |
| PrintedCommand.QuotesAre | src/backend/CommandPolicy.ts:613-634 | The quotes of each grammar, and that an apostrophe is ordinary in cmd. |
| PrintedCommand.OrdinaryCharsAreBare | src/backend/CommandPolicy.ts:475-479 | Letters, digits and the usual marks of names, paths and options are read without quotes in every grammar. |
| PrintedCommand.SingleQuotesKeepAll | src/backend/CommandPolicy.ts:613-634 | Between single quotes anything but that quote and a line end is read as itself. |
| PrintedCommand.DoubleQuotesKeepMost | src/backend/CommandPolicy.ts:613-634 | Between double quotes everything but the quote, a line end and what the shell expands is read as itself. |
| ScannedCommand.ScanBounds | src/backend/CommandPolicy.ts:453 | Every accepted scan has 1 to 32 segments of 1 to 256 words, all of which can be printed again. |
| ScannedCommand.PrintedScanIsFixedPoint | src/backend/CommandPolicy.ts:475-484 | Scanning the print of any scan result is a fixed point when the print fits the length budget. |
| RawSegments.RawIsWholeText | src/backend/CommandPolicy.ts:585-666 | The scanner's pieces and separators, put together, are the whole command. |
| RawSegments.SegmentsAreTheirText | src/backend/CommandPolicy.ts:585-666 | Each piece of text between the scanner's separators holds exactly the segment reported for it. |
| RawSegments.ScannedHoldsNoOperator | src/backend/CommandPolicy.ts:475-479 | Whatever the scanner accepts holds, outside quotes as the other reader finds them, no line end, pipe, redirection, group, pattern or expansion of its shell. |
| RawSegments.SplitterAgrees | src/backend/CommandShell.ts:358-391 | For every command the scanner accepts, the scanner's separators are exactly the cuts the allowlist's splitter makes in the text outside quotes; every other cut of the splitter lies inside a quote. |
| CommandPolicy.AllowedIsSoundIff | src/backend/CommandPolicy.ts:253-320 | Every command allowed from the allowlist was read by the scanner, and the text of every scanner segment is an entry or continues one behind a space, if and only if no segment was cut off inside a quote at an entry with no shorter or longer entry to rescue it. |
| CommandPolicy.AllowedIsSound | src/backend/CommandPolicy.ts:253-320 | When every entry closes its quotes, every text the scanner reports of an allowed command is an entry or continues one behind a space. |
| CommandPolicy.OpenEntryMisleads | src/backend/CommandPolicy.ts:114-119 | An entry that leaves a quote open allows a command it neither is nor begins: the entry is one quote, the command a quoted semicolon. |
| CommandPolicy.CheckIsMonotone | src/backend/CommandPolicy.ts:253-363 | Raising the mode or adding allowlisted templates never refuses a command that was allowed. |
| CommandPolicy.PieceIsAllowlistedIff | src/backend/CommandPolicy.ts:114-119 | A segment whose first splitter piece is allowlisted is allowlisted as a whole if and only if it is not cut off inside a quote at an entry. |
| CommandPolicy.CutOffByOpenEntry | src/backend/CommandPolicy.ts:114-119 | Only an entry that leaves a quote open can cut a segment off. |
| CommandPolicy.VerdictIs | src/backend/CommandPolicy.ts:253-343 | Every verdict, by what the tables and the scanner find: off runs and asks nothing; danger is asked in every other mode and never runs unasked; what is not literal runs in all mode alone and asks in ask mode; what is literal runs unasked in all mode or when the allowlist covers it, and else asks in ask mode alone. |
| CommandPolicy.DangerIsAsked | src/backend/CommandPolicy.ts:276-278 | A destructive text is never allowed, is asked and is marked dangerous, in every mode but off and every shell. |
| CommandPolicy.InspectionIs | src/backend/CommandPolicy.ts:486-537 | A command is blocked exactly when it is dangerous, and supported exactly when it is literal; an unread one is judged by mode alone. |
| CommandPolicy.AllowlistIs | src/backend/CommandPolicy.ts:357-363 | What may match in one grammar is configured or was granted in that very grammar, and runs there. |
| CommandPolicy.MatchesIff | src/backend/CommandPolicy.ts:114-119 | A piece is covered by an entry exactly when it is the entry, but for case, or goes on behind it with a space. |
| CommandPolicy.AllowlistDecides | src/backend/CommandPolicy.ts:288-316 | Of a scanned command with no quoted cut and nothing its shell may act on, the allowlist decides alone, segment by segment. |
| CommandPolicy.CommandPolicy.Judge | src/backend/CommandPolicy.ts:253-320 | The verdict is the one VerdictIs spells out, and the first-block callback fires once, only for a non-blank command while commands are off. |
| CommandPolicy.CommandPolicy.Reload | src/backend/CommandPolicy.ts:248-251 | Mode and inputs are replaced, normalised; whether the callback has fired is kept. |
| CommandPolicy.SplitIsWhole | src/backend/CommandShell.ts:377-391 | What is split for the allowlist has closed quotes and no empty piece. |
| CommandPolicy.QuietIsOnePiece | src/backend/CommandShell.ts:377-391 | A command with closed quotes and nothing a shell acts on is one piece, in every known grammar. |
| CommandPolicy.NeutralIsOnePiece | src/backend/CommandShell.ts:351-391 | In an unidentified shell the whole command is one piece and holds nothing any shell may act on. |
| CommandPolicy.AllowedHoldsNoOperator | src/backend/CommandShell.ts:351-391 | A command that runs unasked because of the allowlist holds, inside quotes too, no pipe, redirection, group, line end or expansion of its shell. |
| AgentCommandPolicy.NarrowedAllowlistIsPart | src/backend/AgentCommandPolicy.ts:42-46 | What a narrowing may match silently is part of what the workspace may, in the same grammar. |
| AgentCommandPolicy.NarrowedIsBelowGlobal | src/backend/AgentCommandPolicy.ts:39-46 | What the narrowed policy allows, the workspace policy allows. |
| AgentCommandPolicy.NarrowingNeverWidens | src/backend/AgentCommandPolicy.ts:28-64 | An agent runs a command exactly when the narrowed policy allows it, and then the workspace does too; a hard denial never becomes a prompt; a destructive command keeps the workspace verdict. |
| AgentCommandPolicy.NarrowingIsMonotone | src/backend/AgentCommandPolicy.ts:6-64 | A narrower mode or a smaller selection leaves an agent at most as much. |
| AgentCommandPolicy.NarrowerModeIs | src/backend/AgentCommandPolicy.ts:7-9 | The effective mode is one of the two and no wider than either. |
| AgentCommandPolicy.NarrowedVerdictIs | src/backend/AgentCommandPolicy.ts:28-64 | Short of danger and outright refusals, an agent's verdict is that of the narrower mode with what its selection leaves of the allowlist. |
| AgentCommandPolicy.NarrowedModeHolds | src/backend/AgentCommandPolicy.ts:28-64 | Short of danger, an agent narrowed to off runs and asks nothing, and one narrowed to the allowlist asks nothing. |
| AgentCommandPolicy.NarrowedRunsSelected | src/backend/AgentCommandPolicy.ts:41-46 | What an agent narrowed to the allowlist or to asking runs unasked is covered, piece by piece, by entries selected for it that the workspace allows. |
| Checkpoints.MadeKeeps | src/backend/Checkpoints.ts:168-199 | What a record keeps of its change: never a text of more than 200,000 characters, and otherwise all of it that can be restored. |
| Checkpoints.TextCountIs | src/backend/Checkpoints.ts:223-226 | The text records counted are the ones without a raw entry. |
| Checkpoints.TrimmedFits | src/backend/Checkpoints.ts:205-221 | The eviction loop ends with both kinds within the limit or nothing left that may go, never below the limit; the new record and everything in use stay; ids stay distinct and growing. |
| Checkpoints.StepTakesOne | src/backend/Checkpoints.ts:205-221 | Each turn of the loop drops exactly one counted entry, so it ends. |
| Checkpoints.TrimsOldestFirst | src/backend/Checkpoints.ts:205-221 | With entries in time order, nothing dropped is newer than anything of either kind that could have gone and stayed. |
| Checkpoints.PinnedOutlivesNewer | src/backend/Checkpoints.ts:205-221 | A raw entry in use outlives a newer text record, which goes in its place. |
| CheckpointStore.RecordSharesTheLimit | src/backend/Checkpoints.ts:168-221 | After a record: the new record is kept whenever it may be, the shared limit holds or nothing else may go, and the log is not cut further than the limit asks. |
| CheckpointStore.RecordDropsOldestFirst | src/backend/Checkpoints.ts:168-221 | What a record pushes out is the oldest of both kinds. |
| CheckpointStore.CheckpointStore.Record | src/backend/Checkpoints.ts:168-199 | The store and its peer after recording are the specified ones; a no-op change is skipped. |
| CheckpointStore.CheckpointStore.Trim | src/backend/Checkpoints.ts:205-221 | The loop over both stores computes the specified eviction. |
| CheckpointStore.CheckpointStore.AttachPeer | src/backend/Checkpoints.ts:158-162 | From then on the limit is shared with that store's entries, or with none. |
| CheckpointStore.CheckpointStore.EvictOldest | src/backend/Checkpoints.ts:233-238 | Drops the oldest text record. |
| CheckpointStore.CheckpointStore.DropRaw | src/backend/Checkpoints.ts:246-252 | Drops exactly the records of these raw entries, and says whether there were any. |
| CheckpointStore.CheckpointStore.MarkRestored | src/backend/Checkpoints.ts:269-275 | Marks exactly these records, in place. |
| CheckpointStore.CheckpointStore.RestoreFrom | src/backend/Checkpoints.ts:286-292 | Replaces the state by a saved one of this version; ids stay distinct and below the next one. |
| CheckpointStore.LoadedIsNumbered | src/backend/Checkpoints.ts:286-292 | Loading keeps ids distinct and below the next id, whatever next id was saved. |
| CheckpointStore.LoadUndoesSave | src/backend/Checkpoints.ts:281-292 | Loading what was saved is the identity if and only if the limit does not cut the log; the next id always survives. |
| CheckpointStore.Reload | src/backend/Checkpoints.ts:281-292 | A store reloaded from its saved state holds the same log and next id. |
| RestorePlan.SortUndoesReverse | src/backend/Checkpoints.ts:391-396 | Sorting the newest-first list by id gives the log back. |
| RestorePlan.ByIdSorts | src/backend/Checkpoints.ts:391-396 | Sorting by id orders any list and keeps every record. |
| RestorePlan.PlanOfLog | src/backend/Checkpoints.ts:383-407 | The plan made from the list is the one of the log: expectation of the newest record of the file, and every later unrestored change undone. |
| RestorePlan.StepKeepsUpIff | src/backend/Checkpoints.ts:269-275 | Any recorded change, restore or eviction keeps the newest record's expectation right if and only if the change is recorded or changes nothing known, the restore finds the newest record unrestored or restored to the same content, and the eviction leaves no record of the file or a newest one whose expectation fits. |
| RestorePlan.StepPutsBackPrior | src/backend/Checkpoints.ts:168-199 | No change, restore or eviction, in step or not, makes an offered restore put back anything but what the file held before its change. |
| RestorePlan.RunStaysSound | src/backend/Checkpoints.ts:383-432 | Over whole runs in step: the newest expectation is unknown or is what the file holds, and every offered restore puts back the content from before its change. |
| RestorePlan.FreshRunStaysSound | src/backend/Checkpoints.ts:383-432 | The same for every run in step from an empty log and any file. |
| RestorePlan.RestoreYieldsPrior | src/backend/Checkpoints.ts:383-407 | A restore carried out in such a run leaves the content from before the chosen change. |
| RestorePlan.OfferedIff | src/backend/Checkpoints.ts:295-323 | A record is offered exactly when its change was not undone, names its file and operation, and has its bytes. |
| RestorePlan.ExpectedIs | src/backend/Checkpoints.ts:409-432 | What is expected behind every record, and exactly when nothing is known. |
| RestorePlan.ChangeMayBeUndone | src/backend/Checkpoints.ts:168-199 | Every change of which the host kept enough can be undone: right after it a restore is offered and puts back what the file held before. |
| RestorePlan.StaleBlocksEveryRestore | src/backend/Checkpoints.ts:409-432 | Once the expectation is stale, no restore of the file is offered any more. |
| RestorePlan.StaleAfterTwoRestores | src/backend/Checkpoints.ts:269-275 | It can become stale: three changes, a restore of the third, then of the second, for any contents. |
| RestorePlan.RawEvictionUncoversOlder | src/backend/Checkpoints.ts:246-252 | It can become stale by eviction: when the newest record of a file goes because its raw entry is dropped, an older text record is left to speak for the file. |
| RestorePlan.EmptyDeleteIsMissed | src/backend/Checkpoints.ts:168-171 | It can become stale by a deletion: deleting a file that a recorded change left empty is skipped as no change. |
| CheckpointRestore.Locate | src/backend/CheckpointRestore.ts:293-325 | A place is found only with trust, inside a current root by its real path, where it led before, and with no unsaved editor unless overridden; undisturbed, exactly the place the host's state gives. |
| CheckpointRestore.FindPlace | src/backend/CheckpointRestore.ts:307-317 | The first root that resolves the target decides. |
| CheckpointRestore.Prepare | src/backend/CheckpointRestore.ts:106-125 | Undisturbed, it is ready exactly when the place is found and the file meets the expectation, is not already gone and has one name; a ready restore always passed every check; nothing is changed. |
| CheckpointRestore.StillAsPrepared | src/backend/CheckpointRestore.ts:270-286 | No problem is reported only after a whole check that passed; once the target was read, exactly when the reading is the prepared state; undisturbed, exactly when host and file are as prepared. |
| CheckpointRestore.PassesMeans | src/backend/CheckpointRestore.ts:270-325 | A whole passed check, spelled out: trust, a current root, the real place inside it, the recorded place, no unsaved editor, and a last reading with the digest, device and inode that were observed, or no file where none was. |
| CheckpointRestore.SameStateIff | src/backend/CheckpointRestore.ts:402-407 | Two readings agree exactly when neither found a file, or both found one digest, device and inode. |
| CheckpointRestore.SamePhysicalIff | src/backend/CheckpointRestore.ts:429-433 | Two paths are one place exactly when they are the same name by name, on Windows but for case. |
| CheckpointRestore.ExpectationProblemIs | src/backend/CheckpointRestore.ts:327-351 | Preparation goes on exactly when the expectation is met or overridden, the file is not already gone and has one name; only newer work may be overridden. |
| RestoreCommit.FailedEffect | src/backend/CheckpointRestore.ts:262-267 | A failed act is a refusal only when the target still reads as prepared. |
| RestoreCommit.DeleteTarget | src/backend/CheckpointRestore.ts:159-180 | Under any interference the log is honest; undisturbed, the file and nothing else is gone, or a refusal changed nothing. |
| RestoreCommit.CommitCopy | src/backend/CheckpointRestore.ts:215-229 | The last check, the rename and its read-back, with an outcome that says what was read. |
| RestoreCommit.RemoveCreatedFolders | src/backend/CheckpointRestore.ts:413-427 | On any host, removes only folders on the created path in which nothing lay at that moment, deepest first; undisturbed, all gone means the disk is as before. |
| RestoreCommit.ReplaceTarget | src/backend/CheckpointRestore.ts:182-250 | Under any interference the log is honest; undisturbed, exactly the target and folders to it changed, or a refusal with nothing left behind took from the disk exactly what had the name of its temporary file: the disk is as it was if and only if that name was free. |
| RestoreCommit.Commit | src/backend/CheckpointRestore.ts:145-157 | The whole commit, for both kinds of content, with what a refusal leaves; undisturbed, a target that is not as prepared is refused and the disk left alone. |
| RestoreCommit.CommitsFollowChecks | src/backend/CheckpointRestore.ts:145-286 | A rename or delete is issued at most once, on the target alone, directly after a whole check that passed, whose last reading in front of it found the digest, device and inode that were prepared. |
| RestoreCommit.RestoredWasSeen | src/backend/CheckpointRestore.ts:175-178 | A restore is reported only when the reading directly after its own successful act found exactly the wanted content, or absence. |
| RestoreCommit.RefusedDidNothing | src/backend/CheckpointRestore.ts:262-267 | After a refusal no rename or delete succeeded, and if one failed the target read back unchanged. |
| RestoreCommit.ChangedIsRefused | src/backend/CheckpointRestore.ts:281-285 | A last check that read any other digest, device or inode ends in a refusal with nothing issued. |
| RestoreCommit.FailedActSays | src/backend/CheckpointRestore.ts:262-267 | After a failed delete or rename the outcome is a refusal exactly when the next reading has the prepared digest, device and inode, and uncertain otherwise. |
| RestoreCommit.Restore | src/backend/CheckpointRestore.ts:106-157 | Preparation, decision and commit: on any host the log is a preparation that only looked, whole and passed when ready, and then an honest commit; undisturbed with reliable calls, a prepared restore goes through unless its random temporary name is taken. |
| ExecutionLane.StepStaysSafe | src/backend/CommandExecution.ts:217-291 | Every step of the lane, in any state, keeps all of its safety invariants. |
| ExecutionLane.OneTicketInOrder | src/backend/CommandExecution.ts:232-266 | In every run at most one ticket is held, and tickets are granted in the order of entry. |
| ExecutionLane.NoTicketAfterReset | src/backend/CommandExecution.ts:255-259 | In every run from the moment a reset begins, in any state, nothing enters and no ticket is granted. |
| ExecutionLane.ResetEndsEmpty | src/backend/CommandExecution.ts:273-285 | When a reset ends, every entry has been released, those in execution included, and the lane stays empty for good. |
| ExecutionLane.ResetSparesExecution | src/backend/CommandExecution.ts:273-285 | A reset releases queued, preparing and approval-waiting entries at once; a running or stopping one stays and is waited for. |
| ExecutionLane.ResetWaitsForExecution | src/backend/CommandExecution.ts:273-285 | After any history, a reset that finds an entry running or stopping ends only once that entry was released or went back to a phase before execution. |
| ExecutionLane.AbortedWakesAtOnce | src/backend/CommandExecution.ts:196-206 | An aborted entry need not wait for those before it, and gets no ticket. |
| ExecutionLane.NeverSticks | src/backend/CommandExecution.ts:196-206 | An open lane with anyone in it has a holder, or a first entry that is granted when it wakes. |
| ExecutionLane.Foreground.Enter | src/backend/CommandExecution.ts:232-253 | The part before the wait takes the next place, or none once a reset began. |
| ExecutionLane.Foreground.Wake | src/backend/CommandExecution.ts:254-265 | The part after the wait grants or turns away as the step says. |
| ExecutionLane.Foreground.BeginReset | src/backend/CommandExecution.ts:273-282 | The loop over the entries aborts all, releases those not in execution and waits for exactly the others. |
| ExecutionLane.UseAll | src/backend/CommandExecution.ts:118-137 | Over any calls of either kind the inner command starts at most once: exactly when the first call was not refused. |
| ExecutionLane.RunBesideLane | src/backend/CommandExecution.ts:139-142 | A command guarded by its lane never starts once a reset began. |
| VerificationCheck.NoRefusalIsAuthority | src/backend/CompletionVerificationCheck.ts:70-80 | No refusal means exactly: live request, trust, folder, same binding, command rules present. |
| VerificationCheck.Check.Begin | src/backend/CompletionVerificationCheck.ts:82-84 | The first call consumes the check synchronously; every other one is refused. |
| VerificationCheck.Check.AnswerPrompt | src/backend/CompletionVerificationCheck.ts:109-118 | A yes given while authority holds makes a new, unused receipt for this command, shell and kind of use; any other answer changes no receipt. |
| VerificationCheck.Check.ConsumeReceipt | src/backend/CompletionVerificationCheck.ts:143-151 | It says yes exactly when authority holds and the unused receipt is for this command, shell and kind of use, and then that receipt is consumed. |
| VerificationCheck.Check.Wait | src/backend/CompletionVerificationCheck.ts:94-158 | Whatever happens at a wait, including other runs and any use of the closures, no execution is added. |
| VerificationCheck.Check.Ask | src/backend/CompletionVerificationCheck.ts:86-125 | The steps up to a confirmed yes of the first gate, or why they ended. |
| VerificationCheck.Check.Readmit | src/backend/CompletionVerificationCheck.ts:126-142 | Everything asked again: the same command admitted once more, with authority before and after, or why not. |
| VerificationCheck.Check.Execute | src/backend/CompletionVerificationCheck.ts:157-188 | The command starts exactly with live authority and an allowed verdict or the consumed receipt of an ask, and the outcome is what its result says: exit code 0 alone passes, another code or a timeout fails. |
| VerificationCheck.Check.Run | src/backend/CompletionVerificationCheck.ts:82-189 | The first run of a check either says why nothing ran, from its steps and the host at its end, or went through every step in order, each answered yes and with authority confirmed behind each wait, and says what the result was. |
| VerificationCheck.RunAll | src/backend/CompletionVerificationCheck.ts:82-189 | Over any number of runs the executor is called at most once. |
| VerificationCheck.RefusalReasonIs | src/backend/CompletionVerificationCheck.ts:70-80 | Which refusals are for what is stale, and which for what is blocked. |
| VerificationCheck.ReceiptsInTime | src/backend/CompletionVerificationCheck.ts:109-151 | Approvals come with the first gate or later, consumptions only with the second. |
| VerificationCheck.ReceiptStands | src/backend/CompletionVerificationCheck.ts:113-151 | A receipt in force goes back to the last approval, given with authority for its command, shell and kind of use, and a consumed one to its only use since. |
| VerificationCheck.UsesBounded | src/backend/CompletionVerificationCheck.ts:113-151 | Receipts consumed, and the one still unused, never exceed the approvals given. |
| VerificationCheck.StartsAreAuthorized | src/backend/CompletionVerificationCheck.ts:159-166 | Every start had live authority and an allowed verdict, or an ask with an approval for its command and shell, then that approval's one consumption, then the start, in this order; there is at most one start. |
| UsageLedger.ChargeIsTotalIff | src/backend/CodexBackend.ts:3178-3190 | The charge equals the total's growth exactly when that counts reasoning within the output or beside it. |
| UsageLedger.TurnUsageIs | src/backend/CodexBackend.ts:3178-3190 | Every field of a settled usage, by what the observed totals grew. |
| UsageLedger.SettledUsageIs | src/backend/CodexBackend.ts:3074-3102 | Settling remembers the usage of the growth, a zero after a reset, or nothing, and moves the baseline to the total. |
| UsageLedger.SettlingTwice | src/backend/CodexBackend.ts:3093-3102 | Settling a completion twice changes nothing more, charges once and repeats its figure. |
| UsageLedger.StepConserves | src/backend/CodexBackend.ts:2770-2812 | Any event on a known thread with totals that never fall moves the baseline by exactly what it charges, less what a settlement sets it back by. |
| UsageLedger.ChargesEqualGrowth | src/backend/CodexBackend.ts:3074-3102 | Over any run of turns, retries, late reports and compactions, overlapping or not, the charges are exactly the growth of the settled total and what settlements set it back by. |
| UsageLedger.ConservesIff | src/backend/CodexBackend.ts:3074-3102 | The charges are exactly the growth of the settled total if and only if no settlement is at a total below the one it replaces. |
| UsageLedger.OrderConservesIff | src/backend/CodexBackend.ts:3074-3102 | From an idle ledger, with totals that rise from report to report: which orders of events conserve, by the events alone. The charges are the settled growth if and only if no turn or compaction is settled after a later report of the other was. |
| UsageLedger.NeverOvercharges | src/backend/CodexBackend.ts:2980-2990 | However totals rise and fall, in any order of events, charges never exceed what the observed totals rose by and the detours of late settlements; where totals count reasoning within the output, its rise is not counted again. |
| UsageLedger.TimelyNeverOvercharges | src/backend/CodexBackend.ts:2980-2990 | When every settlement is at the newest observed total, charges never exceed what the observed totals rose by. |
| UsageLedger.UndisturbedNeverOvercharges | src/backend/CodexBackend.ts:2980-2990 | The same by the events alone: from an idle ledger, when no compaction reports between a turn's last report and its settlement, and no turn between a compaction's last report and its end. |
| UsageLedger.OverlapChargesTwice | src/backend/CodexBackend.ts:2996-3011 | An abandoned compaction that ends inside the next turn makes the turn set the baseline back, and the tokens between are charged twice. |
| UsageLedger.Meter.Resume | src/backend/CodexBackend.ts:936-942 | A restored thread has the baseline it saved, or an unknown one. |
| UsageLedger.Meter.ResetTurnObservations | src/backend/CodexBackend.ts:1199-1214 | A turn begins with nothing observed; baselines and a registered compaction stay. |
| UsageLedger.Meter.ObserveTokenUsage | src/backend/CodexBackend.ts:2770-2794 | A report changes the ledger as specified, or not at all when it is another thread's. |
| UsageLedger.Meter.SettleTurnUsage | src/backend/CodexBackend.ts:3074-3102 | Settling advances the baseline once and returns the remembered figure after that. |
| UsageLedger.Meter.CompactionUsage | src/backend/CodexBackend.ts:2980-2990 | A compaction's charge and new baseline. |
| UsageLedger.Meter.StartCompaction | src/backend/CodexBackend.ts:2886-2924 | One compaction is registered at a time. |
| UsageLedger.Meter.NoteCompactionUsage | src/backend/CodexBackend.ts:2950 | The newest total the compaction's own turn reports is the one it keeps. |
| UsageLedger.Meter.EndCompaction | src/backend/CodexBackend.ts:2955-2957 | Its terminal event charges and settles it, whatever turn is under way. |
| TurnEvidence.EvidenceIsExact | src/backend/ClaudeHeadlessBackend.ts:2336-2350 | Every interleaving: the refused files are exactly those refused at least once and never written, and a spelling is listed exactly when a call of it succeeded or came after its last refusal. |
| TurnEvidence.AnsweredSpellings | src/backend/ClaudeHeadlessBackend.ts:2328-2350 | A spelling with a success is listed; one all of whose calls were answered by refusals is not. |
| TurnEvidence.UnrecordedIff | src/backend/ClaudeHeadlessBackend.ts:3517-3531 | Writes count as unrecorded exactly when a file change without a path or a mutating shell command came. |
| TurnEvidence.ResultOrderDoesNotMatter | src/backend/ClaudeHeadlessBackend.ts:2336-2350 | Results of different calls, in any order, leave the same evidence. |
| TurnEvidence.Turn.NoteWriteOutcome | src/backend/ClaudeHeadlessBackend.ts:2336-2350 | A result changes the sets and the map as specified. |
| TurnEvidence.Turn.SeeCall | src/backend/ClaudeHeadlessBackend.ts:2643-2651 | A call is listed at once and remembered under its id. |
| TurnEvidence.Turn.RecordToolEvidence | src/backend/ClaudeHeadlessBackend.ts:3517-3531 | A file change with a path is listed; one without, or a mutating command, counts as unrecorded. |
| TurnEvidence.WatchTurn | src/backend/ClaudeHeadlessBackend.ts:2336-2350 | A whole turn, event by event. |
| PngFilters.PaethIsNearest | scripts/gen-icon.js:46 | The predictor is the neighbour nearest to left + above - upper left, ties to the left one, then to the one above. |
| PngFilters.UnfilteredAt | scripts/gen-icon.js:49-63 | What the decoder leaves at every place of a row, filter by filter, from the raw byte and its three neighbours; a missing byte leaves 0. |
| PngFilters.UnfilterInverts | scripts/gen-icon.js:49-65 | Undoing a filter gives the filtered row back, for every filter, channel count and row above. |
| PngFilters.UnfilteringInvertsFiltering | scripts/gen-icon.js:38-68 | Every image and choice of one of five filters per row: the row loop recovers the bytes. |
| PngFilters.DecodesIff | scripts/gen-icon.js:46-62 | The rows decode if and only if each begins with the number of one of the five filters. |
| PngFilters.PixelBytes | scripts/gen-icon.js:64-68 | Where red, green, blue and alpha of each pixel lie in the output, and which byte of which row they are. |
| PngDecode.OtherFormatsAreRefused | scripts/gen-icon.js:34-37 | Only eight bits to a sample and colour types 2 and 6 are decoded. |
| PngDecode.UnfilterRow | scripts/gen-icon.js:49-63 | The in-place loop overwrites the row with its unfiltered bytes. |
| PngDecode.WritePixels | scripts/gen-icon.js:64-68 | The pixel loop appends the row's pixels and leaves earlier ones alone. |
| PngDecode.DecodeRows | scripts/gen-icon.js:38-70 | The row loop over two buffers and one output computes the specified pixels or refuses a bad filter. |
| PngDecode.GatherChunks | scripts/gen-icon.js:22-33 | The chunk walk gathers header and image data, or fails out of range. |
| PngDecode.DecodePng | scripts/gen-icon.js:22-71 | The whole decoder returns what the file means. |
| PngDecode.WrittenImageDecodes | scripts/gen-icon.js:22-71 | A file of a header, image data in any pieces between other chunks, and an end decodes to exactly the pixels that were filtered. |
| PngChunks.TypesAreTheirNames | scripts/gen-icon.js:30-32 | The chunk types are their four ASCII letters. |
| PngChunks.WalkReadsWritten | scripts/gen-icon.js:26-33 | Walking written chunks recovers types and data in order, up to the end chunk. |
| PngChunks.ChunkReads | scripts/gen-icon.js:148 | One written chunk is read back, and the next begins right behind it. |
| PngChunks.WriteOneChunk | scripts/gen-icon.js:148 | The writer's bytes: length, type, data and the table-driven checksum. |
| Crc32.TakeBitsIsShifts | scripts/gen-icon.js:146 | Reading bits one by one is adding them all and then shifting. |
| Crc32.PolynomialIs | scripts/gen-icon.js:146 | The table's constant is the generator polynomial of RFC 2083, lowest power first. |
| Crc32.KnownChecksum | scripts/gen-icon.js:147 | The checksum of one known message. |
| Crc32.ByteAtOnce | scripts/gen-icon.js:147 | One byte through the table equals eight bits through the register. |
| Crc32.MakeTable | scripts/gen-icon.js:146 | The table holds every byte's entry. |
| Crc32.Crc32 | scripts/gen-icon.js:147 | The table-driven checksum equals the bit-by-bit definition on every byte sequence. |

## Left out

- Text in the diff, command and checkpoint models is Dafny `string`: a lone surrogate cannot occur, and length limits count characters, not UTF-16 units. The output model works on UTF-16 units.
- CommandText.Lower: lower case is ASCII only, and white space is a fixed set of code points.
- The destructive-text patterns, wrapper verbs, delete targets and cmdlet names of the command policy are arbitrary predicates; reason texts are left out everywhere.
- `gateShellCommand` and the approval prompts are arbitrary host code; physical delete targets are not judged.
- SHA-256 is taken as collision free, and a file's content as the UTF-8 form of a text or bytes that are none.
- A record's agent, display path and request are not in the model, and Date.now is a parameter.
- RestorePlan.RunStaysSound: one file over a run; "Restore anyway" over newer work, which records the replaced content, is not an event.
- RestorePlan.StepKeepsUpIff: tools are taken to report their changes truthfully, as the host's read-back does.
- The raw-byte store's own index, payload files and byte limit are not part of this model; it takes part in the shared limit with its entries, pins and availability.
- RestoreHost.Host.ReadTargetState: what the chunked reads return together is one content, any content at all when others may write meanwhile.
- RestoreHost.Host.MakeFolders: made in one step; on a host that is not quiet anything may happen around it, and on a quiet one a call that fails did nothing.
- RestoreHost.Host.Resolve: resolving a path to its real place is one step against an arbitrary map of where paths lead.
- Windows path rules are reduced to names that compare without case in ASCII.
- ExecutionLane.NeverSticks: says the first entry can always go on; that the scheduler runs a settled wait in the end is assumed of the runtime.
- VerificationCheck: command admission (the manifest reader), outputs, timeouts and messages are left out; the executor's result is arbitrary.
- UsageLedger.ChargesEqualGrowth: one thread, known baseline, totals that never fall and count reasoning uniformly; events come in any order, also in some the host never lets through; token counts are natural numbers, where the source takes any number.
- The live count for saving batches, per-attempt attribution and the context-window report of the Codex backend are left out.
- TurnEvidence: a file's identity is a fixed function of its path during a turn; how a shell command is recognised as mutating is a flag.
- zlib's inflate is an arbitrary function, and buffers too large to allocate are not modelled. Icon drawing is floating-point rendering and is left out.
- `SessionCommandApprovals`, the diff's file lookup and the rest of both backends would only add easy members or I/O.
