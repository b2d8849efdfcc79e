# A verified model of heartflow's algorithmic cores

This project models eleven small cores of a command-line coding agent in Dafny and proves what each
is for, over every input, every run or every reachable state. Run `dafny verify dfyconfig.toml` here to
check it.

| core | files |
|---|---|
| follow-up queue, with its file, failing writes and crashes | `QueueModel`, `FollowUpQueue`, `QueueRuns`, `QueueStates`, `QueueCrash`, `QueueFiles`, `QueueTorn`, `QueueOnce`, `QueueLaws` |
| day number to calendar date | `Calendar` |
| subword cursor motion | `WordMotion`, `WordShapes`, `WordMirror` |
| prompt history and its file | `History`, `HistoryLaws` |
| fuzzy matching and ranking | `Fuzzy`, `FuzzyScores`, `FuzzyRank`, `FuzzyRuns` |
| server-sent event splitter (section 9.2.6 of the WHATWG HTML Living Standard) | `Sse`, `SseFrames`, `SseFields` |
| keymap | `KeyNames`, `KeyRoundTrip`, `Keymap`, `KeymapLaws`, `KeyChords` |
| comment and string blanking of Rust source | `Blanking`, `BlankingLaws`, `BlankingLexemes`, `BlankingTokens`, `BlankingLines` |
| markdown projectors and table grids | `Markdown`, `MarkdownTable`, `TableGeometry`, `TablePlaces`, `CodeBodies`, `GridTexts`, `MarkdownProject`, `MarkdownMarks`, `MarkdownAgreement`, `MarkdownFinish`, `LineCuts`, `MarkdownRows`, `NewlineFree`, `MarkdownLines`, `FinishedRows` |
| plan document and task loop | `PlanDocument`, `PlanLaws`, `PlanInPlace`, `TaskLoop`, `TaskVerdicts` |
| retry policy (Retry-After is section 10.2.3 of RFC 9110) | `Retry`, `RetryLaws` |
| string operations of the Rust standard library | `Text` |

Code that updates fields or locals in loops is a class or a method with loops, proved against a
function of its inputs or its old state; the laws are lemmas about those functions.

What the code cannot decide itself is an input: whether each write reaches the disk, what a turn or
the operator comes to, the outcomes of sending a request. Every theorem holds for all of them.

## Where code and documentation part

The model follows the code. Each of these is a theorem with its exact condition or a concrete witness.

- The queue's comment that an entry out for delivery cannot be lost in a crash holds only while nothing
  is persisted in between (`QueueCrash.SendDuringDeliveryExposesTheEntry`, `QueueCrash.CallKeepsSync`),
  and a drain loses steers that stand ahead of a follow-up from the file
  (`QueueCrash.DrainBehindSteerExposesIt`).
- Redelivery at least once is the failure mode the queue declares. In merged mode a crash during the turn
  redelivers nothing: the whole queue is filed as delivered by then (`QueueTorn.CrashDuringMergedTurn`).
- Loaded ids "never go backwards" only for fresh files (`QueueCrash.LoadSanitizes`,
  `QueueCrash.StaleFileReissuesAnId`); all files the queue itself writes are
  (`QueueFiles.WrittenFilesAreFresh`).
- Word motion is not its own reverse on lines with whitespace or odd runs of ideographs
  (`WordMirror.MotionMirrors`).
- The event splitter depends on chunking when both separators occur in the wrong order
  (`Sse.ChunksDoNotMatter`).
- An id is issued twice, and an entry delivered twice, when a write has failed before a crash
  (`QueueOnce.FailedWriteReissuesAnId`, `QueueOnce.FailedWriteDeliversTwice`); while writes land, never
  (`QueueOnce.NothingTwice`, `QueueOnce.IdsAreNew`).
- The two markdown backends, meant to show the same row for row, drift on bare code blocks, on CRLF and
  unended bodies, on tables that open a row or are empty, on newlines inside a text, as the lines of an HTML
  block have them, and in the style of rules, images and table headers (`MarkdownLines.RowAgreement`,
  `MarkdownLines.StyledRowAgreement`, `FinishedRows.HtmlLinesShareARow`).
- Blanked source can no longer be sliced line by line beside the original once a line separator other than
  a newline stands in a comment or a literal (`BlankingLines.BlankedLinesPair`).
- Ticking a plan task counts blank checkboxes, which the parser skips (`PlanLaws.MarkCommutes`,
  `TaskLoop.PlanReadsAsDone`); it is not idempotent for a content with an empty mark in it, nor for a
  document with CRLF line ends, which it rewrites (`PlanInPlace.MarkIsIdempotent`).
- A label matched at its head need not beat a deeper match once the query has twelve letters
  (`FuzzyRank.LongQueriesPreferRuns`), and a contiguous run does not count if the scan has passed it
  (`FuzzyRuns.WholeRunIffAtFirst`).
- The event reader drops all space in front of a value, the standard one space
  (`SseFields.FrameReceived`).
- A policy with more than 32 retries ends in an overflow error that hides the real failure exactly when
  an attempt behind the 32nd, with retries left, fails without a server wait (`Retry.OverflowHidesFailure`).
- A history entry that looks like a separator, or is appended behind an unended line, is lost on reload
  (`HistoryLaws.PushAgreement`).

## Model

| member | source | states |
|---|---|---|
| `FollowUpQueue.Queue.New` | crates/cli/src/core.rs:177-189 | an empty queue of 32 places that persists nowhere |
| `FollowUpQueue.Queue.Restore` | crates/cli/src/core.rs:217-267 | the queue a file loads into: cleaned up and clamped, empty when the file is absent or corrupt |
| `FollowUpQueue.LoadQueue` | crates/cli/src/core.rs:217-267 | the queue and the outcome reported, a first start, a restored queue with its counts, or corruption; the file stays as it is |
| `FollowUpQueue.Queue.Persist` | crates/cli/src/core.rs:295-325 | one snapshot attempt; a failed write leaves the file as it was and is counted |
| `FollowUpQueue.Queue.SendEntry` | crates/cli/src/core.rs:360-384 | blank lane or text and a full queue are refused without writing; otherwise the next id goes to the back and is persisted |
| `FollowUpQueue.Queue.Push` | crates/cli/src/core.rs:330-332 | sending to the main lane as a user's follow-up, reporting acceptance |
| `FollowUpQueue.Queue.SetMergedMode` | crates/cli/src/core.rs:436-439 | the flag changes and is persisted, nothing else |
| `FollowUpQueue.Queue.TakeNext` | crates/cli/src/core.rs:447-449 | the head leaves memory and no write is tried, so the file still holds it |
| `FollowUpQueue.Queue.FinishEntry` | crates/cli/src/core.rs:452-455 | the entry is filed on top of the capped ledger in its terminal state, and persisted |
| `FollowUpQueue.Queue.RequeueFront` | crates/cli/src/core.rs:459-469 | the entry returns to the head, or is filed as failed when the queue is full |
| `FollowUpQueue.Queue.EditEntry` | crates/cli/src/core.rs:472-485 | the text of the first pending entry with the id, or nothing |
| `FollowUpQueue.Queue.WithdrawEntry` | crates/cli/src/core.rs:489-496 | the entry leaves the pending list and is filed as withdrawn; its text is returned |
| `FollowUpQueue.Queue.CancelLastEntry` | crates/cli/src/core.rs:540-543 | the newest pending entry is withdrawn |
| `FollowUpQueue.Queue.MoveEntry` | crates/cli/src/core.rs:499-518 | the entry changes places with its neighbour; at the ends nothing happens |
| `FollowUpQueue.Queue.ReassignLane` | crates/cli/src/core.rs:522-536 | the lane of one entry changes unless blank or the same |
| `FollowUpQueue.Queue.ClaimSteered` | crates/cli/src/core.rs:550-564 | the oldest pending steer with the text is filed as delivered; two writes |
| `FollowUpQueue.Queue.RecoverPendingSteers` | crates/cli/src/core.rs:571-583 | the loop over the entries turns every steer into a follow-up in place and returns the texts in order |
| `FollowUpQueue.Queue.DrainInjection` | crates/cli/src/core.rs:590-616 | the draining loop ends with exactly the steers, the follow-ups filed in order, the numbered text, and the intermediate snapshots written on the way |
| `FollowUpQueue.Queue.PopAll` | crates/cli/src/core.rs:603-614 | the loop itself: what is popped, put aside, filed and written |
| `FollowUpQueue.Queue.FileRecently` | crates/cli/src/core.rs:618-622 | the ledger takes one entry on top, at most 20, and is persisted |
| `FollowUpQueue.Queue.DeliverMerged` | crates/cli/src/main.rs:1168-1209 | one turn for the whole queue; when it errors the envelope finds room, behind the steers that stayed |
| `FollowUpQueue.Queue.DeliverHead` | crates/cli/src/main.rs:1214-1247 | one turn per entry; a turn that errors leaves the queue as it was, one that ran files the head as delivered or failed |
| `FollowUpQueue.Queue.Clear` | crates/cli/src/main.rs:1621-1630 | every pending entry is filed as withdrawn, in order, and counted |
| `FollowUpQueue.MergeInjection` | crates/cli/src/core.rs:629-635 | the loop writes the header and one numbered line per message |
| `FollowUpQueue.DrainLoopResult` | crates/cli/src/core.rs:603-614 | whatever the state, the draining loop computes the filtered lists and the snapshot list of the operation |
| `FollowUpQueue.RecoverLoopResult` | crates/cli/src/core.rs:571-583 | whatever the index, the recovery loop demotes the rest and collects its steers |
| `FollowUpQueue.KindsPartition` | crates/cli/src/core.rs:590-616 | steers and follow-ups are all there is, so an injection leaves room for its envelope |
| `QueueModel.FirstIndexIsFirst` | crates/cli/src/core.rs:472-536 | lookups by id or steer text find the first entry that fits |
| `QueueModel.SelectMembers` | crates/cli/src/core.rs:590-602 | filtering keeps exactly the entries of a kind |
| `QueueRuns.CallBalanced` | crates/cli/src/core.rs:360-623 | one call neither loses nor duplicates an id, wherever it moves between pending, taken and terminal, and issues at most the next one |
| `QueueRuns.CallKeepsShape` | crates/cli/src/core.rs:360-623 | one call keeps the limit, the pending states and the ledger as the newest 20 of the whole history |
| `QueueRuns.FiledIsNewest` | crates/cli/src/core.rs:603-622 | filing one by one leaves the newest part of what was filed, newest first |
| `QueueRuns.RunKeepsInv` | crates/cli/src/core.rs:911-1139 | the invariant the repository samples with one seed holds for every sequence of calls and every pattern of failing writes |
| `QueueRuns.Conservation` | crates/cli/src/core.rs:911-1139 | from a fresh start: each id issued is in exactly one place, no other id is anywhere, the cap holds, the ledger is the newest 20 |
| `QueueStates.CallFiles` | crates/cli/src/core.rs:452-623 | whatever a call files was pending or out for delivery, is filed as it was but for its state, and in a state that call may file: delivered by a claim, a drain or a finish so, withdrawn by a withdrawal, a cancel or a finish so, failed by a finish so or a requeue into a full queue |
| `QueueStates.HistoryIsEarned` | crates/cli/src/core.rs:452-623 | over every run, crashes and failing writes included, each entry of the history was filed so by some call of the run |
| `QueueCrash.LoadPersisted` | crates/cli/src/core.rs:217-325 | loading a persisted queue gives it back if and only if its limit is at most 4096, its entries pending and within the limit, its ledger within 20 and its counter ahead |
| `QueueCrash.LoadSanitizes` | crates/cli/src/core.rs:217-267 | any version-1 file loads into a queue within a clamped limit with pending entries only; its counter is above all ids if and only if the greatest surviving id is below the stored counter or belongs to the last pending or the newest ledger entry |
| `QueueCrash.LoadReports` | crates/cli/src/core.rs:217-267 | loading reports corruption exactly for unreadable files and other versions, and otherwise the entries waiting in the file and the ledger kept; all of those waiting come back if and only if they fit the clamped limit |
| `QueueCrash.StaleFileReissuesAnId` | crates/cli/src/core.rs:245-258 | pending ids 5 then 3 under a stale counter: the second message sent to the loaded queue is given id 5, while 5 is pending |
| `QueueFiles.WrittenFilesAreFresh` | crates/cli/src/core.rs:217-325 | whatever calls are made, writes fail and crashes happen, the file a queue leaves is fresh: the queue loaded from it issues an id above all it holds |
| `QueueFiles.CallIssues` | crates/cli/src/core.rs:360-623 | every snapshot a call writes, a drain's intermediate ones included, holds only ids below its counter |
| `QueueCrash.QuietCallsWriteNothing` | crates/cli/src/core.rs:360-616 | a call tries no write exactly under the guards the code has: blank lane or text, full queue, unknown id, end of the list, same lane, no such steer, no steers, no follow-ups; a take never does |
| `QueueCrash.LastDrainWrite` | crates/cli/src/core.rs:603-614 | the last snapshot of a drain holds only what stood behind the last follow-up |
| `QueueCrash.DrainKeepsSync` | crates/cli/src/core.rs:590-616 | after a drain the file is in step with memory if and only if nothing is out and no steer stood ahead of a follow-up |
| `QueueCrash.LoudKeepsSync` | crates/cli/src/core.rs:295-325 | any other writing call puts the file in step if and only if it leaves nothing out for delivery |
| `QueueCrash.CallKeepsSync` | crates/cli/src/core.rs:441-469 | with successful writes a call keeps the file in step if and only if it is safe |
| `QueueCrash.SafeRunKeeps` | crates/cli/src/core.rs:217-325 | over a safe run, crashes included, invariant and file stay in step |
| `QueueCrash.CrashSafety` | crates/cli/src/core.rs:217-325 | a crash between any two calls of a safe run brings back the entries out for delivery, then the pending ones, in order: every non-terminal id once; for crashes inside a call see `QueueTorn` |
| `QueueCrash.DrainBehindSteerExposesIt` | crates/cli/src/core.rs:605-614 | a follow-up drained from behind a steer leaves the steer out of the file; the next write puts it back |
| `QueueCrash.SendDuringDeliveryExposesTheEntry` | crates/cli/src/core.rs:441-449 | a message queued during delivery overwrites the only copy of the entry out for delivery |
| `QueueTorn.DrainWritesOneByOne` | crates/cli/src/core.rs:603-622 | a drain writes one snapshot for each follow-up: what stands behind it, and the follow-ups up to it in the ledger |
| `QueueTorn.DrainCutShort` | crates/cli/src/core.rs:590-622 | a crash inside any drain, steers standing anywhere, brings back exactly that snapshot |
| `QueueTorn.SafeCallCutShort` | crates/cli/src/core.rs:295-616 | a crash inside a safe call, behind any number of its snapshots, brings back what one before the call would, or one behind it, or in a drain the entries not popped yet with the popped ones in the ledger; nothing is lost or doubled |
| `QueueTorn.TornCrashSafety` | crates/cli/src/core.rs:217-325 | crash safety with crashes at any point, inside calls included: all along a safe history the file brings back every non-terminal id once, those out for delivery first, in order |
| `QueueTorn.CrashDuringMergedTurn` | crates/cli/src/main.rs:1163-1209 | a crash during the turn for the whole queue brings none of its follow-ups back: each is filed as delivered by then, so that nothing is lost holds for turns that fail, not for crashes |
| `QueueOnce.InStepExactlyWhenSafe` | crates/cli/src/core.rs:217-469 | while all writes land, the file is in step behind every step of a run if and only if the run is safe |
| `QueueOnce.NothingTwice` | crates/cli/src/core.rs:217-623 | while all writes land, whatever calls are made, safe or not, and wherever crashes cut them short: no id is in two places, in the memory or with the file in its place |
| `QueueOnce.IdsAreNew` | crates/cli/src/core.rs:360-384 | while all writes land, two accepted messages never get the same id, however many crashes lie between |
| `QueueOnce.FailedWriteReissuesAnId` | crates/cli/src/core.rs:295-325 | a send whose write fails, a crash and another send: both messages are given id 1 |
| `QueueOnce.FailedWriteDeliversTwice` | crates/cli/src/core.rs:441-455 | a finish whose write fails, and a crash: the entry is pending again, delivered as it was |
| `QueueLaws.CancelUndoesSend` | crates/cli/src/core.rs:360-543 | cancelling the message just sent gives back its text; memory is as before but for the id spent and the withdrawn entry on top of the ledger |
| `QueueLaws.MoveBackUndoesMove` | crates/cli/src/core.rs:499-518 | moving an entry and moving it back restores the memory |
| `QueueLaws.RequeueUndoesTake` | crates/cli/src/core.rs:447-469 | handing a taken entry back restores the memory if and only if the queue was within its limit |
| `QueueLaws.RequeueFilesWhenFull` | crates/cli/src/core.rs:459-469 | a requeue into a full queue files the entry as failed on top of the ledger and touches nothing else; otherwise the entry is next again |
| `QueueLaws.FinishFilesAsTold` | crates/cli/src/core.rs:452-455 | finishing touches the ledger only and files the entry in the state named |
| `QueueLaws.SendQueuesBehind` | crates/cli/src/core.rs:360-384 | a send is accepted exactly for a lane and a text that are not blank while there is room; the entry goes to the back with the next id, trimmed, pending, from its source and in its mode |
| `QueueLaws.CancelTakesNewest` | crates/cli/src/core.rs:540-543 | whatever the queue holds, a cancel takes the newest pending entry, files it as withdrawn and replies its text |
| `QueueLaws.MoveTradesPlaces` | crates/cli/src/core.rs:499-518 | a move trades places with the neighbour in its direction, touches nothing else, and is refused exactly where there is none |
| `QueueLaws.UnknownIdsFindNothing` | crates/cli/src/core.rs:472-536 | calls that name an id nobody has change nothing |
| `QueueLaws.SelectBehind` | crates/cli/src/core.rs:590-602 | filtering goes entry by entry, in order |
| `QueueLaws.RecoverDemotesSteers` | crates/cli/src/core.rs:571-583 | recovery turns every steer into a follow-up where it stands, with its text, lane and source, and replies the texts in order |
| `QueueLaws.DrainTouchesEntriesOnly` | crates/cli/src/core.rs:590-616 | a drain replies the follow-ups as one injection, files them, leaves the steers in order and touches nothing else |
| `QueueLaws.EditTouchesOneText` | crates/cli/src/core.rs:472-485 | an edit is accepted exactly for a pending id and a non-blank text and touches that text only |
| `QueueLaws.RelaneTouchesOneLane` | crates/cli/src/core.rs:522-536 | a lane change keeps order and every other field |
| `QueueLaws.WithdrawTakesOut` | crates/cli/src/core.rs:489-496 | any pending entry can be withdrawn; the others keep their order and the ledger gains it on top |
| `QueueLaws.ClaimTakesOldest` | crates/cli/src/core.rs:550-564 | a steer event claims the oldest pending steer with its text, or nothing |
| `QueueLaws.RecoveredSteersAreDelivered` | crates/cli/src/core.rs:571-616 | after recovery a drain empties the queue in arrival order; recovering again finds nothing |
| `QueueLaws.InjectionLines` | crates/cli/src/core.rs:629-635 | read back by lines an injection is its header and the lines of the messages, the first of each numbered from 1; one line per message if and only if no message has a line break |
| `Calendar.DatesAreValid` | crates/cli/src/main.rs:134-151 | every day number, negative ones included, converts to a date of the Gregorian calendar |
| `Calendar.DayZeroIsTheEpoch` | crates/cli/src/main.rs:134-151 | day 0 is 1 January 1970 |
| `Calendar.DaysAdvance` | crates/cli/src/main.rs:134-151 | the next day number is the next day by month lengths and the leap rule |
| `Calendar.DayNumberInverts` | crates/cli/src/main.rs:134-151 | the conversion is a bijection, with a count of days by eras, years and months as its inverse |
| `Calendar.DateOfSeconds` | crates/cli/src/main.rs:125-133 | the date shown is the day the second falls on, before the epoch too |
| `Calendar.IsoRoundTrip` | crates/cli/src/main.rs:125-133 | a four-digit year is printed as ten characters that read back as the date |
| `Calendar.IsoSpells` | crates/cli/src/main.rs:125-133 | any date is printed as sign, year, month and day: two digits for month and day, four for a year or three behind a minus, more only where the year has more |
| `WordMotion.NextCharIdx` | crates/cli/src/editor.rs:1653-1734 | the forward scan stops at the next subword boundary, ahead of where it started |
| `WordMotion.PrevCharIdx` | crates/cli/src/editor.rs:1543-1626 | the backward scan stops at the previous one |
| `WordMotion.WordBreakNext` | crates/cli/src/editor.rs:1630-1651 | from any byte column: a character boundary to the right, at most the length |
| `WordMotion.WordBreakPrev` | crates/cli/src/editor.rs:1523-1541 | from any byte column: a character boundary to the left |
| `WordMotion.CharAtIsFirst` | crates/cli/src/editor.rs:1523-1541 | the search over byte offsets finds the first character at or behind the column |
| `WordShapes.NextCrossesOneWord` | crates/cli/src/editor.rs:1653-1734 | by classes alone: a jump to the right crosses blank space and exactly one subword, and its stop is the only place where that is so; short of the end it stands behind content |
| `WordShapes.PrevCrossesOneWord` | crates/cli/src/editor.rs:1543-1626 | the same to the left, where a hump may cut into an acronym but an acronym never stops for a hump |
| `WordShapes.LettersAndDigits` | crates/cli/src/editor.rs:1479-1497 | letters and digits are those of ASCII |
| `WordShapes.Ideographs` | crates/cli/src/editor.rs:1499-1509 | ideographs are the unified block, its first extension and the compatibility block |
| `WordShapes.OffsetCountsBytes` | crates/cli/src/editor.rs:1523-1541 | the offset of a character is the number of UTF-8 bytes in front of it |
| `WordShapes.HumpJumps` | crates/cli/src/editor.rs:1515-1521 | camelCase stops behind the word and behind the hump, as documented |
| `WordShapes.AcronymJumps` | crates/cli/src/editor.rs:1515-1521 | HTTPRequest stops behind the acronym and behind the hump, as documented |
| `WordShapes.JointJumps` | crates/cli/src/editor.rs:1515-1521 | underscores and hyphens are subwords of their own |
| `WordShapes.DigitJumps` | crates/cli/src/editor.rs:1515-1521 | foo123bar stops behind each part, as documented |
| `WordShapes.SpaceJumps` | crates/cli/src/editor.rs:1660-1672 | from between two words a jump goes to the end of the second |
| `WordMirror.MotionMirrors` | crates/cli/src/editor.rs:1523-1734 | forward stops are the backward stops reversed, equivalently every jump is taken back, if and only if the line is all whitespace or has none and each run of ideographs is single or of even length |
| `WordMirror.WhitespaceIsCrossedOnce` | crates/cli/src/editor.rs:1543-1734 | at the first whitespace of any other line a jump forward is not taken back |
| `WordMirror.OddRunIsLeftTwoBack` | crates/cli/src/editor.rs:1543-1734 | nor at the last ideograph of an odd run of three or more |
| `History.EncodeHistoryLine` | crates/cli/src/editor.rs:561-571 | the loop over the characters writes the escaped line |
| `History.DecodeHistoryLine` | crates/cli/src/editor.rs:591-609 | the loop with its look-ahead reads it |
| `History.DecodeHistory` | crates/cli/src/editor.rs:576-589 | the loop over the lines skips separators and keeps the newest entries |
| `History.PromptHistory.Load` | crates/cli/src/editor.rs:461-467 | the list the file decodes to, the cursor behind it |
| `History.PromptHistory.Prev` | crates/cli/src/editor.rs:471-479 | one older entry, stopping at the oldest |
| `History.PromptHistory.Next` | crates/cli/src/editor.rs:483-489 | one newer entry, none behind the newest |
| `History.PromptHistory.Push` | crates/cli/src/editor.rs:535-555 | blank and repeated submissions are dropped; others are appended to file and list, the list capped |
| `HistoryLaws.CodecRoundTrip` | crates/cli/src/editor.rs:557-610 | decoding an encoded entry gives it back and the encoding is one line |
| `HistoryLaws.EncodeIsInjective` | crates/cli/src/editor.rs:557-571 | no two texts are written as the same line |
| `HistoryLaws.GluedIsLost` | crates/cli/src/editor.rs:591-616 | whatever stands on the line already, an entry appended to it is not read back |
| `HistoryLaws.AppendReads` | crates/cli/src/editor.rs:576-620 | a line appended to an ended file is read as one more entry, unless it looks like a separator |
| `HistoryLaws.PushAgreement` | crates/cli/src/editor.rs:535-555 | a submission keeps list and file in agreement if and only if it is dropped, or written on a fresh line and not `*`, `+` or starting with `#` |
| `HistoryLaws.HistoryAgreement` | crates/cli/src/editor.rs:440-620 | for every file and every run of submissions and cursor moves, list and file agree all along if and only if every submission is so |
| `HistoryLaws.RunKeepsCursor` | crates/cli/src/editor.rs:461-555 | the cursor stays within the list and the list within 500; an ended file stays ended |
| `HistoryLaws.SubmissionIsKept` | crates/cli/src/editor.rs:535-555 | a submission is dropped exactly if only blank space is left of it or it repeats the newest entry; otherwise it is the newest of at most 500 entries and a line of its own in the file |
| `HistoryLaws.LineIsRead` | crates/cli/src/editor.rs:576-589 | a line of the file is an entry unless, carriage returns at its end aside, it is blank, `*`, `+` or starts with `#` |
| `HistoryLaws.EncodeSpells` | crates/cli/src/editor.rs:561-571 | only newlines and backslashes are spelled differently in a line |
| `HistoryLaws.OtherEscapesStay` | crates/cli/src/editor.rs:591-609 | a backslash in front of any other character, or at the end, is read as it stands |
| `Fuzzy.FuzzyScore` | crates/cli/src/editor.rs:372-404 | the scan with its bookkeeping computes the score of the greedy positions |
| `Fuzzy.GreedyIsComplete` | crates/cli/src/editor.rs:382-387 | if the query stands in the label in any way the greedy scan finds it, at positions nowhere further right |
| `Fuzzy.MatchesSubsequences` | crates/cli/src/editor.rs:366-404 | a label matches if and only if the query is a subsequence of it, case ignored |
| `Fuzzy.RunIsAPiece` | crates/cli/src/editor.rs:388-395 | a run counted for the score is a piece of the query standing in the label as a whole |
| `FuzzyScores.LongestRunIsLongest` | crates/cli/src/editor.rs:388-395 | the bookkeeping of the scan finds the longest run of neighbouring positions |
| `FuzzyScores.ScoreOfPlaces` | crates/cli/src/editor.rs:366-404 | the score is a hundred, ten for each letter of the longest run at the leftmost places, and a hundred more at the head or one less for each letter in front |
| `FuzzyScores.ScoresCompare` | crates/cli/src/editor.rs:366-404 | from the same first place the longer run wins, and of equal runs the one that starts earlier |
| `FuzzyRank.ShortQueriesPreferHeads` | crates/cli/src/editor.rs:366-404 | up to eleven letters, a match at the head of a label beats every deeper one, as documented |
| `FuzzyRank.LongQueriesPreferRuns` | crates/cli/src/editor.rs:366-404 | from twelve letters on it does not: for every such query two labels show it |
| `FuzzyRuns.WholeRunIffAtFirst` | crates/cli/src/editor.rs:366-404 | the scan earns the longest run possible, the whole query, if and only if the query stands at the first place of its first letter |
| `FuzzyRuns.GreedyMissesARun` | crates/cli/src/editor.rs:366-404 | a label with the query standing together further right, for which only scattered letters count |
| `FuzzyRank.RankedMatches` | crates/cli/src/editor.rs:338-361 | filter, score, sort and strip |
| `FuzzyRank.RankedIsRanking` | crates/cli/src/editor.rs:334-361 | the ranking holds exactly the matching pool entries, best first, ties in pool order, the current value tagged |
| `FuzzyRank.RankingIsUnique` | crates/cli/src/editor.rs:334-361 | there is only one such ranking, whatever algorithm sorts |
| `Sse.Parser.Push` | crates/api/src/sse.rs:30-39 | the loop returns every complete frame of buffer and chunk and keeps the rest |
| `Sse.Parser.Finish` | crates/api/src/sse.rs:47-54 | the rest is one last frame |
| `Sse.Parser.NextFrame` | crates/api/src/sse.rs:56-76 | the first blank line of line feeds anywhere goes before every one of CRLFs |
| `Sse.SplitIsLossless` | crates/api/src/sse.rs:30-76 | frames, separators and leftover are the input byte for byte |
| `Sse.FeedIsLossless` | crates/api/src/sse.rs:30-76 | the same for every way of cutting the stream into chunks |
| `SseFrames.SeparatorMeans` | crates/api/src/sse.rs:56-76 | the separators are two line feeds, and twice a carriage return and a line feed |
| `SseFrames.FrameUpToLineFeeds` | crates/api/src/sse.rs:30-76 | everything up to the first two line feeds is a frame, whatever stands in it, and splitting goes on behind them |
| `SseFrames.FrameUpToCrlfs` | crates/api/src/sse.rs:30-76 | where nowhere two line feeds follow each other, everything up to the first pair of CRLFs is one |
| `SseFrames.LeftoverIsClean` | crates/api/src/sse.rs:30-76 | no separator is left over |
| `Sse.MixedStreamDiffers` | crates/api/src/sse.rs:56-76 | a stream with a blank line of line feeds behind one of CRLFs is split differently in two chunks |
| `Sse.ChunksDoNotMatter` | crates/api/src/sse.rs:30-76 | the result is independent of chunking if and only if no such pair occurs, in particular with only one separator |
| `SseFields.ParseFrame` | crates/api/src/sse.rs:81-110 | the loop over the lines collects the last event name and the data lines |
| `SseFields.FrameReceived` | crates/api/src/sse.rs:81-110 | what any frame is read as, its names, data, comments and other fields in any number and order: the last name trimmed, and the data values, all space in front of each dropped, where the standard drops one space |
| `SseFields.FrameRoundTrip` | crates/api/src/sse.rs:81-110 | a frame is read back, its last name and its data joined by newlines, if and only if that name starts and ends in text, every data value starts in text, none ends in a carriage return, and one on the last line ends in text |
| `KeyNames.ParseBinding` | crates/cli/src/keymap.rs:523-547 | the loop over the segments parses a chord |
| `KeyNames.FormatBinding` | crates/cli/src/keymap.rs:591-606 | the text is built modifier by modifier, then the key |
| `KeyRoundTrip.KeyNameRoundTrip` | crates/cli/src/keymap.rs:552-631 | every parsable key code is parsed from its name |
| `KeyRoundTrip.FormatRoundTrip` | crates/cli/src/keymap.rs:523-631 | a binding survives printing and parsing if and only if some key string denotes it |
| `KeyChords.FormatSpells` | crates/cli/src/keymap.rs:591-606 | a printed chord names its modifiers in one order, each with its plus sign, and then its key |
| `KeyRoundTrip.FormatNormalizes` | crates/cli/src/keymap.rs:523-631 | printing is a normal form for every alias, case, spacing and modifier order |
| `KeyChords.ChordMeans` | crates/cli/src/keymap.rs:523-547 | segments are a chord exactly if one is a key and all others are modifiers, in any order; it denotes that key with exactly the modifiers named |
| `KeyChords.KeyNamesMean` | crates/cli/src/keymap.rs:552-588 | every name of a key, aliases included |
| `KeyChords.FunctionKeysMean` | crates/cli/src/keymap.rs:552-563 | a name is function key `n` exactly if it is an `f` in either case and a number from 1 to 24, leading zeros and a plus sign allowed |
| `KeyChords.OtherNamesAreNoKeys` | crates/cli/src/keymap.rs:552-588 | nothing but the table, function keys and single characters denotes a key |
| `KeyChords.OtherNamesAreNoModifiers` | crates/cli/src/keymap.rs:523-545 | nothing but the eleven names denotes a modifier |
| `KeyChords.ModifierNamesMean` | crates/cli/src/keymap.rs:535-544 | every name of a modifier |
| `KeyChords.CaseIsIgnored` | crates/cli/src/keymap.rs:552-554 | letter case is ignored in key names |
| `KeyChords.SamePress` | crates/cli/src/keymap.rs:163-210 | two presses are stored alike exactly if they are of the same key, letter case aside, with the same control, alt and super |
| `KeyChords.NewestWins` | crates/cli/src/keymap.rs:297-306 | the action of a press is that of the newest binding stored alike, or none |
| `Keymap.Resolve` | crates/cli/src/keymap.rs:188-305 | the search from the newest binding finds the action of an event |
| `Keymap.Held.RebindAction` | crates/cli/src/keymap.rs:384-404 | the action drops its keys and takes the given ones, from whoever holds them |
| `Keymap.Held.ApplyLayer` | crates/cli/src/keymap.rs:424-450 | one file: unknown actions and unreadable keys are skipped, the rest rebinds in order |
| `KeymapLaws.RebindIsUpdate` | crates/cli/src/keymap.rs:384-404 | rebinding refines a map update and never holds a key twice |
| `KeymapLaws.LayerIsUpdates` | crates/cli/src/keymap.rs:446-450 | loading a layer is a fold of map updates |
| `KeyChords.KeysAreReadInTurn` | crates/cli/src/keymap.rs:507-517 | key strings are read one by one; what follows an unreadable one is still read |
| `KeyChords.OneKeyIsRead` | crates/cli/src/keymap.rs:507-517 | a key string that denotes nothing is skipped |
| `KeyChords.NamesAreExact` | crates/cli/src/keymap.rs:140-160 | a name is that of one action at most, any other names none |
| `KeyChords.LinesActInTurn` | crates/cli/src/keymap.rs:424-450 | the lines of a file act one behind the other; one that names no action does nothing |
| `KeyChords.ProjectWins` | crates/cli/src/keymap.rs:367-412 | an action the project's file names is reached by exactly the keys of its last line there that no later line gives away, whatever the defaults and the user's file say |
| `KeyChords.UserIsKept` | crates/cli/src/keymap.rs:367-412 | an action the project's file leaves alone keeps what the user's file gave it, but for keys given away |
| `KeyChords.ShippedKeymapReads` | crates/cli/src/keymap.rs:223-292 | exported, the shipped keymap has for every action its name and its one documented key |
| `KeymapLaws.ReloadRestores` | crates/cli/src/keymap.rs:336-404 | export and reload in any action order gives every action its key sequence and every press its action |
| `KeymapLaws.LoadedSurvivesExport` | crates/cli/src/keymap.rs:349-378 | whatever the user's and the project's files hold, the loaded keymap does |
| `KeymapLaws.NameRoundTrip` | crates/cli/src/keymap.rs:106-160 | action names are read back as their actions |
| `KeymapLaws.DefaultIsFine` | crates/cli/src/keymap.rs:223-292 | the shipped bindings hold no key twice and can all be written |
| `Blanking.BlankCommentsAndStrings` | scripts/check_panic_budget.py:146-231 | the index loop over text, output list and comment depth writes what the scanner's token rules say |
| `Blanking.WipeQuoted` | scripts/check_panic_budget.py:201-227 | the loop over a literal ends where the rule for closing quotes says, escapes and the end of the text included |
| `Blanking.WipeLine` | scripts/check_panic_budget.py:180-184 | the loop over a line comment ends at its newline |
| `BlankingLaws.BlankMasks` | scripts/check_panic_budget.py:146-231 | length and newlines stay, and every character is kept or turned into a space |
| `BlankingLaws.BlankIsIdempotent` | scripts/check_panic_budget.py:146-231 | blanking twice is blanking once, for every text, unterminated literals and nested comments included |
| `BlankingLaws.CommentsAreGone` | scripts/check_panic_budget.py:165-189 | no slash of the result is followed by a slash or a star |
| `BlankingLaws.CodeIsKept` | scripts/check_panic_budget.py:146-231 | text without quotes and comment openings is left as it is |
| `BlankingLaws.LifetimeAgain` | scripts/check_panic_budget.py:213-217 | a lifetime stays a lifetime of the same length in front of blanked text |
| `BlankingLaws.RawOpenUnmasked` | scripts/check_panic_budget.py:190-200 | blanking never makes up the opening of a raw string |
| `BlankingLexemes.CommentIsWiped` | scripts/check_panic_budget.py:165-189 | a block comment, nested to any depth, is wiped to its own end and no further |
| `BlankingLexemes.CommentCases` | scripts/check_panic_budget.py:165-189 | every text behind a comment opening is a well-formed inside with its closer, or is wiped to the end: slashes and stars may stand anywhere |
| `BlankingLexemes.StringIsWiped` | scripts/check_panic_budget.py:201-211 | a string literal, with any escapes, is wiped between its quotes, and scanning goes on behind them |
| `BlankingLexemes.StringCases` | scripts/check_panic_budget.py:201-211 | every text behind a double quote is such a literal, or is wiped to the end |
| `BlankingLexemes.CharIsWiped` | scripts/check_panic_budget.py:212-230 | a character literal, a single character or any escape, is wiped between its quotes |
| `BlankingLexemes.LifetimeOrLiteral` | scripts/check_panic_budget.py:212-217 | a single quote opens a lifetime rather than a literal exactly if two or more characters, the first one that may start an identifier, stand in front of the closing quote |
| `BlankingLexemes.RawStringIsWiped` | scripts/check_panic_budget.py:190-200 | a raw string with up to 255 hashes is wiped to its closer, whatever quotes and hashes it holds |
| `BlankingLexemes.RawCases` | scripts/check_panic_budget.py:190-200 | every text behind a raw opening is such a body with its closer, or is wiped to the end |
| `BlankingTokens.RawOpenMeans` | scripts/check_panic_budget.py:190-192 | a raw string opens exactly at `r` or `br`, at most 255 hashes and a double quote |
| `BlankingTokens.ClosesRawMeans` | scripts/check_panic_budget.py:193-196 | and closes at a quote with as many hashes |
| `BlankingTokens.CodeCharacterIsKept` | scripts/check_panic_budget.py:165-231 | any character that opens no comment, literal or raw string is kept, and scanning goes on behind it |
| `BlankingTokens.ByteStringIsWiped` | scripts/check_panic_budget.py:190-211 | a byte string keeps its letter and quotes and is wiped between them like any string |
| `BlankingTokens.ByteIsWiped` | scripts/check_panic_budget.py:190-230 | a byte literal likewise |
| `BlankingTokens.LineCommentIsWiped` | scripts/check_panic_budget.py:180-184 | a line comment is wiped up to its newline and no further |
| `BlankingTokens.LifetimeIsKept` | scripts/check_panic_budget.py:212-217 | a quote and a word are kept as a lifetime, but for the last letter of a word that a quote ends; a single letter between quotes is a literal |
| `BlankingTokens.CharCases` | scripts/check_panic_budget.py:218-230 | every text behind a quote that opens no lifetime is a literal, or is wiped to the end |
| `BlankingLines.BlankedLinesPair` | scripts/check_panic_budget.py:155-244 | the lines of the blanked text pair up with those of the original, each with characters blanked, if and only if no line separator is blanked, the last character aside; otherwise there are fewer |
| `BlankingLines.NewlinesPair` | scripts/check_panic_budget.py:155-244 | in a text whose lines end in newlines only, alone or behind a carriage return, they always do |
| `BlankingLines.FormFeedShiftsLines` | scripts/check_panic_budget.py:155-248 | a form feed in a comment leaves fewer lines to pair with |
| `MarkdownProject.ProjectAnsi` | crates/cli/src/markdown.rs:337-417 | the pass over the nodes with its depth counters appends what each node writes |
| `MarkdownProject.RowProjector.Emit` | crates/cli/src/markdown.rs:545-607 | one node changes rows, row under construction and counters |
| `MarkdownProject.RowProjector.EmitCode` | crates/cli/src/markdown.rs:609-631 | a code block is laid out line by line between its marks |
| `MarkdownProject.RowProjector.EmitTable` | crates/cli/src/markdown.rs:633-639 | a table is laid out from a fresh row |
| `MarkdownProject.RowProjector.Finish` | crates/cli/src/markdown.rs:643-655 | the loop drops exactly the blank rows at the end |
| `MarkdownProject.ProjectRows` | crates/cli/src/markdown.rs:462-468 | the rows of a whole document |
| `MarkdownMarks.NodeReads` | crates/cli/src/markdown.rs:337-417 | what each node but a table adds to the stream, escapes stripped: hashes by level, bars, bullets, brackets, code frames, texts |
| `MarkdownMarks.NodeLooks` | crates/cli/src/markdown.rs:337-417 | and in which style |
| `MarkdownMarks.RunStyle` | crates/cli/src/markdown.rs:425-446 | a link around a run decides its style, then strong, then emphasis, then a quote anywhere before |
| `MarkdownMarks.NodeEscapes` | crates/cli/src/markdown.rs:380-389 | a link opens with its target and closes with none behind a reset; no other node writes escapes of its own, whole tables included |
| `MarkdownMarks.ListDepth` | crates/cli/src/markdown.rs:337-417 | the list depth is the number of lists open, which indents items by two spaces for all but one |
| `MarkdownMarks.IndentIsSpaces` | crates/cli/src/markdown.rs:365-368 | items are indented by two spaces for every list around the innermost |
| `MarkdownMarks.HeadingHashes` | crates/cli/src/markdown.rs:344-351 | a heading starts with as many hashes as its level, four from level four on |
| `MarkdownTable.ColumnWidths` | crates/cli/src/markdown.rs:670-677 | the width table filled cell by cell is the widest cell of each column |
| `MarkdownTable.TableRuleAnsi` | crates/cli/src/markdown.rs:808-819 | the loop over the widths draws a rule in pieces |
| `MarkdownTable.TableRuleTui` | crates/cli/src/markdown.rs:713-729 | the loop over the widths draws a rule in one |
| `MarkdownTable.TableRow` | crates/cli/src/markdown.rs:733-749 | the loop over the widths pads every cell, missing ones included |
| `MarkdownTable.RenderTable` | crates/cli/src/markdown.rs:661-804 | rules and rows in order; nothing for a table without rows or columns |
| `TableGeometry.RowAligned` | crates/cli/src/markdown.rs:733-845 | in every row a column starts at the same display offset |
| `TableGeometry.RuleTextAligned` | crates/cli/src/markdown.rs:713-819 | a rule has its tee where the rows have their bar |
| `TableGeometry.GridIsRectangular` | crates/cli/src/markdown.rs:661-845 | every line of a grid has the same display width |
| `TableGeometry.WidestIsReached` | crates/cli/src/markdown.rs:670-677 | a column is no wider than some cell of it |
| `TableGeometry.ColumnsAreReached` | crates/cli/src/markdown.rs:662-669 | a table has exactly as many columns as its longest row has cells |
| `TablePlaces.CellStandsInRow` | crates/cli/src/markdown.rs:733-845 | cell k of a row starts one column behind its bar, at the offset of its column, in the style of its row, and spaces fill the column up to the next bar |
| `TablePlaces.CellStandsInGrid` | crates/cli/src/markdown.rs:661-845 | every cell of a drawn table, missing ones as empty, stands so in the line of its row |
| `TablePlaces.GridLines` | crates/cli/src/markdown.rs:661-804 | the lines of a drawn table: top rule, header, a rule if more rows follow, these in order, bottom rule |
| `TablePlaces.RuleLineIsRuled` | crates/cli/src/markdown.rs:713-819 | a rule is its ends with an edge as wide as each column, joined where columns meet |
| `CodeBodies.LinesRestored` | crates/cli/src/markdown.rs:621-626 | without CRLF, reading a body by lines only adds a missing last line end |
| `CodeBodies.ReturnsOfLines` | crates/cli/src/markdown.rs:621-626 | with a CRLF it loses a carriage return |
| `GridTexts.GridsShowTheSame` | crates/cli/src/markdown.rs:661-845 | the two table renderers draw the same characters |
| `GridTexts.GridsDifferInStyle` | crates/cli/src/markdown.rs:733-845 | they never style a drawn header alike: only one pads it in the header style |
| `MarkdownAgreement.NodeStep` | crates/cli/src/markdown.rs:337-639 | the characters a node adds to the two outputs, row ends counted as newlines, are the same, and the same in style, exactly under the stated conditions |
| `MarkdownAgreement.TextAgreement` | crates/cli/src/markdown.rs:337-639 | flattened to characters, a newline inside a span counted like the end of a row, the outputs are the same all along a document if and only if each code block and table in it meets its condition where it stands |
| `MarkdownAgreement.StyleAgreement` | crates/cli/src/markdown.rs:337-639 | the same for flattened characters with their style, rules, images and tables then excluded |
| `MarkdownLines.RowAgreement` | crates/cli/src/markdown.rs:337-655 | row by row: the stream, cut at each newline, is the rows laid out and the one under construction, all along a document, if and only if each node meets its condition where it stands and has no newline in a text run, inline code, HTML, an image address, a code label or a table cell |
| `MarkdownLines.StyledRowAgreement` | crates/cli/src/markdown.rs:337-655 | the same with every character in the same style, rules, images and tables then excluded |
| `NewlineFree.EmitFree` | crates/cli/src/markdown.rs:545-639 | a node puts a newline into a row exactly if one stands in such a text; code bodies never do |
| `LineCuts.CutDetermines` | crates/cli/src/markdown.rs:496-499 | the pieces between the line ends determine what was cut, so agreement row by row is no weaker than character by character |
| `MarkdownRows.RowsFromTexts` | crates/cli/src/markdown.rs:447-499 | a stream has the rows of a page as its lines if and only if it has the same characters, flattened, and no row holds a newline |
| `MarkdownFinish.DropKeepsText` | crates/cli/src/markdown.rs:643-655 | dropping blank rows changes nothing but trailing whitespace |
| `MarkdownFinish.ProseReadsTheSame` | crates/cli/src/markdown.rs:337-655 | documents without tables and bare code blocks, their labelled bodies free of CRLF and ending their last line, hold the same characters, flattened, finished or not |
| `MarkdownFinish.BareBlockReadsDifferently` | crates/cli/src/markdown.rs:399-412 | a bare code block whose body ends its last line, with something visible behind it, shows one empty line more in the stream, finished outputs included |
| `FinishedRows.FinishedAgreement` | crates/cli/src/markdown.rs:643-655 | where the flattened characters agree, the finished rows are the lines of the stream without the blank ones at its end if and only if no finished row holds a newline; the trimmed stream is then the rows with the last one trimmed |
| `FinishedRows.TrimmedLines` | crates/cli/src/markdown.rs:643-655 | trimming a text at its end is dropping its blank last lines and trimming the last one left |
| `FinishedRows.ProseRows` | crates/cli/src/markdown.rs:337-655 | such prose is shown row by row alike all along if and only if none of its nodes has a newline in such a text; its finished rows then are the lines of the stream |
| `FinishedRows.HtmlLinesShareARow` | crates/cli/src/markdown.rs:269-598 | two lines of an HTML block, handed over one by one with their line ends: two lines in the stream, one row with a newline in it in the other output |
| `PlanDocument.ParsePlanTasks` | crates/cli/src/plan.rs:56-83 | the loop over the lines collects the checkboxes with content |
| `PlanDocument.MarkPlanTaskDone` | crates/cli/src/plan.rs:208-237 | the loop with its counter rewrites one line and restores the final newline |
| `PlanLaws.TickedLineReads` | crates/cli/src/plan.rs:208-230 | a rewritten line reads as the same box ticked; in a box already ticked the content is rewritten instead |
| `PlanLaws.MarkedReads` | crates/cli/src/plan.rs:208-237 | the written document holds the boxes before with one of them ticked, CRLF endings or not |
| `PlanLaws.MarkCommutes` | crates/cli/src/plan.rs:56-237 | ticking task i and reading again completes exactly task i if and only if no checkbox up to there is blank |
| `PlanLaws.MarkAgain` | crates/cli/src/plan.rs:206-237 | ticking a ticked box changes no checkbox of the document if and only if its content has no empty mark |
| `PlanInPlace.MarkIsIdempotent` | crates/cli/src/plan.rs:206-237 | ticking a ticked box leaves the document as it is if and only if it has no CRLF and the content has no empty mark |
| `PlanInPlace.MarkInPlace` | crates/cli/src/plan.rs:206-237 | ticking a pending box changes exactly one character of the document if and only if it has no CRLF |
| `PlanLaws.PlanRoundTrip` | crates/cli/src/plan.rs:38-83 | tasks written down in the form planning asks for are read back as they are |
| `TaskLoop.TaskRun.RunOneTask` | crates/cli/src/plan.rs:284-346 | the attempt loop inside the escalation loop |
| `TaskLoop.TaskRun.RunTaskLoop` | crates/cli/src/plan.rs:249-280 | every pending task in order until one aborts |
| `TaskLoop.LadderCounts` | crates/cli/src/plan.rs:293-345 | the operator is asked exactly once per three failed attempts |
| `TaskLoop.LadderCycles` | crates/cli/src/plan.rs:159-165 | the advice goes round: none, retry, change strategy, also after a reworded task |
| `TaskLoop.LadderEffect` | crates/cli/src/plan.rs:315-345 | a task ticks its own checkbox at most once, only when finished, and leaves at most one line of memory |
| `TaskVerdicts.LadderVerdict` | crates/cli/src/plan.rs:284-346 | a task is finished exactly when the last turn ended well, without tool errors and with nothing pending, and at the first such turn; it is ticked then if the file can be written and noted as last worded; skips and aborts are what the operator said last; each turn starts from the task as worded by then, with the advice of its try and the conclusions from before the task |
| `TaskVerdicts.LoopCounts` | crates/cli/src/plan.rs:249-346 | over the whole loop, finished notes and ticks answer one to one to the good turns consumed |
| `TaskVerdicts.LoopStartsAll` | crates/cli/src/plan.rs:249-280 | turns are for pending tasks only, in order, and a loop that completes has started every pending task as the plan words it, unless a todo list could not be seeded |
| `TaskLoop.PlanReadsAsDone` | crates/cli/src/plan.rs:249-346 | whatever turns and operator answer, the ticked tasks were pending and are ticked once, in order; and the document reads as the tasks with exactly those completed if and only if no tick lies at or behind the first blank checkbox |
| `TaskLoop.FilledPlanReadsAsDone` | crates/cli/src/plan.rs:249-346 | a plan without blank checkboxes reads as the tasks with exactly the ticked ones completed, whatever turns and operator answer |
| `Retry.BackoffIsCappedDoubling` | crates/api/src/retry.rs:104-116 | the overflow-safe delay is min(initial * 2^(a-1), max) for attempts up to 32, and refused beyond |
| `Retry.BackoffNeverShrinks` | crates/api/src/retry.rs:104-116 | delays never shrink and never exceed the cap |
| `RetryLaws.ScheduleDoubles` | crates/api/src/retry.rs:104-116 | delays start at the initial backoff and double behind every attempt, up to the cap |
| `Retry.Run` | crates/api/src/retry.rs:118-170 | the loop is a run: it goes on exactly while the failures allow it, and sleeps as the server or the schedule says |
| `Retry.RunIsDetermined` | crates/api/src/retry.rs:118-170 | a trace of outcomes has one run |
| `Retry.RunIsBounded` | crates/api/src/retry.rs:118-170 | at most one send above the retries, no sleep beyond a minute or the cap, and giving up names the true number of sends and a retryable failure |
| `RetryLaws.RootDecides` | crates/api/src/retry.rs:118-170 | an exhausted run counts as the failure behind it |
| `RetryLaws.TriedAgain` | crates/api/src/retry.rs:118-170 | a failure is tried again exactly if it may pass, retries are left, and the server named a wait of a minute at most, or none and at most 32 attempts were made |
| `RetryLaws.SleepsAsTold` | crates/api/src/retry.rs:150-163 | each sleep is the wait the server named, or the schedule's where it named none |
| `RetryLaws.RunsEndIn` | crates/api/src/retry.rs:118-170 | a run ends in success, in a failure that cannot pass as it came, in that failure as exhausted, or in the overflow error, each exactly when it should |
| `Retry.OverflowHidesFailure` | crates/api/src/retry.rs:104-170 | a run whose last failure is worth retrying ends in the overflow error instead if and only if more than 32 attempts were made, retries are left and the server named no wait |
| `Retry.FewRetriesNeverOverflow` | crates/api/src/retry.rs:104-170 | with at most 32 retries no run does |
| `Retry.TransientRun` | crates/api/src/retry.rs:104-170 | against lasting failures without a server wait the retries are exhausted if and only if they are at most 32; with more the run ends in the overflow error behind attempt 33 |

## Left out

- Queue ids and failure counts are unbounded here; the 64-bit counters would have to run for ages to differ.
- The queue's JSON encoding, its lock and the temporary file behind a write: a write is one atomic step that happens or fails. A file that does not parse is one value of the disk.
- Turns, prompts, sleeping and concurrency: their outcomes are inputs, so the order in which an asynchronous steer event arrives is any order of calls.
- Sse.Parser.Push: lossy UTF-8 decoding and field extraction are a function the parser is given, since frame boundaries are found on bytes; the error type of the parser is never produced by this code.
- SseFields.FrameRoundTrip: is about fields without a newline, which is what fits on a line of a frame; a line that is neither name nor data starts in text.
- BlankingLines.BlankedLinesPair: `str.splitlines` of Python is modelled by its list of separators; reading a file as text turns carriage returns into newlines before.
- The TOML text around exported key lists: keys `"` and `\` are written unescaped, so such a table does not read back as text; the reload laws start from the lists a reader would deliver for readable text.
- WordMotion.WordBreakNext and WordMotion.WordBreakPrev use the character classes of the source for ASCII and ideographs; letters beyond ASCII follow the same branch as in the source and no Unicode tables are modelled.
- `char::to_lowercase` and the width of a string are taken character by character; the width of emoji sequences is not the sum of their parts.
- TableGeometry.GridIsRectangular: asks that the box-drawing glyphs and the space are one column wide, which the terminal decides.
- Escape sequences are pieces that show nothing; which codes a theme emits is not modelled, and an escape inside a text counts as characters of that text.
- The markdown parser: every node list is an input, also those no parser emits.
- PlanLaws.MarkCommutes: is about a task that is pending, as the loop only ticks those.
- TaskLoop.PlanReadsAsDone: assumes that only the loop rewrites the document while it runs; a turn could edit it too.
- Retry.Run: assumes `max_retries + 1` fits 32 bits, as the addition in the source does.
- Parsing of the Retry-After header, retryable status codes, proxies and timeouts: tables and plumbing.
- Selecting production lines in the panic budget: it only reads the paired lines.
- The in-prompt prefix search over the history, completion sites and menus: short pure lookups.
- The heart model around the queue, guides and log lines: easy members.
- HTTP clients, configuration, permissions, jobs, schedules and everything drawn on the terminal.
