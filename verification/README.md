# Video tool: verified models of its scheduling, splitting and protocol code

This project models the parts of the video tool whose guarantees are hardest to see from
the code, and proves them for every input, every run or every interleaving:

- **Optimal contiguous partition** (`Partition.dfy`, `WeightedPartition.dfy`,
  `SubtitleAlignment.dfy`): the two dynamic programs of the tool share one theory of covers,
  tables and tracebacks. Both are proved optimal over all covers, including the alignment with
  its pruned window, and the cases in which there is no answer are exact.
- **Text splitting** (`Text.dfy`, `ScriptText.dfy`, `BalancedSplitter.dfy`, `ScriptSegments.dfy`,
  `SubtitleSplitter.dfy`): termination, counts, conservation of text, and where every cut is made.
- **Subtitle timing** (`SubtitleTiming.dfy`) and the **view sequence** (`ViewSequence.dfy`).
- **E-mail challenges** (`EmailChallenge.dfy`, `ChallengeRuns.dfy`, `CreationLimits.dfy`,
  `VerificationLimits.dfy`, `WorstHour.dfy`): a table with guarded updates, and runs of any number of
  creations, deliveries and verifications in which creators and verifiers can be overtaken between
  their SELECTs and their INSERT or UPDATE; the exact limits for any number of them at a time.
- **Live browser sessions** (`ProcessSignals.dfy`, `SessionTable.dfy`, `SessionLocks.dfy`,
  `SessionDisplays.dfy`): the signalling protocol against process number reuse, and the threads
  under three locks. `Runs.dfy` has what all transition systems share.
- **Numerals, layout and audio** (`SpokenNumber.dfy`, `TimedLayout.dfy`, `SegmentAudio.dfy`).
- **Resumable pipelines** (`ReplacementRun.dfy`, `SegmentRun.dfy`, `SegmentResume.dfy`): crash and
  resume equals the uninterrupted run; checkpoints round-trip; what any end after any stage or
  segment keeps and what it loses, in the task's row and in its directory.

Conventions: code that fills tables, grows lists or updates rows is a method with a loop or a
class with fields; expression code is a function; a method's `ensures` ties its result to a
specification that the lemmas are about. Amounts that the program keeps in floating point
(weights, costs, seconds) are `real` and exact. `Basics.dfy` has small shared definitions.
`dafny verify dfyconfig.toml` checks everything.

## Where the code and expectations part

The source is modelled as it is. Each item names the theorems; where something holds only
sometimes, the condition is exact.

- With at most w verifiers of a challenge at a time (one in a transaction counts while it runs), at
  most 4 + w wrong codes are compared with it, and that many in some run: the limit of five holds in
  all such runs if and only if w is at most one (`VerificationLimits.FailuresBound`, `FailuresBoundMet`,
  `LimitHoldsIff`). A challenge at its limit refuses even the right code (`RefusedAtLimit`), and
  at-most-once acceptance holds for any overlap.
- An email sees at most 2 * (4 + c) * (4 + v) wrong codes in any hour, with c creations and v verifiers
  of a challenge at a time, and that many in some run: fifty without overlap
  (`VerificationLimits.GuessesPerHour`, `WorstHour.GuessesPerHourMet`).
- `create_email_challenge` counts in some statements and inserts in another, and its caller opens no
  transaction before (webapp/server.py:26027-26028). With at most w creations at a time, an hour sees
  at most w - 1 challenges more than the limit, and that many in some run: the hourly limits hold if
  and only if w is at most one (`CreationLimits.CreatedBound`, `CreatedBoundMet`, `LimitHoldsIff`), and
  so does the pause of a minute (`PauseHoldsIff`).
- A cleaner that has compared the identity signals only the recorded process in all that may follow
  if and only if it has a handle; `pidfd_open` may be refused or missing
  (`ProcessSignals.SafeIffHandle`).
- A start that was stopped and fails later stops the session id again, which may belong to its
  successor by then (`SessionLocks.StaleStartEvicts`). The display of a launch is its own in all that
  may follow while its session object is left in the table, if and only if the object has not been
  taken out already (`SessionDisplays.OwnDisplayIff`).
- Resuming a run by the user makes a new task, whose row starts empty; only a task that the server
  left running when it died is restarted in its own row. A restarted replacement run that raises before
  its first stage is completed keeps the checkpoint it found. Otherwise an attempt keeps exactly the
  stages before its first stop, and forgets later ones it could have used
  (`ReplacementRun.StoreAfter`, `StopForgetsLaterStages`, `SurvivorForgotten`).
- A segment that a segment run found finished is wanted again by the next one if and only if the run
  was cancelled, or did not return in a row that started empty; one that it generated itself, if and
  only if it was cancelled, because then the directory of the task is deleted
  (`SegmentResume.WantedAgainIff`). Over any number of runs, a segment is wanted exactly when no earlier
  run generated it and brought it along (`FoundIff`, `GeneratedOnce`). So a single cancellation has a
  segment generated twice (`CancelledThenAgain`), and so has a resumed run that raises when it joins its
  segments (`GeneratedTwice`).
- Dialogue-weighted cuts stay inside a single recording if and only if it lasts 0.1 s for every
  segment (`SegmentAudio.CutOne`).
- A storyboard has text in all entries if and only if there are as many characters as entries
  (`ScriptSegments.FillStoryboard`); minimum-size pieces come out if and only if the text has room
  for them (`BalancedSplitter.Boundaries`).
- Tempo times duration gives back the speech of a clip, except for exactly the source clips below
  0.05 s that are squeezed into their slot or before the next one (`TimedLayout.LengthKeptIff`): 0.04 s
  in a slot of 0.02 s gets 0.05 s at normal tempo (`ShortSpeechGrows`).
- The subtitle splitter ends if and only if its limit is positive or the text has nothing but
  separators (`SubtitleSplitter.TerminatesIff`), which is why `SubtitleSplitter.Split` asks for a
  positive limit. The program always passes 16.

## Model

| member | source | states |
|---|---|---|
| `ContiguousPartition.CoverExistsIff` | video_core/digital_human_subtitles.py:350-357 | covers of n units by k non-empty groups of at most cap units exist exactly when k <= n <= k * cap |
| `ContiguousPartition.CoverCellsFinite` | video_core/digital_human_subtitles.py:355-360 | every boundary of every cover lies on a reachable table cell, so the pruned window loses no cover |
| `ContiguousPartition.TableLowerBound` | video_core/digital_human_subtitles.py:350-371 | a settled table's last cell is at most the cost of any cover, counted from any of its boundaries |
| `ContiguousPartition.TraceStep` | video_core/digital_human_storyboard.py:260-270 | every step of the traceback finds a valid back pointer, so the branch for a missing one is dead |
| `ContiguousPartition.TraceOptimal` | video_core/digital_human_storyboard.py:260-271 | what a complete traceback reads is a cover and no cover is cheaper |
| `ContiguousPartition.TraceBack` | video_core/digital_human_storyboard.py:260-271 | the loop over the back pointers returns the groups of an optimal cover, in order |
| `WeightedPartition.PrefixDifference` | video_core/digital_human_storyboard.py:235-242 | differences of prefix sums are range sums |
| `WeightedPartition.FillCell` | video_core/digital_human_storyboard.py:253-258 | the innermost loop leaves the cheapest last group in one cell and a pointer to the first such, and changes no other cell |
| `WeightedPartition.FillTables` | video_core/digital_human_storyboard.py:244-258 | all cells a cover can pass through are settled: best value, and pointer to it |
| `WeightedPartition.Partition` | video_core/digital_human_storyboard.py:234-271 | exactly `total` non-empty contiguous groups covering all atoms, with minimal sum of squared deviations from the mean weight among all such partitions; the recursive fallback is dead |
| `SubtitleAlignment.FillCell` | video_core/digital_human_subtitles.py:354-371 | one cell of the windowed table is the best over the group sizes the cap allows |
| `SubtitleAlignment.FillTables` | video_core/digital_human_subtitles.py:346-371 | the windowed table is settled wherever a cover of all units can pass |
| `SubtitleAlignment.GroupUnits` | video_core/digital_human_subtitles.py:346-386 | the groups have minimal cost over all contiguous covers with at most `max_group_units` units a group; the result is empty exactly when no such cover exists |
| `SubtitleAlignment.CostOfUnits` | video_core/digital_human_subtitles.py:362-366 | a group costs its fit, and 0.12 for every unit but the first |
| `SubtitleAlignment.AlignToUnits` | video_core/digital_human_subtitles.py:321-387 | the dialogue ranges are those of an optimal, ordered, disjoint grouping, coerced to the video; none exactly when there is no cover |
| `SubtitleAlignment.ChooseGroup` | video_core/digital_human_subtitles.py:429-446 | whenever a word is left for this chunk and each later one, a choice is found; no allowed choice is cheaper, and none before it as cheap |
| `SubtitleAlignment.CostOfWords` | video_core/digital_human_subtitles.py:434-444 | a run of words costs its fit, 0.08 for every word skipped before it and 0.05 for every word but the first |
| `SubtitleAlignment.AlignToWords` | video_core/digital_human_subtitles.py:405-455 | groups of words are ordered, disjoint and non-empty and each is a cheapest one from its cursor; there is no result exactly without chunks, with a chunk without text, or with fewer words than chunks, so the empty return for a missing choice is dead |
| `SubtitleTiming.CoerceMonotonic` | video_core/digital_human_subtitles.py:257-276 | the loop computes the coerced ranges |
| `SubtitleTiming.CoerceExactly` | video_core/digital_human_subtitles.py:257-276 | for any ranges, overlapping or not: each starts where it was or at the end of the one before, and ends where it did or 0.1 s after its start, inside the video |
| `SubtitleTiming.CoerceTrack` | video_core/digital_human_subtitles.py:257-276 | coerced ranges are as many as given, ordered, non-overlapping, inside the video, and at least 0.1 s long unless cut off by its end |
| `SubtitleTiming.CoerceFixpoint` | video_core/digital_human_subtitles.py:257-276 | coercion leaves a list alone if and only if it is such a track |
| `SubtitleTiming.PlaceChunks` | video_core/digital_human_subtitles.py:1387-1398 | a chunk is skipped exactly when no time is left for it; an event starts as early as range, room and gap allow and keeps its end if that still lies ahead |
| `SubtitleTiming.WriteEvents` | video_core/digital_human_subtitles.py:1384-1398 | the same for a whole video, with the timing shift clamped to two seconds |
| `SubtitleTiming.PlacementSpaced` | video_core/digital_human_subtitles.py:1387-1398 | for arbitrary ranges, events are non-empty, inside their room, and 0.03 s apart from every earlier event |
| `SubtitleTiming.PlacementKeeps` | video_core/digital_human_subtitles.py:1387-1398 | a range is shown unchanged if and only if it is non-empty, inside the room and 0.03 s behind the event before it |
| `SubtitleTiming.WriteSegmentedEvents` | video_core/digital_human_subtitles.py:1424-1445 | every segment's events are placed in that segment, after everything before; the cap of the last end at a segment's end is idle |
| `SubtitleTiming.SegmentedSpaced` | video_core/digital_human_subtitles.py:1424-1445 | across all segments, an event lies in its own segment and 0.03 s behind every earlier event |
| `SubtitleSplitter.ClosestBoundary` | video_core/digital_human_subtitles.py:75-110 | the boundary in the window that is closest to the target, the later of two |
| `SubtitleSplitter.TokenAtIff` | video_core/digital_human_subtitles.py:75-110 | a token stands at a position exactly when all its characters do |
| `SubtitleSplitter.CutPoint` | video_core/digital_human_subtitles.py:117-121 | for any limit, a part is a chunk exactly when it fits; otherwise the cut is the best split, strictly inside it, or the limit itself when there is none |
| `SubtitleSplitter.BestSplitIs` | video_core/digital_human_subtitles.py:75-110 | in the window, the boundary closest to the target, the later of two; without one the last cut that leaves no closing token; without that the end of the window |
| `SubtitleSplitter.SplitInTwo` | video_core/digital_human_subtitles.py:113-129 | a part that does not fit gives the chunks of what is before the cut and of what is behind it |
| `SubtitleSplitter.Split` | video_core/digital_human_subtitles.py:113-129 | the recursion terminates and every chunk has 1 to `max_chars` characters and no separator at its ends |
| `SubtitleSplitter.TerminatesIff` | video_core/digital_human_subtitles.py:113-129 | for any limit, also zero and negative ones, the recursion ends at some depth if and only if the limit is positive or the text is blank |
| `SubtitleSplitter.SplitWeaves` | video_core/digital_human_subtitles.py:113-129 | the text is the chunks in order, untouched, with nothing but runs of the four separators around them |
| `BalancedSplitter.RoundNearest` | video_core/digital_human_storyboard.py:149 | rounding half to even gives a nearest integer |
| `BalancedSplitter.HalvesToEven` | video_core/digital_human_storyboard.py:149 | a half goes to the even neighbour |
| `BalancedSplitter.TargetsIncrease` | video_core/digital_human_storyboard.py:148-149 | with more characters than pieces the rounded targets increase strictly |
| `BalancedSplitter.TargetsInside` | video_core/digital_human_storyboard.py:148-149 | every target leaves a character for each later piece |
| `BalancedSplitter.ClosestPause` | video_core/digital_human_storyboard.py:155-164 | the position behind a pause in the window that is closest to the target, the earlier of two, if there is one |
| `BalancedSplitter.NextCut` | video_core/digital_human_storyboard.py:149-164 | a cut moves forward strictly, and room for minimum-size pieces is never lost |
| `BalancedSplitter.Boundaries` | video_core/digital_human_storyboard.py:146-166 | strictly increasing boundaries across both cut modes; all pieces have the minimum size if and only if the text has room for that |
| `BalancedSplitter.Split` | video_core/digital_human_storyboard.py:139-170 | texts longer than the count give exactly `count` non-empty pieces whose concatenation is the text; each ends behind the closest pause to its target in its window, or at the target |
| `ScriptText.AtomsVisible` | video_core/digital_human_storyboard.py:179-191 | scanning for atoms loses no visible character |
| `ScriptText.AtomsAre` | video_core/digital_human_storyboard.py:88-182 | separators at the beginning are skipped; then a run of other characters is one atom with the separator behind it, or with all of them |
| `ScriptText.NewlinesAre` | video_core/digital_human_storyboard.py:128 | CR LF and a lone CR become one LF, and nothing else changes |
| `ScriptText.LinesAre` | video_core/digital_human_storyboard.py:130 | the lines are what stands between line ends |
| `ScriptText.CollapseIs` | video_core/digital_human_storyboard.py:133 | every run of white space becomes one blank |
| `ScriptText.SpeechWeightCounts` | video_core/digital_human_storyboard.py:172-177 | 0.55 for each ASCII letter or digit and one for each other visible character |
| `ScriptText.NeedsSplitIff` | video_core/digital_human_storyboard.py:196-211 | atoms are split further exactly when there is a single one for several segments, or as many as wanted of which the heaviest weighs, or the longest has, at least 1.9 times the least |
| `ScriptText.NewlinesKeep` | video_core/digital_human_storyboard.py:128 | line-end normalization loses no visible character |
| `ScriptText.LinesKeep` | video_core/digital_human_storyboard.py:130 | splitting at line ends loses no visible character |
| `ScriptText.FirstMax` | video_core/digital_human_storyboard.py:212 | the first index of a largest weight |
| `ScriptSegments.RefineAtoms` | video_core/digital_human_storyboard.py:194-231 | the refinement loop terminates with all visible text, having only ever split a heaviest atom, at its commas or else in two; it ends with too many atoms, even atoms, or a heaviest atom it cannot split |
| `ScriptSegments.InitialAtoms` | video_core/digital_human_storyboard.py:179-193 | the sentences; a single one over weight 28 is taken apart at its commas if it has any |
| `ScriptSegments.JoinGroups` | video_core/digital_human_storyboard.py:272-273 | no group of atoms comes out empty, so the filter drops none |
| `ScriptSegments.PartitionAtoms` | video_core/digital_human_storyboard.py:234-273 | the chunks are the texts of an optimal partition, all with text |
| `ScriptSegments.SplitWeighted` | video_core/digital_human_storyboard.py:127-284 | by one of six routes with its conditions: as many lines as wanted, blanks, the whole, too few refined atoms, a best partition of them, or balanced pieces when that is too uneven; every visible character once and in order |
| `ScriptSegments.HalvingCut` | video_core/digital_human_storyboard.py:304-315 | the cut behind the first mark closest to the middle, or in the middle, never at an end |
| `ScriptSegments.FillStoryboard` | video_core/digital_human_storyboard.py:287-323 | the segments, with the first longest entry cut at its halving cut until there are as many as wanted, or a blank added where that cannot be; all have text if and only if there are as many characters; nothing visible is lost unless more segments than entries were given |
| `ScriptSegments.GreedySegments` | video_core/digital_human_storyboard.py:104-123 | exactly `total` segments, all with text, whatever the weights are; each but the last ends at the first atom where it may |
| `ScriptSegments.SplitSingle` | video_core/digital_human_storyboard.py:71-124 | the lines, the whole, the sentences or the greedy segments, each under its condition, with all visible text |
| `ScriptSegments.SegmentCount` | video_core/digital_human_storyboard.py:40-68 | four for a storyboard, else the fewest segments that hold the estimated seconds, or the limit if that is less |
| `ScriptSegments.EstimatedSeconds` | video_core/digital_human_storyboard.py:40-46 | 15 without visible text, else one more than the least number of seconds that holds the weight at 4.8 a second, from 4 to 180 |
| `ScriptSegments.NormalizeScripts` | video_core/digital_human_storyboard.py:354-408 | a storyboard is four entries, filled up from the supplied texts or from a weighted split of the script by its route; otherwise the supplied texts, or the lines, the whole, the sentences or greedy segments of the script, each under its condition; all visible text of a script is kept |
| `ScriptSegments.SuppliedOneMore` | video_core/digital_human_storyboard.py:370-386 | a supplied text with something visible counts, stripped and in its place, and a blank one does not |
| `ViewSequence.PickView` | video_core/digital_human_storyboard.py:800-824 | the available view sharing most markers with the text, the earlier of two, or the first available |
| `ViewSequence.SharedMarker` | video_core/digital_human_storyboard.py:813-820 | each marker of the text that a view has counts once |
| `ViewSequence.RotationIsPermutation` | video_core/digital_human_storyboard.py:851-873 | the first M middle positions show each of the M middle views exactly once |
| `ViewSequence.FillMiddle` | video_core/digital_human_storyboard.py:848-874 | the loop over the middle positions keeps the rotation and takes the best view among those left |
| `ViewSequence.Sequence` | video_core/digital_human_storyboard.py:827-874 | one view in range for each segment, the main view first and, for three or more segments or a closing text, last; between them a rotation of the middle views, without the last view when it closes, whatever the markers are |
| `EmailChallenge.ChallengeTable.Create` | webapp/auth_email.py:160-259 | refused for the first reason that applies: purpose, five rows of the email in an hour, twenty of the address, a row of the key less than a minute old, a known id; otherwise the table is extended by a pending row with exactly what was asked for, to expire in ten minutes |
| `EmailChallenge.FullIff` | webapp/auth_email.py:177-208 | the counting statements are full exactly with five or twenty rows younger than an hour |
| `EmailChallenge.TooSoonIff` | webapp/auth_email.py:210-226 | the pause is on exactly while some row of the key is younger than a minute |
| `EmailChallenge.ChallengeTable.MarkSent` | webapp/auth_email.py:262-309 | delivers exactly the pending, open row of the id if there is one, closes the other open rows of its email and purpose, and changes nothing else; the row is then the only open one of its key |
| `EmailChallenge.ChallengeTable.MarkFailed` | webapp/auth_email.py:312-328 | exactly one row is failed and closed if one is pending under the id, and else nothing changes |
| `EmailChallenge.ChallengeTable.VerifyAndConsume` | webapp/auth_email.py:331-461 | accepts if and only if the named row was sent, is open, unexpired, below its limit and matching, and consumes it then and only then; every refusal has its own condition and its own effect on that row; no other row changes |
| `EmailChallenge.Latest` | webapp/auth_email.py:210-220 | a most recently created row of an email and purpose |
| `ChallengeRuns.StepKeeps` | webapp/auth_email.py:160-461 | every action, also single statements of creators and verifiers, keeps ids unique, usable challenges the last sent ones, and successes distinct and rightful |
| `ChallengeRuns.AtMostOneLive` | webapp/auth_email.py:288-308 | in every run, at most one challenge of an email and purpose can be used |
| `ChallengeRuns.AcceptedOnceAndRightly` | webapp/auth_email.py:378-461 | however verifiers interleave, no challenge is accepted twice, and an accepted one was the last sent, unexpired and below its failure limit |
| `ChallengeRuns.RightCodeAccepted` | webapp/auth_email.py:231-461 | in every run after a creation was inserted, a request for its id is accepted exactly if it has the email, purpose, digest and any expected user and address of that creation, comes within ten minutes, and the challenge is delivered, open and below its limit |
| `ChallengeRuns.InsertedRow` | webapp/auth_email.py:231-259 | an inserted challenge is pending and untouched and has exactly what was asked for |
| `CreationLimits.HourStep` | webapp/auth_email.py:177-259 | every action keeps the challenges of an hour, with the creators already admitted to it, within the bound |
| `CreationLimits.CreatedBound` | webapp/auth_email.py:177-259 | with at most w creations of an email or address at a time, any hour holds at most the limit - 1 + w of its challenges, in every run |
| `CreationLimits.CreatedBoundMet` | webapp/auth_email.py:177-259 | for every w a run meets that bound |
| `CreationLimits.LimitHoldsIff` | webapp/auth_email.py:31-36 | 5 an hour for an email and 20 for an address hold in all runs if and only if w is at most one |
| `CreationLimits.ResendPause` | webapp/auth_email.py:210-226 | when creations of an email do not overlap, its challenges for one purpose are 60 s apart, in every run |
| `CreationLimits.PauseHoldsIff` | webapp/auth_email.py:210-226 | that pause holds in all runs with at most w creations of the email at a time if and only if w is at most one |
| `VerificationLimits.FailuresBound` | webapp/auth_email.py:401-441 | with at most w verifiers of a challenge at a time, at most 4 + w wrong codes are compared with it or counted on it, in every run |
| `VerificationLimits.FailuresBoundMet` | webapp/auth_email.py:401-441 | for every w a run meets that bound |
| `VerificationLimits.LimitHoldsIff` | webapp/auth_email.py:31-36 | five comparisons are never exceeded if and only if w is at most one |
| `VerificationLimits.RefusedAtLimit` | webapp/auth_email.py:406-410 | a row at its limit refuses every code, also when the UPDATE comes later |
| `VerificationLimits.FailuresCovered` | webapp/auth_email.py:393-441 | failures in a window belong to challenges created in a window that starts one lifetime earlier |
| `VerificationLimits.GuessesPerHour` | webapp/auth_email.py:31-36 | at most (4 + vw) * 2 * (4 + cw) wrong codes an email in any hour with cw creations and vw verifiers of a challenge at a time: fifty when nothing overlaps |
| `VerificationLimits.GuessAll` | webapp/auth_email.py:401-441 | from any state with an open challenge, w verifiers at a time can bring about 4 + w failures, which close it and change nothing else |
| `WorstHour.SentAndGuessed` | webapp/auth_email.py:262-441 | any pending challenge of an email can be sent and used up within one second, while challenges for other purposes stay as they are |
| `WorstHour.GuessesPerHourMet` | webapp/auth_email.py:31-36 | for all cw and vw some run has an hour with exactly that product of wrong codes |
| `VerificationLimits.OvertakingCounts` | webapp/auth_email.py:422-435 | n verifiers that all read before any wrote and none of which locks add n failures and leave the challenge open |
| `ProcessSignals.StepKeeps` | social_automation/live_browser.py:622-784 | births, exits, reuse, captures and cleaner steps keep a fault-free cleaner's handle on the recorded process |
| `ProcessSignals.SignalsReachRecorded` | social_automation/live_browser.py:622-648 | in every interleaving a signal of a cleaner that could use a handle reaches the process with the recorded boot, number and start |
| `ProcessSignals.SignalsReachNumber` | social_automation/live_browser.py:622-648 | in every interleaving any signal, also without a handle, goes by a complete record of this boot to a process with the recorded number, which is above one |
| `ProcessSignals.ComparesAll` | social_automation/live_browser.py:705-741 | a cleaner goes on exactly when boot, start, executable and display agree and the command is Xvnc; else it sends nothing |
| `ProcessSignals.RecordedIsTerminated` | social_automation/live_browser.py:622-703 | a display server that is recorded and cleaned up undisturbed gets the term and then the kill signal; another process is not recorded |
| `ProcessSignals.BaseNameIs` | social_automation/live_browser.py:723-741 | the base name of a command is what stands behind its last directory |
| `ProcessSignals.BaseNameBefore` | social_automation/live_browser.py:723-741 | a slash or a single dot behind a path does not change its base name |
| `ProcessSignals.SafeIffHandle` | social_automation/live_browser.py:769-784 | from every reachable state, all signals a cleaner that compared the identity may still send reach the recorded process if and only if it has a handle |
| `ProcessSignals.FallbackCanHitAnother` | social_automation/live_browser.py:769-784 | a run in which a signal without a handle reaches a process that took the number over after the comparison |
| `SessionTable.FreeDisplay` | social_automation/live_browser.py:787-795 | the smallest display up to 139 that is not taken |
| `SessionTable.Manager.AllocateDisplay` | social_automation/live_browser.py:787-795 | the loop finds it, or none |
| `SessionTable.Manager.ReserveSession` | social_automation/live_browser.py:137-163 | the existing session of the task; otherwise a new one with its token in the table, with the smallest free display; or neither when all of 90..139 are taken |
| `SessionTable.Manager.Remove` | social_automation/live_browser.py:253-256 | whatever session object is stopped, the id leaves the table, what it held is returned, and its display is free for the next reservation |
| `SessionLocks.LockOrder` | social_automation/live_browser.py:845-866 | every lock taken ranks above all held ones: orphan, session, registry |
| `SessionLocks.StepKeeps` | social_automation/live_browser.py:103-163 | every step keeps mutual exclusion, the sweep first, the table sound and launches backed by the table |
| `SessionLocks.SweepAlone` | social_automation/live_browser.py:845-866 | in every interleaving the sweep begins at most once, and while it runs no session is reserved and no thread is past it |
| `SessionLocks.SessionsApart` | social_automation/live_browser.py:137-163 | sessions in the table have different tasks and different displays in 90..139 |
| `SessionLocks.LaunchesApart` | social_automation/live_browser.py:137-163 | concurrent launches use different displays while their session objects have not been taken out |
| `SessionLocks.NoDeadlock` | social_automation/live_browser.py:845-866 | while a thread is unfinished, some thread can advance |
| `SessionLocks.SweepVisitsAll` | social_automation/live_browser.py:845-880 | a sweep that is not disturbed takes the registry lock for every row and then goes on to the reservation |
| `SessionLocks.LaunchSavedTwice` | social_automation/live_browser.py:165-210 | a launch that goes well is saved, goes on, is saved again and is finished |
| `SessionLocks.FailedLaunchStops` | social_automation/live_browser.py:211-216 | a launch that fails, before or after it was saved, takes its id out of the table and goes on to its row |
| `SessionLocks.MarkWritesRow` | social_automation/live_browser.py:322-356 | marking goes on to the registry, under the session lock, exactly for an id in the table |
| `SessionLocks.MarkHoldsSession` | social_automation/live_browser.py:322-356 | the session lock is held from the look-up to the end of the write |
| `SessionLocks.StaleStartEvicts` | social_automation/live_browser.py:212-216 | a failing start can remove its successor, after which two launches share a display |
| `SessionDisplays.StaleDisplayTaken` | social_automation/live_browser.py:137-163 | from every such state, whatever the other threads do, a launch whose session object was taken out can see its display go to another session |
| `SessionDisplays.OwnDisplayIff` | social_automation/live_browser.py:137-163 | in every reachable state, a launch's display stays its own as long as nobody takes its session object out, if and only if nobody has |
| `SpokenNumber.ConvertFour` | video_core/video_language_timing.py:97-117 | read strictly, the four-digit loop speaks exactly the digits of the group, whatever was read before it |
| `SpokenNumber.Groups` | video_core/video_language_timing.py:119-122 | the groups of four digits are below 10000, have the number as their value, and no leading zero group |
| `SpokenNumber.SpeakGroups` | video_core/video_language_timing.py:123-134 | read strictly, the loop over the groups speaks their value |
| `SpokenNumber.Spell` | video_core/video_language_timing.py:92-134 | a strict reader, which takes a zero word exactly where places are skipped and a bare ten exactly at the beginning of a group, gives the number back; the units run out exactly at 10^16 |
| `SpokenNumber.ZeroIsNeeded` | video_core/video_language_timing.py:107-113 | with the zero word the reader reads 105; without it it reads nothing, unless a unit makes it 150 |
| `SpokenNumber.BareTenLeads` | video_core/video_language_timing.py:114-116 | fifteen begins with a bare ten |
| `TimedLayout.BuildLayout` | video_core/video_language_timing.py:256-331 | all clips as specified, and a total that is the largest of the source duration, the clip ends and 0.1 s |
| `TimedLayout.StartsAre` | video_core/video_language_timing.py:279-314 | a clip starts at its nominal time plus the sum of the overruns of the sources before it, where its role is shifted, and not before the latest end of those it follows |
| `TimedLayout.ShiftKept` | video_core/video_language_timing.py:304-309 | for ordered sources, every later source or ending is at least as late as any source before it overran the next nominal start, up to 0.01 s for each source |
| `TimedLayout.SqueezedWhenNeeded` | video_core/video_language_timing.py:285-303 | a source is squeezed into its slot, or before the next source, exactly when it is too long and the cap of its text allows it |
| `TimedLayout.ClipSpeedOk` | video_core/video_language_timing.py:285-303 | tempo from one to the cap, and tempo times duration gives back speech of at least 0.05 s |
| `TimedLayout.LengthKeptIff` | video_core/video_language_timing.py:285-303 | tempo times duration is the speech if and only if the clip is no source, or lasts at least 0.05 s, or neither the rest of its slot nor the room before the next source lies between 0.01 s and the speech less 0.01 s |
| `TimedLayout.ShortSpeechGrows` | video_core/video_language_timing.py:285-303 | a clip for which it is not |
| `TimedLayout.ClipsSound` | video_core/video_language_timing.py:256-331 | for any list, no clip is early and every tempo is sound |
| `TimedLayout.ClipsDisjoint` | video_core/video_language_timing.py:256-331 | opening, source and ending clips are ordered and never overlap |
| `TimedLayout.ShiftBounded` | video_core/video_language_timing.py:279-307 | for ordered sources a shift is not negative and at most the speech played before |
| `TimedLayout.IdentityIff` | video_core/video_language_timing.py:279-307 | for ordered sources the layout changes nothing if and only if every clip ends before the next nominal start and fits its slot, cannot be squeezed into it, or has the length the squeeze gives |
| `TimedLayout.AtempoChain` | video_core/video_language_timing.py:48-60 | factors from 0.5 to 2 whose product is the tempo, raised to 0.05; all but the last one are twos and it speeds up as well, or they are halves and it slows down as well |
| `ReplacementRun.PlanIdsDistinct` | video_core/replacement_pipeline.py:1506-1520 | no two stages of a plan share a checkpoint entry |
| `ReplacementRun.ClosedImageIff` | video_core/replacement_pipeline.py:1506-1520 | a closed-image stage is the bare name or the name with a value behind a colon |
| `ReplacementRun.PartComplete` | video_core/replacement_pipeline.py:1506-1520 | each stage of a chain is in its part of the plan, once, at its place among its kind |
| `ReplacementRun.PlanOrdered` | video_core/replacement_pipeline.py:1506-1520 | closed images come before workflows, the model before the product, and each chain in its order |
| `ReplacementRun.RunAttempt` | video_core/replacement_pipeline.py:1517-1640 | the two loops run the plan stage by stage, resumed or called |
| `ReplacementRun.IdealAlong` | video_core/replacement_pipeline.py:1521-1613 | an uninterrupted run leaves for each subject what its own closed-image stages make of its own initial image, and the output of the last workflow |
| `ReplacementRun.CallsAreGiven` | video_core/replacement_pipeline.py:1526-1600 | every call of any attempt gets the image that the closed-image stages of its own subject before it make of that subject's initial image, and a workflow gets the output of the one before |
| `ReplacementRun.WorkflowImage` | video_core/replacement_pipeline.py:1592-1600 | a workflow of a plan gets the image after all closed-image stages of its subject, whatever the other subject has |
| `ReplacementRun.AttemptFollowsIdeal` | video_core/replacement_pipeline.py:1517-1640 | from sound remains, the completed stages are a prefix with their uninterrupted outputs |
| `ReplacementRun.AttemptCallsMissing` | video_core/replacement_pipeline.py:1517-1640 | the provider calls are the stages that did not survive, in order, up to where the attempt stops |
| `ReplacementRun.AttemptPassesTokenOnce` | video_core/replacement_pipeline.py:1559-1600 | the resume task id goes to the first called workflow and to no other call |
| `ReplacementRun.ResumedRunIsUninterrupted` | video_core/replacement_pipeline.py:1493-1668 | a resumed attempt that finishes ends as the uninterrupted run, having called exactly the missing stages; it finishes if and only if nothing stops it; a failed stage is never checkpointed |
| `ReplacementRun.SurvivorsSound` | video_core/replacement_pipeline.py:768-792 | any surviving subset of a checkpoint of uninterrupted outputs is sound |
| `ReplacementRun.EveryFinishIsUninterrupted` | video_core/replacement_pipeline.py:1493-1668 | the same over any history of interrupted attempts |
| `ReplacementRun.StoreAfter` | video_core/replacement_pipeline.py:1517-1613 | a restarted attempt leaves the checkpoint it found if it raises before its first stage is completed; a new task in that case has none, and otherwise both have exactly the uninterrupted outputs of the stages before the first stop |
| `ReplacementRun.StopForgetsLaterStages` | webapp/video_workbench.py:4477-4514 | an entry of the checkpoint resumed from is in the row afterwards if and only if the attempt was restarted in that row and raises before its first stage is completed, or the entry lies before the first stop |
| `ReplacementRun.SurvivorForgotten` | video_core/replacement_pipeline.py:1602-1613 | attempts that forget an output they could have used: any that fails, and a new task that raises |
| `ReplacementRun.SegmentSpecs` | video_core/replacement_pipeline.py:185-206 | full pieces one after the other and a shorter last one; at most 0.05 s stays uncovered and no piece is as short |
| `SegmentRun.UniqueIgnoresRepeats` | video_core/digital_human_pipeline.py:177-194 | repeating known ids under several names adds none |
| `SegmentRun.UniqueMembers` | video_core/digital_human_pipeline.py:177-194 | the ids are the stripped values that are not blank, and no others |
| `SegmentRun.TaskIdsAre` | video_core/digital_human_pipeline.py:223-245 | the ids of a record are those of its two lists and its two single fields |
| `SegmentRun.LastRecordWins` | video_core/digital_human_pipeline.py:223-245 | a segment is restored if and only if some record of it, by index or else by position, has its file; the last such record gives the file, the task ids and the duration |
| `SegmentRun.DecodeIs` | video_core/digital_human_pipeline.py:223-264 | a segment is found exactly when a record or else the list of paths has its file; a record counts before the list, and a path brings its ids and no duration |
| `SegmentRun.CheckpointRoundTrip` | video_core/digital_human_pipeline.py:223-264 | decoding a run's own checkpoint gives exactly its finished segments with durations and ids |
| `SegmentRun.PathsSuffice` | video_core/digital_human_pipeline.py:246-264 | without its records, a run's checkpoint still brings its finished segments with their ids, but not their durations |
| `SegmentRun.Restore` | video_core/digital_human_pipeline.py:715-725 | restored segments are copied to their own places in the directory of the task, and no other file is touched |
| `SegmentRun.MergeMembers` | webapp/video_workbench.py:1342-1352 | merging a record replaces the one of its index and keeps all others |
| `SegmentRun.Generate` | video_core/digital_human_pipeline.py:738-814 | targets are tried in order up to a cancellation before one of them or by its provider; failures do not stop the loop; each success is in its file and in the records of the row; other files stay |
| `SegmentRun.CalledIs` | video_core/digital_human_pipeline.py:738-814 | the calls go along the targets without a gap, up to a stop before one or the first that is cancelled by its provider |
| `SegmentRun.Run` | video_core/digital_human_pipeline.py:706-968 | a regenerate index beyond the count is refused; else the calls are the missing segments or the one to regenerate, up to a stop; the row has a record of each success; there is a result exactly when neither the targets nor what follows them raise, and success means that and no segment missing |
| `SegmentRun.OnlyTargetsChange` | video_core/digital_human_pipeline.py:706-736 | regenerating calls for that segment only and leaves all others as found; without it, nothing found is called for or changed |
| `SegmentResume.FoundAfter` | webapp/server.py:12299-12329 | whatever the end of an attempt, the next one finds exactly the segments this one found and kept or generated, unless the directory was discarded, with their ids and durations |
| `SegmentResume.ResumeCallsMissing` | video_core/digital_human_pipeline.py:706-814 | an attempt wants exactly the segments without a record in the row whose file is still there, and calls for them in order up to where it stops |
| `SegmentResume.WantedAgainIff` | webapp/server.py:12303-12329 | a segment found is wanted again after an attempt if and only if the attempt was cancelled, or did not return in a row that started empty; a generated one if and only if it was cancelled |
| `SegmentResume.FoundIff` | webapp/video_workbench.py:4477-4514 | in any chain of attempts, what one finds is exactly what an earlier one generated without being cancelled and all in between kept, by returning or by being restarted in their row |
| `SegmentResume.GeneratedOnce` | webapp/server.py:2338-2345 | an attempt wants a segment if and only if no earlier one brings it in that way, and calls for no other |
| `SegmentResume.CancelledThenAgain` | webapp/server.py:12403-12404 | a first attempt makes a segment and is cancelled, and the next one makes it again |
| `SegmentResume.GeneratedTwice` | video_core/digital_human_pipeline.py:944-968 | a resumed attempt gets all its targets done and raises afterwards, and the next one makes a segment of the first one again |
| `SegmentAudio.CutOne` | video_core/ecommerce_segment_audio.py:62-81 | dialogue-weighted cuts follow each other from zero and stay inside the recording if and only if it lasts 0.1 s a segment |
| `SegmentAudio.WeightsAre` | video_core/ecommerce_segment_audio.py:41-51 | the dialogue weight of a segment, or 0.1 when only others have dialogue, or its duration when none has |
| `SegmentAudio.SharesProportional` | video_core/ecommerce_segment_audio.py:66-74 | the shares of the segments are in proportion to their weights |
| `SegmentAudio.SharesSum` | video_core/ecommerce_segment_audio.py:66-74 | together they are the recording |
| `SegmentAudio.CutIsShare` | video_core/ecommerce_segment_audio.py:70-77 | a cut is its share where no limit stands in the way, the last one goes to the end, and none is longer than its segment |
| `SegmentAudio.SharesPartition` | video_core/ecommerce_segment_audio.py:90-94 | with no more recordings than segments the shares are non-empty and partition the segments |
| `SegmentAudio.SharesCover` | video_core/ecommerce_segment_audio.py:90-95 | with more recordings than segments every segment is some recording's share |
| `SegmentAudio.SharesEven` | video_core/ecommerce_segment_audio.py:90-94 | the shares of the recordings differ from the average by less than one segment |
| `SegmentAudio.ShareCutsFollow` | video_core/ecommerce_segment_audio.py:99-111 | the cuts of a share follow each other, respect their segments, and only the shortest may overrun |
| `SegmentAudio.ScaledProportional` | video_core/ecommerce_segment_audio.py:99-106 | the wanted lengths in a share are in proportion to the weights |
| `SegmentAudio.ScaledSum` | video_core/ecommerce_segment_audio.py:99-106 | together they are as long as the recording, if its length is known |
| `SegmentAudio.ShareIsScaled` | video_core/ecommerce_segment_audio.py:105-108 | a cut has its wanted length where no limit stands in the way |
| `SegmentAudio.CutMany` | video_core/ecommerce_segment_audio.py:89-112 | every segment gets its cut from the last recording that has it in its share |
| `SegmentAudio.Prepare` | video_core/ecommerce_segment_audio.py:19-112 | one reference for each segment, by all the cases |

## Left out

- Floating point: weights, costs, seconds and the factors 0.55, 0.45, 1.35 and 1.9 are exact, and results are taken before they are rounded to milliseconds or written as timestamps.
- BalancedSplitter.Split: the minimum size is the floor of 11 * length / (20 * count), so a float quotient that falls just short of an integer is not modelled; `BalancedSplitter.Boundaries` is proved for any size.
- Similarity and length penalties of the aligners: a parameter, because they call a fuzzy matcher and a logarithm. The filters that drop units without text are applied before.
- Regular expressions: scanners over character classes, with white space as a fixed set of characters. Supplied storyboard items are taken as their texts.
- More than four supplied storyboard segments: the first four are kept, so text conservation is stated for at most four.
- Scene markers and the closing test of a text: finite tables, so marker sets and the test are parameters.
- E-mail addresses are normalized and compared exactly; digests, code generation and delivery are not part of the model; a missing user is user zero.
- A caller that raises after an accepted verification (webapp/server.py:26108-26109, 26247-26256) rolls it back, so its consumption is undone; rejections are committed. A verification that is accepted here is one whose transaction is committed.
- Identity of a process: command line, executable and boot id are read in one step, after the start time, and a number is not reused within one clock tick.
- The `/proc` scan that signals all processes of a display, and `os.kill` as such: they use no handle, so the guarantee is not theirs.
- Registry rows: only the lock sections are modelled, not their contents, so nothing is claimed for the two-section writes of the standby and ready marks.
- The standby sessions that a start stops first: each stop is a thread of its own. Ports, processes and callbacks of a session are left out.
- Fractions, percentages, digit strings and the word for two in the speech normalizer, and the choice of the tempo cap by text: small tables.
- Segmented replacement runs: only their tiling is modelled (`ReplacementRun.SegmentSpecs`). A cancellation after the last stage, usage totals, progress and task id lists are left out.
- Providers of the replacement run are functions of their stage and references; the usable part of a checkpoint is a parameter.
- SegmentRun.Run: file contents are stated for restored segments that do not lie in each other's places; copying between such files is not followed further. Planning, fusion images and joining are not part of the model.
- Resumed segment runs: a crash after the provider has answered and before the record is merged counts as a cancellation by the provider, and a provider that does not succeed leaves no file. Between attempts, only the worker of a cancelled task takes files out of its directory; deleting a task deletes its row as well. Whether a file named in a replacement checkpoint is still there is the parameter of usable outputs. A regenerated segment is not part of the chains.
- Cutting itself and probing of recordings: a cut is its recording, start and length, and durations are parameters.
