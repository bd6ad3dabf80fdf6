# Verified model of pgmcp's core state machines

pgmcp is a daemon that serves agents over MCP and A2A on top of PostgreSQL. This
project models nine of its self-contained algorithms and protocols in Dafny 4.11 and
proves what its comments, documentation and tests promise of them. SQL tables are
sequences or maps, the peer language model is an arbitrary function, and regular
expressions are arbitrary sets of match ranges. `dafny verify dfyconfig.toml` covers
every file.

| file | what it models |
|---|---|
| `RlmFrames.dfy` | the recursion frame: depth and budget down a tree of sub-calls |
| `RlmSlots.dfy` | the addresses of accumulator pages and the listing of a store |
| `RlmStitch.dfy` | folding partial answers through a store all nodes of a tree share |
| `RlmFanout.dfy` | the bounded concurrent fan-out and the ordering of its results |
| `Utf8.dfy`, `PromptText.dfy` | masking, sentence splitting and windows over one UTF-8 prompt |
| `Mandates.dfy` | session mandates: upsert, near-duplicate marking, retirement, promotion |
| `Promotion.dfy` | consensus promotion that feeds back into its own trust thresholds |
| `TaskEvents.dfy` | the task runner, its cancellers, the event log and the SSE reader |
| `Mailbox.dfy` | messages, receipts and delivery |
| `RotatingLog.dfy` | the rotating log appender and its directory |
| `TomlMerge.dfy` | the recursive merge behind the configuration upgrade |
| `Lifecycle.dfy` | the daemon's phase register and its broadcasts |
| `Common.dfy`, `Lexicographic.dfy` | optional values and the bytewise order, shared by the others |

Code that updates state in place is modelled by classes and loops (`MandateStore`,
`PracticeStore`, `TaskDb`, `MailboxStore`, `Directory`, `Appender`, `Tape`,
`Trajectory`, `DaemonLifecycle`). Each method's postcondition ties the new state to a
specification function, and the lemmas prove what those functions keep over every run.
Concurrency is a state machine: an interleaving is a sequence of atomic steps of any
of the participants, and the theorems hold for every such sequence.

## Where the code and its promises differ

Eight promises hold only under a condition. Each has a lemma with a failing input or
family, and a theorem that gives the exact condition.

- `src/a2a/rlm.rs:492-493` says that the sub-calls of a whole tree stay within the
  root budget. A node that does not recurse ignores the budget, so this fails for the
  largest allowed frame (`RlmFrames.FullLimitsOverrun`). `RlmFrames.WithinBudgetIff`
  gives the exact condition on a frame; with a fan-out of four or more it is that the
  budget has room for the full tree (`RlmFrames.WithinBudgetClosedForm`), so the
  largest root is safe with at most five chunks (`RlmFrames.LargestRootSafeIff`).
- The configuration merge is idempotent and closed only for values without NaN inside
  arrays, because array items are compared with `==` (`TomlMerge.MergeIdempotentIff`,
  `UpgradeClosedIff`, `DefaultsClosedIff`). It is associative exactly where no path has
  the outer two values of one container kind and the middle one of another, unless the
  outer user value already absorbs the outer default there
  (`TomlMerge.MergeAssociativeIff`). `TomlMerge.LawsFailWithoutTheirConditions` shows
  values that break the laws.
- A delivery is not repeated exactly when the recipient has a session
  (`Mailbox.RepeatsIff`, which covers every recipient without one as the failing
  family): the unique key on receipts does not apply to null sessions.
- Rotated files read back in order exactly when Daily and Hourly rotation are not both
  used on one directory (`RotatingLog.SuffixIff`, `RotatingLog.MixedRotationsMisorder`).
- The status column of a mandate agrees with the durable table throughout a run exactly
  when no step of the run overwrites the status of a durable mandate
  (`Mandates.AgreesThroughoutIff`). Marking near duplicates does so when a promotion
  falls between its two statements (`Mandates.InterruptedMarkingClobbers`).
- `src/a2a/best_practices.rs:582-586` calls a promotion pass idempotent. A pass raises
  priors, and those can let another group through in the next pass
  (`Promotion.RepeatCanInsert`). `Promotion.RepeatIdleIff` gives the exact condition, in
  terms of the tables before the pass, and `Promotion.PassesConverge` shows that
  repetition does settle.
- A cancellation of a running task that carries no recursion frame is honoured exactly
  when it is marked in time (`TaskEvents.CancelHonouredIff`); a task that carries one
  never ends canceled (`TaskEvents.TaskDb.CreateAndStart`). One that lands while the skill of a failing round
  runs is lost, and the task is stored as failed (`TaskEvents.CancelLostInFailingRound`).
- Phase broadcasts reach subscribers in increasing order exactly when each broadcast is
  the oldest one outstanding (`Lifecycle.OrderedIff`, `Lifecycle.OvertakingReverses`).

## Model

| member | source | states |
|---|---|---|
| `RlmFrames.EntryAdmits` | src/a2a/rlm.rs:258-305 | every root frame and every adopted inbound frame, whatever its fields, has depth plus remaining depth at most 4 or no remaining depth, and a budget at most 256; adoption never revives an exhausted frame |
| `RlmFrames.RootKeepsRequest` | src/a2a/rlm.rs:258-293 | a root has the requested depth, budget and chunk count wherever they lie within the caps, and the nearest cap otherwise |
| `RlmFrames.EntryKeepsFields` | src/a2a/rlm.rs:297-305 | an adopted frame keeps every field except where depth or budget exceeds a cap, and then has just the cap |
| `RlmFrames.GateMeans` | src/a2a/dispatcher.rs:303-306 | the gate lets a frame in exactly if depth and budget are left |
| `RlmFrames.HopDescends` | src/a2a/rlm.rs:494-529 | a recursive hop that the peer does not answer as a leaf goes one deeper, has one less remaining depth, cannot overflow the depth, keeps the chunk count, and its budget is the largest for which all children's budgets with the calls themselves fit the parent's |
| `RlmFrames.RunRecursesIff` | src/a2a/rlm.rs:494-529 | a run recurses into all its snippets exactly if depth is left and its budget exceeds twice their number, and into none otherwise |
| `RlmFrames.CapKeepsRequest` | src/a2a/rlm.rs:1085 | the fan-out cap is the requested chunk count, from 1 to 64 |
| `RlmFrames.CallsOfOneRun` | src/a2a/rlm.rs:460-487 | a run that does not recurse makes one call per snippet, and one direct call when it has none |
| `RlmFrames.RecursionTerminates` | src/a2a/rlm.rs:741-758 | any chain of recursing frames from any admitted frame has at most 4 frames and fewer hops than the first frame's remaining depth |
| `RlmFrames.SharesFit` | src/a2a/rlm.rs:494-501 | the integer share is the largest for which n calls and n shares fit the budget |
| `RlmFrames.RecursiveCallsWithinBudget` | src/a2a/rlm.rs:494-529 | over every tree a frame can produce, all recursive sub-calls together stay within the frame's budget |
| `RlmFrames.SubcallsBounded` | src/a2a/rlm.rs:494-529 | over every tree, all sub-calls together are at most the budget times one plus the fan-out cap |
| `RlmFrames.FittingTreeWithinBudget` | src/a2a/rlm.rs:489-529 | all sub-calls stay within the budget when every non-recursing node's snippets fit its own budget |
| `RlmFrames.UnsafeFrameOverruns` | src/a2a/rlm.rs:516-527 | every frame that fails the safety condition produces some tree that exceeds its budget |
| `RlmFrames.WithinBudgetIff` | src/a2a/rlm.rs:489-529 | no tree of a frame exceeds its budget if and only if the frame's depth, budget and cap satisfy a recursive arithmetic condition |
| `RlmFrames.WithinBudgetClosedForm` | src/a2a/rlm.rs:489-529 | for a fan-out cap of at least 4 that condition is: cap + cap^2 + ... up to the frame's remaining depth is at most its budget |
| `RlmFrames.LargestRootSafeIff` | src/a2a/rlm.rs:258-283 | the root with every limit at its maximum stays within its budget if and only if at most 5 chunks are asked for |
| `RlmFrames.FullLimitsOverrun` | src/a2a/rlm.rs:492-493 | the largest allowed root produces a tree of 4160 sub-calls, over its budget of 256 |
| `RlmSlots.UuidTextInjective` | src/a2a/rlm.rs:1210-1219 | the 36-character text of a UUID determines it |
| `RlmSlots.UuidTextReads` | src/a2a/rlm.rs:1210-1219 | the text reads back as the id: its hexadecimal digits in order, hyphens after the 8th, 12th, 16th and 20th (section 4 of RFC 9562) |
| `RlmSlots.DecimalReads` | src/a2a/rlm.rs:1412-1417 | the text of a page number denotes that number |
| `RlmSlots.AccumSlotInjective` | src/a2a/rlm.rs:1210-1219 | two accumulator addresses are equal only for the same node and key; an address belongs to exactly its own node and is recognised as an accumulator |
| `RlmSlots.AccumSlotText` | src/a2a/rlm.rs:1192-1219 | an address spells out the prefix, the node's id and the key |
| `RlmSlots.OwnersAgree` | src/a2a/rlm.rs:1210-1219 | no address lies under the prefixes of two different nodes, for keys of any form |
| `RlmSlots.StoreSnippets` | src/a2a/rlm.rs:1233-1268 | the loop returns the first `max` resident non-accumulator pages of the listing, fewer only if there are no more, each with its own address and contents |
| `RlmSlots.SourceSlotsContents` | src/a2a/rlm.rs:1246-1282 | filtering keeps the address order and exactly the resident addresses that do not start with accum/ |
| `RlmSlots.SnippetsIgnoreAccumulators` | src/a2a/rlm.rs:1233-1282 | two stores with the same source pages give the same snippets for every `max`, whatever accumulator pages either holds |
| `RlmStitch.ChunksPartition` | src/a2a/rlm.rs:202-208 | cutting into windows of 4 loses and reorders nothing, every window but the last holds 4 pages and the last 1 to 4, and there are ceil(n/4) of them |
| `RlmStitch.FoldIsFoldOverChunks` | src/a2a/rlm.rs:1436-1486 | the windowed fold equals the left fold over those chunks for every reducer, failing where it fails |
| `RlmStitch.AnswerKeepsFacts` | src/a2a/rlm.rs:1411-1486 | if no reduce call loses facts, the answer holds the facts of every partial |
| `RlmStitch.StepSeesOnlyItsOwn` | src/a2a/rlm.rs:1393-1487 | what a stitch step does depends only on the pages under its own prefix |
| `RlmStitch.StepWritesOnlyItsOwn` | src/a2a/rlm.rs:1298-1329 | a stitch step changes no page outside its own prefix |
| `RlmStitch.StitchesDoNotInterfere` | src/a2a/rlm.rs:1393-1487 | in every interleaving of any number of stitches and foreign writes on one store, each stitch is where it would be after running the same number of steps alone, and so are its pages |
| `RlmStitch.InterleavedStitchIsPureFold` | src/a2a/rlm.rs:1393-1487 | a stitch that finishes in any interleaving answers with the pure fold of its partials |
| `RlmStitch.InterleavedStitchFinishes` | src/a2a/rlm.rs:1393-1487 | a stitch scheduled for more than 1+4n steps has finished, with that answer |
| `RlmStitch.InterleavedStitchLeavesPages` | src/a2a/rlm.rs:1393-1487 | in any interleaving a finished stitch has left each partial on its page and its answer as the summary |
| `RlmStitch.StitchesLeaveSnippets` | src/a2a/rlm.rs:1233-1329 | no interleaving of stitches changes the snippets the store returns |
| `RlmStitch.Trajectory.PushStep` | src/a2a/rlm.rs:1524-1564 | a recorded step is appended and numbered without gaps |
| `RlmStitch.StorePutStep` | src/a2a/rlm.rs:1298-1329 | writes exactly the namespaced page and records one put at the node's depth with a quarter of the length as tokens |
| `RlmStitch.StoreGetStep` | src/a2a/rlm.rs:1334-1348 | returns the page if it is there, and records one get that tells whether it was, with its token estimate |
| `RlmStitch.SavePartials` | src/a2a/rlm.rs:1411-1424 | afterwards every partial is under its own numbered page and nothing outside the node's prefix changed |
| `RlmStitch.ReadWindow` | src/a2a/rlm.rs:1438-1452 | reads the window's pages back unchanged and in order, each under its own address |
| `RlmStitch.FoldAll` | src/a2a/rlm.rs:1432-1486 | the loop returns the specified fold, leaves the last summary in the store and records exactly the specified trace, on success and on a failing reduce |
| `RlmStitch.AccumulateInStoreStitch` | src/a2a/rlm.rs:1393-1487 | the whole stitch returns the specified answer, also for no partials, changes only the node's own pages and records the specified trace |
| `RlmStitch.StitchCounts` | src/a2a/rlm.rs:1411-1486 | a successful stitch of n > 0 partials records n + ceil(n/4) puts, n gets and ceil(n/4) stitches |
| `RlmFanout.RunAccounts` | src/a2a/rlm.rs:531-554 | at every point of every concurrent run each started job is in flight or done, exactly once, with its own answer |
| `RlmFanout.RunCounts` | src/a2a/rlm.rs:504-554 | at every point of every run at most the clamped concurrency of 1 to 8 jobs are in flight, the started jobs are those in flight and those done, and each event started or completed one job |
| `RlmFanout.StartsWhenRoom` | src/a2a/rlm.rs:504-552 | a job starts whenever one is left and fewer are in flight than requested, between 1 and 8 |
| `RlmFanout.RunsDrain` | src/a2a/rlm.rs:531-554 | a run has at most two events per job, has that many if and only if every job is done, and can always go on until then |
| `RlmFanout.SortRestoresOrder` | src/a2a/rlm.rs:531-555 | whatever the completion order, the sorted results are those of running the jobs one after another |
| `RlmFanout.CollectResults` | src/a2a/rlm.rs:557-587 | one step per result with contiguous numbers, its depth, latency and token estimate, successful exactly if the answer is useful |
| `RlmFanout.PartialsMean` | src/a2a/rlm.rs:557-576 | the partials are exactly the useful answers, trimmed and under their provenance, in the order of the results |
| `RlmFanout.CompletionOrderIsInvisible` | src/a2a/rlm.rs:511-587 | partials and steps, latency aside, do not depend on the completion order |
| `Utf8.ValidIff` | src/sessions.rs:669-688 | the byte grammar that every string obeys accepts exactly the encodings of Unicode scalar values (section 3 of RFC 3629) |
| `Utf8.AsciiBoundaries` | src/sessions.rs:510-536 | in valid UTF-8 both ends of an ASCII byte are character boundaries |
| `Utf8.CountIsChars` | src/sessions.rs:539-558 | decoding finds as many characters as there are non-continuation bytes |
| `PromptText.MaskExclusions` | src/sessions.rs:669-688 | for every set of character-aligned ranges the in-place loop turns exactly the bytes inside some range, newlines excepted, into spaces, the text stays valid UTF-8 and no range is refused |
| `PromptText.MaskedValid` | src/sessions.rs:669-688 | blanking aligned ranges keeps the text valid UTF-8 |
| `PromptText.MaskedKeeps` | src/sessions.rs:666-688 | a covered byte other than a newline becomes a space and every other byte stays; a non-blank boundary of the masked text is a boundary of the original |
| `PromptText.CutMeans` | src/sessions.rs:507-527 | a cut is a full stop, exclamation mark, question mark or newline after an even number of back-ticks, and nothing else |
| `PromptText.SplitSentences` | src/sessions.rs:510-536 | the loop returns exactly the pieces that are not blank, in order |
| `PromptText.PiecesTile` | src/sessions.rs:510-536 | the pieces are adjacent, start at the beginning, reach the end, and each but the last ends at a cut |
| `PromptText.NoCutInside` | src/sessions.rs:514-527 | no piece contains a sentence mark outside back-ticks before its last byte |
| `PromptText.PiecesConcatenate` | src/sessions.rs:510-536 | the raw pieces concatenate back to the text |
| `PromptText.PieceBoundaries` | src/sessions.rs:523-535 | every cut of a valid text is a character boundary |
| `PromptText.WindowExact` | src/sessions.rs:539-558 | the window panics exactly when the position is inside a character; otherwise it lies on boundaries and holds min(window, available) characters on each side |
| `PromptText.ForwardDecodes` | src/sessions.rs:547-556 | walking forward over character starts is decoding character by character |
| `PromptText.CueWindowsAreSafe` | src/sessions.rs:692-720 | a cue found at a non-blank character of a sentence of the masked prompt is a boundary of the original prompt, and its window never panics |
| `Mandates.MandateStore.UpsertMandate` | src/sessions.rs:1072-1103 | inserts or reinforces the row of the case-folded key and returns its id |
| `Mandates.MandateStore.SelectNear` | src/sessions.rs:1156-1199 | selects exactly the active near duplicates of the session and polarity other than the keeper |
| `Mandates.MandateStore.MarkSuperseded` | src/sessions.rs:1201-1210 | exactly the rows with the selected ids become superseded, whatever became of them meanwhile |
| `Mandates.MandateStore.RetireMandate` | src/sessions.rs:1254-1264 | the row becomes retired if it exists and no other row changes |
| `Mandates.MandateStore.PromoteMandate` | src/sessions.rs:1304-1411 | answers and updates as specified in all five outcomes; a refused promotion changes nothing |
| `Mandates.StepSafe` | src/sessions.rs:1072-1411 | every step keeps one row per key, one durable row per source, durable text equal to its source's, and undoes nothing |
| `Mandates.RunSafe` | src/sessions.rs:1072-1411 | over every run and interleaving these hold, a row that left `active` never returns, one that left it without a durable row never gets one, scope and project of a durable row never change and its file path is written once |
| `Mandates.DurableIffPromoted` | src/sessions.rs:1304-1411 | a mandate is durable if and only if some promotion of it succeeded earlier in the run |
| `Mandates.PromotedRow` | src/sessions.rs:1311-1411 | a successful promotion leaves one durable row with the requested scope, project and file and the mandate's own polarity and wording, its target if new, and changes nothing of the mandate but its status |
| `Mandates.PromotionIsStable` | src/sessions.rs:1295-1363 | after a promotion, any later promotion succeeds if and only if scope, project and file agree, returns the same durable id and restores the status |
| `Mandates.AgreementKeptIff` | src/sessions.rs:1201-1264 | a step from an agreeing state keeps status and durable table in agreement if and only if it does not retire or mark a durable mandate |
| `Mandates.AgreesThroughoutIff` | src/sessions.rs:1141-1411 | over every run status and durable table agree at every point if and only if no step of the run does that |
| `Mandates.PromotedIffNotOverwritten` | src/sessions.rs:1141-1411 | over every run a mandate's status is promoted if and only if a promotion of it succeeded and no later step retired or marked it |
| `Mandates.UninterruptedMarkingIsSafe` | src/sessions.rs:1141-1210 | marking near duplicates never touches a durable mandate when nothing comes between its two statements |
| `Mandates.InterruptedMarkingClobbers` | src/sessions.rs:1156-1210 | whenever a selected mandate is promoted in between, it ends superseded and durable |
| `Mandates.RowsSumTheirHistory` | src/sessions.rs:1072-1093 | over every run a key has a row if and only if it was upserted, with the exact count, first wording, last prompt, strongest salience and tier, and last given target and directory of its upserts |
| `Mandates.UpsertInserts` | src/sessions.rs:1072-1093 | without a row of that session, polarity and case-folded wording an upsert adds an active one with count 1 and changes nothing else |
| `Mandates.UpsertReinforces` | src/sessions.rs:1079-1093 | with one, it raises that row's count, keeps its status and changes no other row |
| `Mandates.MarkingMeans` | src/sessions.rs:1141-1210 | marking near duplicates supersedes exactly the active mandates of that session and polarity, other than the keeper, with a near but not case-insensitively equal wording |
| `Mandates.PromotionAnswers` | src/sessions.rs:1304-1375 | the exact condition of each of the five outcomes of a promotion |
| `Mandates.PromotionTouchesOnly` | src/sessions.rs:1322-1411 | a refused promotion changes nothing, a granted one only that mandate and its own durable row |
| `Promotion.PracticeStore.RecordOutcome` | src/a2a/best_practices.rs:198-233 | appends the report unchanged but for a confidence clamped to 0 to 1, gives a new agent the prior 0.5 and changes no other |
| `Promotion.PracticeStore.AgreedGroups` | src/a2a/best_practices.rs:595-611 | returns exactly the qualifying groups |
| `Promotion.QualifiesIffAgreed` | src/a2a/best_practices.rs:595-611 | a group is selected exactly if enough different agents reported that approach, task kind, outcome and project, with enough mean confidence, also when weighted by the mean prior of those that have one |
| `Promotion.InsertedAreJustified` | src/a2a/best_practices.rs:595-652 | every row a pass inserts has such an agreement behind it, and the polarity, scope, project and target of its outcome and project span |
| `Promotion.AgreedBecomeDurable` | src/a2a/best_practices.rs:613-652 | every agreed group that is not mixed has its durable row after a pass |
| `Promotion.RouteReads` | src/a2a/best_practices.rs:90-97 | outcomes map to prefer, avoid and correction, mixed to nothing; enough projects make a workspace row, fewer a row of the group's own project |
| `Promotion.PracticeStore.PromoteAgreed` | src/a2a/best_practices.rs:587-691 | performs one pass over the qualifying groups, counts the inserted rows, each justified by an agreement, and inserts none if and only if the tables are settled |
| `Promotion.PassSafe` | src/a2a/best_practices.rs:613-691 | a pass loses nothing, never inserts a key that exists, and leaves priors between where they were and 1 |
| `Promotion.PassKeys` | src/a2a/best_practices.rs:613-664 | after a pass the durable keys are the old ones and exactly those its groups are routed to |
| `Promotion.QualifiesForever` | src/a2a/best_practices.rs:595-611 | with the ledger unchanged a qualifying group keeps qualifying as priors rise |
| `Promotion.IdleIffSettled` | src/a2a/best_practices.rs:587-691 | a pass changes nothing if and only if every qualifying group has its durable row, in any row order |
| `Promotion.PassesConverge` | src/a2a/best_practices.rs:582-691 | as many passes as there are keys still missing reach a fixed point |
| `Promotion.KeysAtMostGroups` | src/a2a/best_practices.rs:613-640 | there are at most as many such keys as consensus groups |
| `Promotion.RepeatIdleIff` | src/a2a/best_practices.rs:582-586 | repeating a pass changes nothing if and only if the priors its groups will raise lift no group over the thresholds whose key is neither durable nor taken by one of them; the condition speaks only of the tables before the first pass |
| `Promotion.RepeatCanInsert` | src/a2a/best_practices.rs:582-586 | two reports for which the repeated pass does insert a row |
| `Promotion.PriorsAreEarned` | src/a2a/best_practices.rs:653-668 | a pass raises a prior by exactly 0.05 for each row it inserted to which the agent contributed, capped at 1 |
| `Promotion.CreditedIff` | src/a2a/best_practices.rs:653-664 | an agent is credited with a row exactly if it reported on its approach and task kind |
| `Promotion.PassForeseen` | src/a2a/best_practices.rs:613-691 | a pass inserts one row for the first group of each key not yet durable and leaves the priors those rows earn, all told from the tables and groups before it |
| `Promotion.RunSafe` | src/a2a/best_practices.rs:142-233 | over every mix of reports and passes no key is promoted twice, priors stay in range and never fall, and nothing is lost |
| `TaskEvents.EmittedNumbers` | src/a2a/dispatcher.rs:643-675 | an event appended with max+1 is the given one, numbered next, from 0 without gaps |
| `TaskEvents.FreshIsTail` | src/a2a/sse.rs:66-73 | reading past the last seen number gives exactly the unseen tail |
| `TaskEvents.PollMeans` | src/a2a/sse.rs:59-99 | a poll ends the stream exactly after a final event, the timeout or a failed query; otherwise it sends the unseen rows, or a heartbeat when there are none |
| `TaskEvents.PollCatchesUp` | src/a2a/sse.rs:59-99 | a successful poll of an open stream brings the subscriber level with the log, and ends the stream if and only if the log holds a final event |
| `TaskEvents.StreamIsFaithful` | src/a2a/sse.rs:53-101 | under every interleaving of appends and polls, timeouts and failures, the received batches concatenate to a prefix of the log without gap or repeat, and the stream stops at the first batch with a final event |
| `TaskEvents.TaskDb.SetState` | src/a2a/dispatcher.rs:602-641 | appends exactly one status event of its own, and stores the state unless a canceller marks the task meanwhile |
| `TaskEvents.TaskDb.EmitFinal` | src/a2a/dispatcher.rs:643-675 | appends exactly one final event of its own, and leaves the state unless a canceller marks the task meanwhile |
| `TaskEvents.TaskDb.Yield` | src/a2a/dispatcher.rs:544-567 | cancellers add only status events, and the task is canceled afterwards exactly if it was or one of them marked it |
| `TaskEvents.TaskDb.AbortRound` | src/a2a/dispatcher.rs:141-178 | a task abandoned between rounds ends canceled with one final event, and one status event only when the fleet was halted |
| `TaskEvents.RoundsKeepRequest` | src/a2a/dispatcher.rs:56-59 | the requested number of rounds counts from 1 to 10, and one is run when none is given |
| `TaskEvents.OutputsChain` | src/a2a/dispatcher.rs:180-204 | the first round gets the original text and each later one the text with the previous output; the outputs end early only in a round that fails |
| `TaskEvents.TaskDb.RunRound` | src/a2a/dispatcher.rs:139-205 | a round is abandoned if and only if the fleet is halted or the task is marked at its check; otherwise it runs the skill on the chained prompt |
| `TaskEvents.TaskDb.RunRounds` | src/a2a/dispatcher.rs:130-205 | the loop stores one artifact per completed round, each from the previous output, and stops exactly before the first round whose check aborts, in the first round whose skill fails, or after the last |
| `TaskEvents.TaskDb.FinishRlm` | src/a2a/dispatcher.rs:103-128 | a recursion answer completes the task with that answer stored and returned, an error fails it with its message, each with one status and one final event |
| `TaskEvents.TaskDb.FinishRounds` | src/a2a/dispatcher.rs:206-272 | a late cancellation is honoured if and only if no round failed; otherwise the task completes with the last output or fails with the error |
| `TaskEvents.StopDecides` | src/a2a/dispatcher.rs:130-272 | the round in which the rounds stop decides between the three outcomes, and no two outcomes hold together |
| `TaskEvents.TaskDb.Refine` | src/a2a/dispatcher.rs:130-272 | the rounds and what follows them end as decided from outside, with one final event and at most one status event |
| `TaskEvents.TaskDb.CreateAndStart` | src/a2a/dispatcher.rs:53-273 | the result is canceled, completed or failed exactly as halts, marks and skill results from outside decide; every exit that created the task appends exactly one final event, as the runner's last; the stored state, outputs, answer and error are those of that course |
| `TaskEvents.CancelHonouredIff` | src/a2a/dispatcher.rs:206-223 | without a fleet halt a task that carries no recursion ends canceled if and only if some mark lands before the check of the round after the last good one, or while a good round runs |
| `TaskEvents.CancelLostInFailingRound` | src/a2a/dispatcher.rs:206-255 | a task whose only mark lands while the failing round's skill runs ends and is stored as failed |
| `TaskEvents.OneFinalPerTask` | src/a2a/dispatcher.rs:53-273 | the log of such a task, cancellers included, holds exactly one final event |
| `Mailbox.MailboxStore.RecordReceipt` | src/a2a/mailbox_store.rs:119-151 | inserts or coalesces the receipt of one message and session; without a session it always inserts |
| `Mailbox.RecordMeans` | src/a2a/mailbox_store.rs:119-151 | a receipt call leaves the session's receipt delivered, read or acked as far as the mark says, each stamp at its first time, and no other receipt changed |
| `Mailbox.MailboxStore.PendingUndelivered` | src/a2a/mailbox_store.rs:156-184 | returns the oldest `limit` undelivered messages |
| `Mailbox.MailboxStore.RenderAndDeliver` | src/a2a/delivery.rs:28-77 | renders exactly those messages in order, stamps each, and renders no block when there are none |
| `Mailbox.RenderedIsDue` | src/a2a/delivery.rs:28-77 | what is rendered is for the recipient and unexpired, and afterwards stamped delivered to its session |
| `Mailbox.RecordedSafely` | src/a2a/mailbox_store.rs:116-151 | one receipt call keeps acked, read and delivered ordered in time and rewrites no stamp |
| `Mailbox.ReceiptsStayOrdered` | src/a2a/mailbox_store.rs:116-151 | so does every run of sends, deliveries, reads and acks |
| `Mailbox.PendingIsUnread` | src/a2a/mailbox_store.rs:79-106 | every pending message is in the unread inbox |
| `Mailbox.DueMeans` | src/a2a/mailbox_store.rs:79-184 | a message is pending, or in the unread inbox, exactly if it has not expired, names the recipient's session, project or agent, and this session has not been stamped delivered, or read |
| `Mailbox.BatchMeans` | src/a2a/mailbox_store.rs:156-184 | the oldest due messages are taken, in order, none passed over, fewer than the limit only if no more are due |
| `Mailbox.InboxDescends` | src/a2a/mailbox_store.rs:79-106 | the inbox lists the newest first |
| `Mailbox.DeliveryConsumes` | src/a2a/delivery.rs:28-77 | a delivery takes exactly its batch off the front of the pending list |
| `Mailbox.RepeatsIff` | src/a2a/delivery.rs:65-75 | two deliveries in a row repeat no message if and only if the recipient has a session |
| `Mailbox.CallsDrain` | src/a2a/delivery.rs:28-77 | with no new messages each call takes `limit` off the pending list, expiry only shortening it |
| `Mailbox.DrainsInEnoughCalls` | src/a2a/delivery.rs:28-77 | n pending messages are gone after ceil(n/limit) calls |
| `Mailbox.RenderedAtMostOnce` | src/a2a/delivery.rs:28-77 | over every run no message is rendered twice to one session |
| `RotatingLog.NamesSortByPeriod` | src/logging.rs:111-121 | zero-padded period names sort as their periods do, daily and hourly names mixed, and determine them |
| `RotatingLog.PeriodTextReads` | src/logging.rs:111-121 | a period's text is YYYY-MM-DD, or YYYY-MM-DD-HH, in decimal digits |
| `RotatingLog.RenamedIsByName` | src/logging.rs:139-145 | renaming by period is renaming by file name: the same file is replaced, or the new one goes to the same place in name order |
| `RotatingLog.RunSorted` | src/logging.rs:139-190 | in every run, whatever rotations are mixed, the rotated files are listed in strict name order |
| `RotatingLog.RotatesIff` | src/logging.rs:111-134 | an appender rotates exactly when the date has changed, or for hourly rotation the date or hour, and never without rotation |
| `RotatingLog.NewestMeans` | src/logging.rs:164-190 | pruning keeps `max_files` files, or all if there are no more, the last in name order |
| `RotatingLog.RotationIsSafe` | src/logging.rs:123-190 | a rename overwrites no rotated file, lands last in name order, and exactly the newest `max_files` remain |
| `RotatingLog.RunInvariant` | src/logging.rs:79-190 | for every run with a non-decreasing clock, any restarts and any `max_files`, the rotated files are in name order, and read in that order and then the live file they are a contiguous suffix of everything logged |
| `RotatingLog.StepLosesOnlyPruned` | src/logging.rs:123-208 | after a log event or restart everything readable before and the new line can be read, less exactly the lines of the oldest files pruned |
| `RotatingLog.RunKeepsEverything` | src/logging.rs:79-208 | over every run with room for its files everything logged can be read back |
| `RotatingLog.SuffixIff` | src/logging.rs:79-190 | this holds for all runs over a set of rotation periods if and only if Daily and Hourly are not both in it |
| `RotatingLog.MixedRotationsMisorder` | src/logging.rs:123-162 | a family of runs, one for every such choice of times and lines, that mixes both and reads back out of order |
| `RotatingLog.Appender.constructor` | src/logging.rs:79-109 | opening sets the current period from the clock and leaves the files alone |
| `RotatingLog.Appender.CleanupOldFiles` | src/logging.rs:164-190 | the loop leaves exactly the newest `max_files` |
| `RotatingLog.Appender.MaybeRotate` | src/logging.rs:123-162 | rotates exactly when the period changed |
| `RotatingLog.Appender.WriteEvent` | src/logging.rs:193-208 | rotates if due and then appends the line to the live file |
| `RotatingLog.Restart` | src/logging.rs:79-109 | a new appender on the same directory continues from its files |
| `TomlMerge.MergeArrays` | src/config.rs:4618-4626 | the loop returns the user's items followed by the missing defaults |
| `TomlMerge.SameIffCanonical` | src/config.rs:4618-4626 | two values are equal exactly if neither holds a NaN and they are the same up to the sign of zero |
| `TomlMerge.MergeTomlValues` | src/config.rs:4605-4630 | the recursive merge with its table loop computes the specified merge |
| `TomlMerge.LookupMerged` | src/config.rs:4605-4630 | what every path of a merged value holds, in terms of both arguments |
| `TomlMerge.AppendMissingGrows` | src/config.rs:4618-4626 | the user's items stay a prefix, and nothing is added if and only if every default is there |
| `TomlMerge.AppendMissingMeans` | src/config.rs:4618-4626 | what is appended are the defaults equal to no user item and no default appended before, in their own order |
| `TomlMerge.MergeUnchangedIff` | src/config.rs:4605-4630 | a merge leaves the user's value as it is if and only if that value absorbs the defaults |
| `TomlMerge.MergeIdempotentIff` | src/config.rs:4605-4630 | merging a value with itself gives it back if and only if no array in it holds a NaN |
| `TomlMerge.UpgradeClosedIff` | src/config.rs:4571-4598 | merging the same defaults again changes nothing, for every user value, if and only if the defaults have no NaN in an array |
| `TomlMerge.DefaultsClosedIff` | src/config.rs:4605-4630 | merging the user's value again changes nothing, for all defaults, if and only if it has no NaN in an array |
| `TomlMerge.ArrayAssociative` | src/config.rs:4618-4626 | array merging is associative, repeated items and NaN included |
| `TomlMerge.MergeAssociativeIff` | src/config.rs:4605-4630 | merging is associative on three values if and only if no common path has the outer two of one container kind and the middle one of another, unless the outer user value already absorbs the outer default there |
| `TomlMerge.LawsFailWithoutTheirConditions` | src/config.rs:4605-4630 | concrete values for which each law fails |
| `TomlMerge.SecondUpgradeChangesNothing` | src/config.rs:4571-4598 | upgrading twice equals upgrading once |
| `TomlMerge.UserScalarsWin` | src/config.rs:4571-4602 | an upgrade keeps every scalar the user has set, at every path |
| `TomlMerge.UserItemsStayInFront` | src/config.rs:4571-4602 | an upgrade keeps the items of every array of the user, in front |
| `TomlMerge.MissingPathsGetDefaults` | src/config.rs:4571-4598 | a path the user does not have gets the default, unless the user's value ends it earlier; without a file all of it is the default |
| `Lifecycle.RegisterIsMaximum` | src/daemon_state.rs:116-130 | in every interleaving the register is the highest phase requested so far |
| `Lifecycle.PhasesInOrder` | src/daemon_state.rs:33-57 | the phases are numbered 0 to 4 in the order the daemon goes through them, and the numbers read back |
| `Lifecycle.RunClimbs` | src/daemon_state.rs:116-130 | the rises are strictly increasing, the last one is the register, and each is sent or outstanding exactly once |
| `Lifecycle.BroadcastOnce` | src/daemon_state.rs:116-130 | no phase is broadcast twice |
| `Lifecycle.BroadcastsMatchRises` | src/daemon_state.rs:116-130 | once no broadcast is outstanding the broadcasts are exactly the rises, the register being the highest |
| `Lifecycle.OrderedIff` | src/daemon_state.rs:116-130 | they came in increasing order if and only if each was the oldest outstanding |
| `Lifecycle.OvertakingReverses` | src/daemon_state.rs:116-130 | whenever a second thread raises the register before the first has broadcast, and broadcasts first, the two phases arrive reversed |
| `Lifecycle.DaemonLifecycle.Transition` | src/daemon_state.rs:116-130 | an uninterrupted call returns the previous phase, and raises the register and broadcasts exactly when the phase is higher |

## Left out

- Claims the code does not make true and the model does not state: the cancel counter as a count of canceled tasks (src/a2a/dispatcher.rs:206-214, 544-567), imperatives of at most 200 characters (src/sessions.rs:608-614), and the verdict of `wait_for` (src/daemon_state.rs:200-212).
- `context_tape` eviction, byte limits and page metadata: the store is a map from address to text.
- A step of the store is one page read or write; the locking below it is not modelled.
- The text of prompts and rendered messages: a reduce prompt is the structured list of what it is built from.
- Abandoned recursive children that time out, task-id reuse, failing database statements, and the `current_round` column.
- The two statements inside one event append are a single step, and so are the statements inside one mandate promotion transaction.
- Regular expressions, cue weights, salience scores, disambiguation gates, scope hints and embeddings: matches are arbitrary aligned ranges.
- What counts as blank text when splitting is a parameter, as are case folding and edit distance for mandates.
- Row ids are positions; gaps that a database sequence leaves are not modelled. Deleting sessions or projects, and the cascades this starts, are outside the model.
- Mailbox.RenderedAtMostOnce: delivery calls do not overlap and each reads one clock value; messages with equal creation times keep their insertion order.
- Promotion.RunSafe: durable rows added by session promotion between two passes, the report counters, the knowledge-graph writes and the optional file write are not modelled; averages are exact rather than 32-bit.
- Promotion.PassesConverge: the ledger does not change between the passes.
- RotatingLog.RunInvariant: years have at most four digits (from the year 10000 on the names no longer sort by time), the directory holds only this appender's files, renames and removals succeed, and one process writes at a time.
- Lifecycle.RegisterIsMaximum: the phase start time and the delivery of a broadcast to its subscribers are not modelled.
- The strategy chooser over trajectories, HTTP and JSON-RPC handling, push notifications, the web interface, command-line parsing, configuration structures and their defaults, GPU code and benchmarks are not part of this model.
