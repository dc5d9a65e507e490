# Temporal trivia: verified model

The repository is a trivia game played on conference badges and run by a
Temporal Workflow. A round deals questions to badges as Activities, keeps
scores, survives badges that crash in the middle of a question, and lets an
operator change the rules while it runs. This project models the parts whose
correctness is not visible in any single function and proves what every run of
them keeps. `dafny verify dfyconfig.toml` verifies it.

## The modules

**The round.** `Round` is the Workflow as a state machine: a timer tick, the
completion of one Activity (in any order), a Signal, or an Update whose
validator and handler run together is one step, and time is an input that never
goes back. An input that is not possible in a state, or that its validator turns
away, changes nothing, so every sequence of inputs is a run. `GameWorkflow` is
the same Workflow as a class that updates its snapshot, deck, maps and slots in
place; each of its methods is proved equal to the state machine's function for
that step, so the theorems of `RoundScores`, `RoundModifiers`, `RoundDeadline`,
`RoundHandoffs`, `RoundSupply`, `RoundReport` and `RoundReplay` are about that
object. `Deck`
holds the question queue and its recycling, `EventWindow` the lossy event
window, `Standings` the naming of winners.

**The badges.** `Heartbeat` is one question's journey between a server with a
15 s heartbeat timer and any number of badges, as a timed interleaving over one
clock. `Session` is what a badge remembers across reboots, `BadgeInput` its
button machine, `BadgeUi` the UI thread around that machine.

**Text, pixels and files.** `Wrap` is the badge's text wrapping and `LongWords` its
cutting of words longer than a line; `Canvas` is the packed framebuffer and
`BadgeLayout` what can be read off the question screen. `Questions` is the deck
builder, `Env` the dotenv reader and `EnvStyles` the ways a setting may be written.
`SeqFacts`, `Decimal`, `Wrappers` and `Whitespace` are shared.

## What the code does that a reader may not expect

- **Repeated reports overcount handoffs.** A question whose two attempts are
  reported again and again in turns is counted as any number of reassignments
  (`RoundHandoffs.RepeatedReportsOvercount`). A badge sends each attempt's report
  once, and then, in whatever order the Signals arrive, `reassignments` plus
  assigned questions stay within `activity_attempts`; `HandoffsCoveredExactly`
  gives the exact condition for every run.
- **Template IDs can collide with recycled ones.** Activity IDs stay unique over
  every run exactly when no template ID repeats or already looks like another one
  with a `-cycle-<n>` suffix (`Deck.UniqueIdsExactlyWhenClean`).
- **A late `end_round` lifts the deadline.** The Update sets the deadline to the
  current time. If it is accepted after the deadline it replaces, before the
  loop has seen that deadline, an extension played afterwards can push the
  deadline past the ceiling that dealt tasks carry
  (`RoundDeadline.LateEndBreaksTheBound`).
- **A failed deal still recycles.** A Rust-only deal that finds no Rust card even
  in the template leaves the deck one template longer and the cycle one higher,
  and no event says so (`Deck.FailedDealGrowsTheDeck`, `SilentRecycleExactly`).
  In every run the cycle is one more than the announced and the silent recycles,
  and a template with a Rust card never recycles silently
  (`RoundSupply.RecyclesAddUp`).
- **A leftover press can answer the next question.** The input loop starts taking
  choices as soon as the new question is sent to the UI thread, and the queue is
  only cleared when that thread applies it
  (`BadgeUiRuns.LeftoverPressIsTaken`; `TakenChoiceAnswersTheAsked` says exactly when).
- **A saved session forgets another game.** A badge that plays another game and
  comes back takes a question it had abandoned (`Session.AnotherGameForgets`).
- **The retry pause is part of the safety margin.** The firmware's compile-time
  check compares the heartbeat budget with the timeout alone. The exact condition
  also counts the server's 250 ms pause before a retry
  (`Heartbeat.SingleHolderExactly`).
- **The handoff's reason is always the same.** A panic leaves "heartbeat timeout" as
  the reason of the next handoff, and a handoff without one falls back to the same
  text, so the board cannot tell a crash from a lost heartbeat
  (`RoundSignals.HandoffsAreMoves`).
- **A variable called `export` cannot have a space after its name.** The dotenv reader
  takes `export =...` for the keyword and refuses the empty name
  (`DotenvStyles.ExportWithSpaceIsRefused`).
- **`fits` does not promise a whole answer.** A 20-character answer can lose its
  last word on the panel as soon as it may hold words of four characters; prompts
  are safe up to words of 13 (`TextWrap.AnswerWordLimit`, `PromptWordLimit`).

## Assumptions

Badges, server and operator share one clock in whole milliseconds. Counters are
unbounded integers; `deck_cycle` and the power-up sequence saturate as in the
source, and the theorems about IDs hold below saturation. Every shuffle is an
arbitrary permutation. In `Heartbeat` a task or an acknowledgement that takes
longer than `latency`, and a heartbeat request that takes longer than
`beatLatency`, is lost; polls are at most `pollGap` apart, counted from the
moment its question arrives; a badge whose `abandon` cannot be saved leaves the
question like any other failed attempt. In `Session` a flash copy that cannot be
read is the default session. `to_lowercase` is an arbitrary function of strings.
A glyph is an arbitrary bit pattern of its size.

## Model

| member | source | states |
|---|---|---|
| GameWorkflows.GameWorkflow.constructor | web/src/workflow.rs:64-100 | the opening snapshot, deck and empty books are the state machine's opening state |
| GameWorkflows.GameWorkflow.TurnLoop | web/src/workflow.rs:117-214 | sweep, fill and the two ways out of the loop, in place, equal one turn of the state machine |
| GameWorkflows.GameWorkflow.FillSlot | web/src/workflow.rs:143-204 | one slot: a deal and its task, or the deck as the failed deal left it |
| GameWorkflows.GameWorkflow.AddSlot | web/src/workflow.rs:154-204 | a dealt card becomes an outstanding task, announced if its deck was just recycled |
| GameWorkflows.GameWorkflow.FillSlots | web/src/workflow.rs:143-205 | the fill loop equals repeated filling up to the target or the first failed deal |
| GameWorkflows.GameWorkflow.CompleteActivity | web/src/workflow.rs:227-251 | one completion frees its slot, records or reports, then ends the round or turns the loop |
| GameWorkflows.GameWorkflow.RecordOutcome | web/src/workflow.rs:229-248 | the slot is freed, then the answer is recorded or the failure noted |
| GameWorkflows.GameWorkflow.ExpireChaos | web/src/workflow.rs:635-650 | exactly the modifiers whose time has come are cleared |
| GameWorkflows.GameWorkflow.RecordAnswer | web/src/workflow.rs:494-558 | malformed answers score nothing; others score the stakes in force, and end the round exactly under sudden death when right |
| GameWorkflows.GameWorkflow.RecordActivityStarted | web/src/workflow.rs:450-491 | a report assigns the question, counts each attempt once and a move between badges as a handoff |
| GameWorkflows.GameWorkflow.BadgeStarted | web/src/workflow.rs:277-301 | the Signal is one step: handoff books first, then the roster |
| GameWorkflows.GameWorkflow.PanicEvent | web/src/workflow.rs:426-448 | a panic leaves its reason, counts against the badge and enrols it |
| GameWorkflows.GameWorkflow.Recovered | web/src/workflow.rs:308-312 | a recovery is noted and changes no counter |
| GameWorkflows.GameWorkflow.RecordReassignment | web/src/workflow.rs:450-479 | a handoff counts once on both counters and uses up the reason a panic left |
| GameWorkflows.GameWorkflow.ApplyChaos | web/src/workflow.rs:316-394 | validator and handler are one step; a rejected command changes nothing |
| GameWorkflows.GameWorkflow.EndRound | web/src/workflow.rs:396-418 | the deadline becomes now, only while running |
| GameWorkflows.GameWorkflow.FinishRound | web/src/workflow.rs:253-254 | outstanding Activities are dropped and the round closes with its winners |
| RoundScores.ScoresAddUp | web/src/workflow.rs:494-570 | in every reachable state right plus wrong answers equal the completed questions, and each score lies between single and double stakes |
| RoundScores.SlotsAddUp | web/src/workflow.rs:203-248 | in every reachable state scheduled = outstanding + completed + closed without score + cancelled, and outstanding never exceeds the target |
| RoundAnswers.ScoreTableIsTheHistory | web/src/workflow.rs:494-568 | in every run each row is the record of the inputs: on the table once an input spoke for the badge, under the callsign first given, with right and wrong answers, score and panics counted answer by answer |
| RoundAnswers.AnswersAddUp | web/src/workflow.rs:494-558 | the correct answers are the completions taken that picked the correct index, the completed questions those and the wrong ones |
| RoundAnswers.AnswerScores | web/src/workflow.rs:510-568 | picking the correct index earns the stake and any other costs it, two points exactly while double points has time left; no other row changes, and the spotlight agrees |
| RoundAnswers.OthersScoreNothing | web/src/workflow.rs:500-509 | a malformed answer or any other input scores nothing |
| RoundReport.PanicsAddUp | web/src/workflow.rs:426-448 | in every reachable state the panics of all players are the panic Signals the round took in |
| RoundReport.WinnersAddUp | web/src/workflow.rs:253-254 | a finished round carries the winners of its score table |
| RoundReport.MemoMatchesCounters | web/src/model.rs:26-52 | the memo reports the completed answers, a crash for every panic Signal, an attempt for every distinct pair reported, as many timeouts as handoffs, and of a finished round its winners |
| RoundModifiers.ModifiersExclude | web/src/workflow.rs:316-368 | in every reachable state at most one of double points, Rust-only and sudden death is set, and a set one was alive at the last sweep |
| RoundModifiers.ValidatorSeesEveryModifier | web/src/workflow.rs:316-338 | although it only knows the last sweep, the validator accepts a modifier exactly while the round runs and none is set |
| RoundModifiers.SuddenDeathEndsTheRound | web/src/workflow.rs:230-238 | after sudden death at most one more correct answer is recorded over any continuation, and then the round is finished |
| RoundModifiers.FinishedIsFinal | web/src/workflow.rs:253-274 | a finished round no longer changes, whatever arrives |
| RoundPowerups.AppliesExactly | web/src/workflow.rs:316-337 | the validators let a card through exactly while running with no modifier set, and the extension exactly while unused |
| RoundPowerups.ModifierIsHistory | web/src/workflow.rs:340-392 | double points or Rust-only is set to end at a time exactly if its card was taken ten seconds before and no turn of the loop came at or after that time |
| RoundPowerups.FlagsAreHistory | web/src/workflow.rs:340-392 | sudden death is set, and the extension used, exactly if its card was taken |
| RoundPowerups.ExtendsOnce | web/src/workflow.rs:316-328 | the extension is taken at most once a round |
| RoundPowerups.DeadlineIsHistory | web/src/workflow.rs:340-417 | from any point not followed by an early end the deadline moves by thirty seconds exactly if the extension was taken since |
| RoundPowerups.DeadlineOfTheRound | web/src/workflow.rs:66-68 | a round not ended early lasts its duration, and thirty seconds more exactly if the extension was taken |
| RoundPowerups.NoticesAreNumbered | web/src/workflow.rs:380-392 | the notice number counts the cards taken, up to saturation |
| RoundPowerups.NoticeNamesTheLast | web/src/workflow.rs:380-392 | the notice names the card taken last, and when |
| RoundDeadline.StepKeepsDeadline | web/src/workflow.rs:369-418 | a step keeps the deadline within what the unused extension leaves exactly when it is not a late end of the round |
| RoundDeadline.DeadlineBounded | web/src/workflow.rs:66-67 | in every run without a late end the deadline is at most start + duration + 30 s |
| RoundDeadline.LateEndBreaksTheBound | web/src/workflow.rs:408-418 | the condition is exact: ending now and extending afterwards stays within the bound if and only if the end was not late |
| RoundDeadline.EndBeforeDeadlineIsTimely | web/src/workflow.rs:408-418 | ending no later than the deadline that is replaced is never late |
| RoundDeadline.TasksOutliveTheDeadline | shared/src/contract.rs:83-87 | no outstanding task's latest possible deadline is below the Workflow's deadline, whatever happened since it was dealt |
| RoundDeadline.TimeoutOutlastsTheDeadline | web/src/workflow.rs:114-178 | an Activity dealt at any moment is closed by its own timeout only after every deadline the rest of the run can set |
| RoundEnd.TurnEndsExactly | web/src/workflow.rs:117-128 | in every run a turn of the loop ends the round exactly when its deadline has come or it takes a correct answer under sudden death; the end leaves nothing outstanding and puts no question out |
| RoundEnd.OnlyTurnsEnd | web/src/workflow.rs:117-128 | no other input ends a round or deals |
| RoundEnd.RoundBegins | web/src/workflow.rs:117-128 | a round gets past its opening turn exactly when it has a question and time to play |
| RoundEnd.EndRoundFinishes | web/src/workflow.rs:408-417 | the first turn after an accepted `end_round` finishes the round, unless the extension came in between |
| RoundHandoffs.KeyInjective | web/src/workflow.rs:480-491 | the question:attempt key determines both parts |
| RoundHandoffs.HandoffsAddUp | web/src/workflow.rs:450-491 | in every run attempts count distinct reported pairs, reassignments equal heartbeat timeouts and assigned questions are those reported; with attempts in order, or none reported twice, they cover reassignments plus assigned questions |
| RoundHandoffs.HandoffsCoveredExactly | web/src/workflow.rs:450-491 | in every run attempts plus stale moves equal reassignments plus assigned questions plus quiet retries, so attempts cover handoffs if and only if stale moves are at most quiet retries |
| RoundHandoffs.RepeatedReportsOvercount | web/src/workflow.rs:450-491 | for any n a run, from any round still going after its first turn, that counts n reassignments on two attempts |
| RoundSignals.HandoffsAreMoves | web/src/workflow.rs:450-491 | handoffs are the reports that name another badge and a later attempt than the last report on their question; the board shows the last of them, always with the same reason |
| RoundSignals.ReasonsAreUsedOnce | web/src/workflow.rs:426-462 | a reason waits exactly between a panic and the next handoff of its question |
| RoundSignals.FailureIsTheLastPanic | web/src/workflow.rs:426-447 | the board shows the crash signalled last |
| RoundStory.WindowShowsTheStory | web/src/workflow.rs:60-491 | in every run the board is the event window of the whole story: which events each input adds, and in which order |
| RoundSupply.EveryActivityIdIsFresh | web/src/workflow.rs:172-204 | over every run cards are conserved, and from a clean template no ID is dealt twice and no two live Activities share one |
| RoundSupply.NoStarvation | web/src/workflow.rs:136-153 | with the patch, after every fill pass every slot is taken or no eligible card exists in deck or template |
| RoundSupply.OpeningFills | web/src/workflow.rs:136-153 | the same after the opening turn |
| RoundSupply.RecyclesAddUp | web/src/workflow.rs:144-160 | in every reachable state the cycle is one more than the recycles announced and the silent ones, of which a template with a Rust card has none |
| RoundSupply.TurnRecycles | web/src/workflow.rs:144-160 | a turn recycles silently only while Rust-only is in force or the template is empty |
| RoundSupply.DeckNeverExhausted | web/src/workflow.rs:207-214 | with questions to play the exhausted exit is never taken by a tick or after a completion, with or without the patch |
| RoundSupply.OpeningNotExhausted | web/src/workflow.rs:207-214 | nor by the opening turn |
| RoundDealing.TurnAssignsWhatItDeals | web/src/workflow.rs:143-205 | a turn hands each card it deals to one task of this round with the deadline in force, in order, behind the tasks outstanding; under Rust-only the cards are all Rust |
| RoundDealing.EverySlotIsFilled | web/src/workflow.rs:136-205 | with the refill patch a turn leaves as many questions out as the operator set, or one for every badge, unless Rust-only asks for cards the template lacks |
| RoundDealing.FirstSlotsAreFilled | web/src/workflow.rs:136-205 | so does the opening turn |
| RoundDealing.RoundDealsInOrder | web/src/workflow.rs:660-711 | without Rust-only a round deals the template as it stands and then each cycle in its order |
| RoundReplay.PatchReplays | web/src/workflow.rs:64-65 | runs in which Rust-only is never accepted are the same runs with the patch on or off |
| Deck.QuestionDeck.TakeNext | web/src/workflow.rs:684-693 | takes the first card, or the first Rust card |
| Deck.QuestionDeck.DealQuestion | web/src/workflow.rs:660-682 | deals, or recycles once and deals, before and after the patch |
| Deck.TakeIsEligible | web/src/workflow.rs:684-693 | a card is taken exactly when an eligible one is there, it is eligible, and a miss leaves the deck alone |
| Deck.RefillIsTemplate | web/src/workflow.rs:695-711 | a recycled deck is the template's cards, each once, relabelled, in another order |
| Deck.DealConserves | web/src/workflow.rs:660-682 | one deal moves one card and creates at most one cycle's copy |
| Deck.RunConserves | web/src/workflow.rs:660-711 | over any run of deals dealt plus undealt cards are the template plus one suffixed copy for each cycle from 2 |
| Deck.DealFailsOnlyWithoutCards | web/src/workflow.rs:660-682 | with the patch a deal fails exactly when neither deck nor template holds an eligible card |
| Deck.DealFailsEmptyHanded | web/src/workflow.rs:660-682 | and the deck such a deal leaves holds no eligible card |
| Deck.FailedDealLeavesCards | web/src/workflow.rs:660-682 | a failed deal from a non-empty template never leaves the deck empty |
| Deck.PrePatchFailsExactly | web/src/workflow.rs:660-682 | before the patch a deal fails exactly when the deck has no eligible card and is non-empty or has no eligible card in the template either |
| Deck.PrePatchStarves | web/src/workflow.rs:660-682 | on a deck of other cards the old deal comes to nothing, and the new one serves exactly if the template has a Rust card |
| Deck.FailedDealGrowsTheDeck | web/src/workflow.rs:660-682 | a failed deal that recycled leaves the deck one template longer and the cycle one higher up to saturation; otherwise nothing changed |
| Deck.SilentRecycleExactly | web/src/workflow.rs:660-682 | the cycle moves without a card exactly when a deck below saturation without an eligible card is recycled from a non-empty template without one |
| Deck.PatchIsInvisible | web/src/workflow.rs:660-682 | without Rust-only the patch changes no deal |
| Deck.UniqueIdsExactlyWhenClean | web/src/workflow.rs:695-711 | no run of deals below saturation repeats an ID, if and only if template IDs are distinct and none is another one with a cycle suffix |
| Deck.CleanDeckUnique | web/src/workflow.rs:695-711 | a clean template's cards have distinct IDs over all cycles |
| DeckOrder.RefillInPlace | web/src/workflow.rs:695-711 | card j of cycle c is template card (97c + j) mod n, or counted from the end when c is even, under its suffixed ID |
| DeckOrder.DealServesFirst | web/src/workflow.rs:660-693 | a deal serves the first card wanted, from the deck or else from the next cycle behind it, and the others keep their order |
| DeckOrder.NthCardDealt | web/src/workflow.rs:660-711 | without Rust-only the k-th card dealt is given by a formula; the first ones are the template in order |
| EventWindow.ClosedForm | shared/src/contract.rs:263-277 | after any history the window is its last min(24, n) non-answers and its last answers that still fit, in arrival order |
| EventWindow.AnswersNeverEvictTheStory | shared/src/contract.rs:263-277 | a non-answer stays until 24 newer non-answers exist, however many answers arrive |
| GameSnapshots.GameSnapshot.PushKind | shared/src/contract.rs:263-277 | the append-and-evict loop equals one push of the window |
| GameSnapshots.GameSnapshot.Finish | shared/src/contract.rs:288-310 | the round closes with exactly the winners, and one last event |
| Standings.NameWinners | shared/src/contract.rs:288-310 | every callsign on the top score, as often as badges carry it, sorted |
| Standings.WinnersAreUnique | shared/src/contract.rs:288-310 | the winners' list is determined by the score table alone |
| Standings.EmptyRosterOnly | shared/src/contract.rs:288-310 | there is no winner exactly when nobody joined |
| Standings.WinnersNameTheTop | shared/src/contract.rs:288-310 | a name wins exactly when some badge on the top score carries it |
| Heartbeat.SingleHolder | firmware/src/main.rs:449-508 | within the bound, in every interleaving at most one badge waits on the question |
| Heartbeat.TwoHolders | firmware/src/main.rs:449-508 | beyond the bound two badges can wait on it together |
| Heartbeat.SingleHolderExactly | shared/src/contract.rs:22-55 | single holder in every interleaving if and only if latency + poll gap is at most timeout - budget + retry pause |
| Heartbeat.TwentyMillisecondPollIsSafe | firmware/src/main.rs:507-507 | with the badge's 20 ms poll any delay below timeout - budget - 20 ms is safe |
| Heartbeat.AbandonedNeverWaits | firmware/src/main.rs:296-310 | a badge that abandoned the question never waits on it again |
| Heartbeat.BlackoutOutlastsTimeoutExactly | shared/src/contract.rs:25-47 | the crash blackout outlasts the server's timer in every interleaving if and only if a heartbeat takes at most their difference |
| HeartbeatReports.ReportsTellTheTruth | firmware/src/main.rs:339-414 | in every interleaving an attempt whose answer press counted is never reported as failed, one whose crash press counted never as done, and only an answered one is reported as done |
| HeartbeatReports.AnswerIsOnItsWay | firmware/src/main.rs:350-373 | an answered attempt is in its feedback, reported as done or received as done, and its failure is never received |
| HeartbeatReports.AnswerClosesTheQuestion | web/src/workflow.rs:228-238 | once the report of an answered attempt reaches a server that still has it in flight, the question is closed and never handed out again |
| HeartbeatReports.NoAttemptIsLost | firmware/src/main.rs:296-414 | every attempt handed out is on its way, with a badge or reported |
| HeartbeatReports.ClosedExactly | web/src/workflow.rs:228-253 | the question is closed exactly if the Workflow let it go or the attempt in flight was reported as done |
| HeartbeatReports.LostAttemptIsRetried | web/src/workflow.rs:178-193 | an attempt reported as failed or timed out is handed out as the next one, to any badge, exactly from 250 ms on |
| HeartbeatReports.TimeoutMeansSilence | shared/src/contract.rs:22-55 | the timer takes an attempt away only 15 s after its dispatch and its last received heartbeat |
| HeartbeatReports.BeatIsAnswered | firmware/src/main.rs:514-560 | a heartbeat is acknowledged exactly while its attempt is in flight, and answered with a stop otherwise |
| HeartbeatReports.StopsAreStale | firmware/src/main.rs:534-558 | no stop is ever out for the attempt in flight |
| HeartbeatReports.CrashIsHonoured | firmware/src/main.rs:375-413 | after a crash the badge never waits on the question again, never reports it as done, and reports nothing for 16 s |
| HeartbeatReports.AbandonedOnlyByCrash | firmware/src/main.rs:296-310 | a badge refuses the question exactly if it crashed on it |
| Session.SessionStore.BeginGame | firmware/src/session.rs:36-59 | flash first, then the working copy; a failed save changes neither |
| Session.SessionStore.Abandon | firmware/src/session.rs:74-92 | the same for the abandoned list |
| Session.SessionStore.IsAbandoned | firmware/src/session.rs:61-72 | reads the working copy, for the current game only |
| Session.SessionStore.Reboot | firmware/src/session.rs:95-110 | a boot takes the flash copy as the working copy |
| Session.CopiesAgree | firmware/src/session.rs:36-92 | after any run, failed saves and reboots included, both copies agree and a held question is of the session's game and not abandoned |
| Session.AbandonRecordsExactly | firmware/src/session.rs:74-92 | a successful abandon records the question exactly if the session is on its game |
| Session.PanicAbandons | firmware/src/main.rs:375-380 | a panic whose save succeeds abandons the question it was made on |
| Session.AbandonedMeansRefused | firmware/src/main.rs:296-329 | once abandoned, no further answer to that question leaves the badge while the session stays on the game |
| Session.AnotherGameForgets | firmware/src/session.rs:36-59 | another game in between erases the list, and the question is taken again |
| Session.RecordLostExactly | firmware/src/session.rs:36-59 | a step loses the record of an abandoned question exactly when, with nothing in hand, another game is assigned and its session saved |
| Session.DeadlineOnlyExtends | firmware/src/session.rs:36-59 | within a game the stored deadline never falls and the abandoned list is kept |
| BadgeInput.OutputMeans | badge-input/src/lib.rs:140-202 | every output over every sample sequence, said from the samples alone |
| BadgeInput.SuppressedSince | badge-input/src/lib.rs:140-176 | suppressed means an overlay or a live hold that spanned the threshold, with no all-up sample since |
| BadgeInput.PanicExactly | badge-input/src/lib.rs:140-176 | a crash is emitted exactly at the first sample where an unbroken, unsuppressed left+right hold spans the threshold |
| BadgeInput.PanicsAreSeparated | badge-input/src/lib.rs:140-176 | between two crashes every button was up, with no overlay |
| BadgeInput.AnswerGestureAnswers | badge-input/src/lib.rs:37-70 | from any state, after an all-up sample, the gesture makes exactly its answer |
| BadgeInput.CrashGestureExactly | badge-input/src/lib.rs:73-82 | the injected crash gesture reads as a crash exactly when its frames span the threshold, and never as an answer |
| BadgeUi.UiThread.Apply | firmware/src/ui.rs:451-555 | what each request does to screen, overlay, buttons, queue and the shared flag |
| BadgeUi.UiThread.AdvanceButtons | firmware/src/ui.rs:365-382 | the button machine runs only on a question; a ninth choice displaces the oldest |
| BadgeUi.UiThread.ExpireOverlay | firmware/src/ui.rs:434-439 | the overlay ends exactly when its time has come |
| BadgeUi.UiThread.AdvanceSleep | firmware/src/ui.rs:385-412 | the sleep gesture's timestamp and verdict |
| BadgeUi.UiThread.Turn | firmware/src/ui.rs:345-348 | overlay, buttons and sleep in one turn |
| BadgeUi.UiThread.NextChoice | firmware/src/ui.rs:166-168 | takes the oldest queued choice |
| BadgeUiRuns.QueuedChoicesAreCurrent | firmware/src/ui.rs:365-382 | in every interleaving at most eight choices queue, each recognised under the question applied last, with no overlay, after every button had been up under it |
| BadgeUiRuns.AnsweringIsTheScreen | firmware/src/ui.rs:551-554 | in every interleaving the shared flag tells whether a question is on the screen |
| BadgeUiRuns.TakenChoiceAnswersTheAsked | firmware/src/main.rs:324-487 | the oldest queued choice was made on the question last sent exactly when no other question waits in the inbox |
| BadgeUiRuns.LeftoverPressIsTaken | firmware/src/main.rs:324-487 | a run in which a press on one question is there to be taken for the next |
| BadgeUiRuns.SleepsExactly | firmware/src/ui.rs:385-412 | deep sleep is entered exactly at a turn that ends at least 3 s of turns all idle, overlay-free and with DOWN held |
| BadgeUiScreen.InboxIsFifo | firmware/src/ui.rs:331-341 | requests are applied in the order sent and none is lost |
| BadgeUiScreen.ScreenExactly | firmware/src/ui.rs:451-555 | a question is on the screen exactly if it was applied and no other question, status, feedback, crash or recovery after it |
| BadgeUiScreen.OverlayExactly | firmware/src/ui.rs:434-536 | an overlay is up until a time exactly if the last power-up was applied 1.5 s before it and no turn came at or after it |
| BadgeUiScreen.QueueIsTheLatest | firmware/src/ui.rs:365-382 | the queue holds the latest choices recognised on the question, all or the last eight while none was taken |
| TextWrap.Wrap | badge-screen/src/lib.rs:461-502 | the nested loops terminate and compute the wrapping function |
| TextWrap.WrapKeepsTheBudgets | badge-screen/src/lib.rs:461-502 | at most the allowed lines, none longer than allowed |
| TextWrap.WrapShowsAPrefix | badge-screen/src/lib.rs:461-502 | the lines spell a prefix of the text without its spaces, and all of it when fewer lines come back than allowed |
| TextWrap.WholeExactly | badge-screen/src/lib.rs:461-502 | with no word to cut, every letter is shown exactly when every word is, unbroken and in order, and exactly when greedy filling stays within the lines |
| TextWrap.WrapIsOptimal | badge-screen/src/lib.rs:461-502 | everything is shown exactly when there is any way at all to write the words on that many lines of that width |
| TextWrap.ShortTextsAreWhole | badge-screen/src/lib.rs:461-502 | for any width, number of lines and word limit: texts below the least length that can overflow are shown whole |
| TextWrap.PromptWordLimit | web/src/questions.rs:11-11 | all prompts of up to 68 characters are whole in 3 lines of 31 if and only if words are limited to 13 |
| TextWrap.AnswerWordLimit | web/src/questions.rs:12-12 | all answers of up to 20 characters are whole in 2 lines of 11 if and only if words are limited to 3 |
| LongWords.WrapCutsIntoPieces | badge-screen/src/lib.rs:461-502 | wrapping any text is wrapping the pieces of its words: full lines and a rest |
| LongWords.ShownExactly | badge-screen/src/lib.rs:461-502 | for every text, everything is shown exactly when greedy filling with the pieces fits, and exactly when some page holds them |
| LongWords.LoneWordExactly | badge-screen/src/lib.rs:465-489 | a word alone is shown whole exactly when it is no longer than all lines together |
| LongWords.CutLinesAreFull | badge-screen/src/lib.rs:479-489 | a line that ends inside a word is full |
| Canvases.Canvas.SetPixel | badge-screen/src/lib.rs:150-154 | lights exactly one point of the panel, or none outside it |
| Canvases.Canvas.Lit | badge-screen/src/lib.rs:143-148 | reads exactly the points lit |
| Canvases.Canvas.Clear | badge-screen/src/lib.rs:136-138 | no point is lit |
| Canvases.Canvas.HLine | badge-screen/src/lib.rs:392-396 | adds the points of a line, ends included |
| Canvases.Canvas.Frame | badge-screen/src/lib.rs:398-415 | adds a rectangle's outline with its corners cut |
| Canvases.Canvas.DrawText | badge-screen/src/lib.rs:316-324 | adds the full-size glyphs that fit, and begins none that does not |
| Canvases.Canvas.DrawGlyph | badge-screen/src/lib.rs:368-376 | adds the set bits of five columns of seven |
| Canvases.Canvas.DrawCompactGlyph | badge-screen/src/lib.rs:382-390 | adds the set bits of five rows of three |
| Canvases.Canvas.ButtonGlyph | badge-screen/src/lib.rs:423-438 | adds the set bits of ten rows of ten |
| Canvases.Canvas.DrawCompactText | badge-screen/src/lib.rs:346-354 | adds the compact glyphs that fit, and begins none that does not |
| Canvases.Canvas.DrawWrapped | badge-screen/src/lib.rs:356-367 | adds the compact glyphs of the wrapped lines |
| Canvases.Canvas.AnswerPanel | badge-screen/src/lib.rs:417-421 | adds frame, button picture and wrapped caption |
| Canvases.Canvas.Header | badge-screen/src/lib.rs:298-301 | adds the callsign and the rule under it |
| Canvases.Canvas.Question | badge-screen/src/lib.rs:215-225 | whatever was shown before, exactly the question screen's points are lit |
| Pixels.RowWordBit | badge-screen/src/lib.rs:430-438 | a bit of a button row is the bit of the low or the high byte |
| BadgeLayout.RegionsApart | badge-screen/src/lib.rs:215-225 | header, prompt and four panels are disjoint rectangles on the panel |
| BadgeLayout.ElementsStay | badge-screen/src/lib.rs:215-225 | for every callsign, prompt and answers each element draws only inside its rectangle |
| BadgeLayout.RegionsAreSeparate | badge-screen/src/lib.rs:215-225 | nothing is clipped, and inside a rectangle only its own element shows |
| BadgeLayout.PanelPartsApart | badge-screen/src/lib.rs:417-421 | inside a panel frame, button and caption keep apart |
| BadgeLayout.CaptionReadsBack | badge-screen/src/lib.rs:346-421 | every dot of every character of a wrapped answer can be read off the screen |
| BadgeLayout.PromptReadsBack | badge-screen/src/lib.rs:215-219 | the same for the wrapped prompt |
| BadgeLayout.ButtonReadsBack | badge-screen/src/lib.rs:423-438 | the picture in a panel is, dot by dot, that of the button whose press gives its answer |
| BadgeLayout.PanelsLieLikeButtons | badge-screen/src/lib.rs:221-225 | the panels lie as the buttons do, top and right above, left and down below, in two columns |
| BadgeLayout.HeaderReadsBack | badge-screen/src/lib.rs:298-301 | every dot of every callsign character that fits can be read off, and the rule spans the panel |
| BadgeLayout.OutlineReadsBack | badge-screen/src/lib.rs:398-415 | outside button and caption a panel shows its outline with cut corners and nothing else |
| Questions.ValidateQuestions | web/src/questions.rs:197-212 | accepts exactly the lists of playable questions without a repeated ID or prompt, and names the first that breaks the rules and the rule it breaks |
| Questions.Shuffle | web/src/questions.rs:32-34 | whatever the choices, a permutation |
| Questions.ShuffleAnswers | web/src/questions.rs:84-99 | keeps the answers and the correct answer's text, at its first place; fails exactly on an index past the answers |
| Questions.DrawBatch | web/src/questions.rs:38-57 | a batch holds each bucket's quota while it lasts, or as many as there is room for, earlier buckets first |
| Questions.SharesAreDetermined | web/src/questions.rs:35-57 | for every deck size there is only one way to share it among the buckets |
| Questions.ShippedShares | web/src/main.rs:78-78 | the shipped 150 questions are 60, 30, 20 and 40 from ample buckets |
| Questions.TakeFrom | web/src/questions.rs:48-54 | as many of a bucket as quota, room and bucket allow, from its cursor on |
| Questions.DrawDeck | web/src/questions.rs:33-67 | the deck is, as cards, what lies before the cursors; these are whole batches and one cut short in order; it ends full or with the pool used up, and every whole batch keeps its weights |
| Questions.CursorsClosedForm | web/src/questions.rs:35-57 | after k batches a bucket has given min(its size, k times its quota) |
| Questions.BuildDeck | web/src/questions.rs:25-82 | succeeds exactly when the pool validates and is large enough; the deck is the prefix of every shuffled bucket up to cursors that whole batches and one cut short determine, correct answers kept; the fallback adds nothing and the last validation cannot fail |
| Questions.FinishDeck | web/src/questions.rs:78-81 | shuffling answers keeps a valid deck valid, so the last validation reports nothing |
| Questions.PlayableFitsThePanel | web/src/questions.rs:184-195 | what validation leaves to word lengths: prompts are whole up to 13, answers up to 3 |
| Dotenv.ParseEnvValue | shared/src/env.rs:60-127 | the scan for the closing quote and the unescape loop compute the value function |
| Dotenv.ReadEscapes | shared/src/env.rs:107-125 | the unescape loop computes the unescape function |
| Dotenv.FirstFaultIsReported | shared/src/env.rs:25-58 | a file is refused exactly when some line is faulty, with the first such line and its fault |
| Dotenv.LastEntryWins | shared/src/env.rs:25-58 | of several entries for a key the last one counts |
| Dotenv.NoTrailingEscape | shared/src/env.rs:78-127 | scan and unescape agree: the trailing-escape error is never reported |
| Dotenv.QuotedReads | shared/src/env.rs:78-127 | an escaped, double-quoted value reads back as itself |
| Dotenv.EnvRoundTrip | shared/src/env.rs:25-58 | every map with valid keys is read back from its printing, in any order of keys |
| Dotenv.BareValueExactly | shared/src/env.rs:60-76 | an unquoted value reads as itself exactly when it is trimmed, does not begin with a quote and holds no comment |
| DotenvStyles.SettingReads | shared/src/env.rs:25-127 | a setting reads as its key and value with or without `export`, bare or in either quotes, with spaces and a trailing comment |
| DotenvStyles.FileReads | shared/src/env.rs:25-58 | a file of blank lines, comments and settings in any of these ways, with either line ending, reads as the settings it means |
| DotenvStyles.SingleValueExactly | shared/src/env.rs:78-106 | a single-quoted value reads as itself exactly without a single quote in it |
| DotenvStyles.QuotedMeans | shared/src/env.rs:78-127 | a quoted text and what follows it: the text, unescaped in double quotes, or a refusal when something other than a comment follows |
| DotenvStyles.UnterminatedExactly | shared/src/env.rs:78-96 | a value that opens a quote is unterminated exactly if it is no quoted text with something after it |
| DotenvStyles.ExportWithSpaceIsRefused | shared/src/env.rs:25-50 | a variable called `export` with a space after its name is refused |

## Left out

- The Temporal SDK, RPC, TLS, HTTP routes, server-sent events and Visibility: foreign calls; the server is an activity table with one heartbeat timer.
- Search-attribute and memo writes, event wording and log lines: events keep their kind and what they report.
- `schedule_to_close` timeouts and Workflow cancellation: `Heartbeat` closes an Activity at any moment instead.
- Wi-Fi, time synchronisation, I2C, LEDs, haptics, the deep-sleep sequence and panic reporters: device calls.
- The sleep countdown display and the injected button frames of the hardware test build: they do not touch the queue or the verdict. A deep sleep that fails keeps the hold, and the next turn tries again.
- BadgeUi.UiThread.Apply: the inbox is drained one request at a time, so any interleaving of requests and samples is covered, not only whole drains.
- The statuses, power-up, feedback and result screens: centred text with the same glyph routines.
- Glyph tables, character folding and the contents of the button pictures: finite tables.
- The badge identity, observer delay, recovery health flag and the single-game slot of the web server: they would only add easy members.
- Open Trivia JSON parsing and category filtering: the four buckets are inputs.
- Deck.UniqueIdsExactlyWhenClean: speaks of runs below `deck_cycle` saturation, where the source would reuse a suffix.
- The length of the Workflow's tick timer, at most one second: a tick may come at any time.
- `EnvParseError` text: the model keeps the line and the kind of error.
