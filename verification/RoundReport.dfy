/** What the memo of a finished round reports about its run. */
module RoundReport {
  import opened Wrappers
  import opened Contract
  import opened GameSnapshots
  import opened Standings
  import opened Deck
  import opened Round
  import opened RoundFrames
  import opened RoundScores
  import opened RoundHandoffs

  /** The panic Signals a run took in. */
  ghost function PanicSignals(config: Config, inputs: seq<Input>): nat {
    if inputs == [] then 0
    else
      var earlier, last := inputs[..|inputs| - 1], inputs[|inputs| - 1];
      PanicSignals(config, earlier) + if last.PanicEvent? && Enabled(Run(config, earlier), last) then 1 else 0
  }

  lemma AnswerKeepsPanics(snap: Snapshot, question: Question, answer: BadgeAnswer, now: nat)
    ensures Total(AnswerRecorded(snap, question, answer, now).players, Panics) == Total(snap.players, Panics)
  {
    if WellFormedAnswer(question, answer) {
      var player := PlayerOf(snap.players, answer.badgeId, answer.callsign);
      TotalUpdates(snap.players, Panics, answer.badgeId,
                   Scored(player, IsCorrect(question, answer), ActivePoints(snap.chaos, now)));
    }
  }

  lemma CompletionKeepsPanics(r: Round, index: nat, outcome: Outcome, now: nat)
    requires index < |r.pending|
    ensures Total(Completed(r, index, outcome, now).snap.players, Panics) == Total(r.snap.players, Panics)
  {
    if outcome.AnsweredWith? {
      AnswerKeepsPanics(r.snap, r.pending[index].question, outcome.answer, now);
    }
    LoopTurnFrame(OutcomeRecorded(r, index, outcome, now).(clock := now), now);
  }

  lemma StartedPanics(r: Round, event: BadgeEvent)
    ensures Total(Step(r, Input.BadgeStarted(event)).snap.players, Panics) == Total(r.snap.players, Panics)
  {
    TotalUpdates(r.snap.players, Panics, event.badgeId, NewPlayer(event.badgeId, event.callsign));
  }

  lemma PanicCounted(r: Round, event: BadgeEvent)
    requires r.snap.status == Running
    ensures Total(Step(r, Input.PanicEvent(event)).snap.players, Panics) == Total(r.snap.players, Panics) + 1
  {
    var player := PlayerOf(r.snap.players, event.badgeId, event.callsign);
    TotalUpdates(r.snap.players, Panics, event.badgeId, player.(panics := player.panics + 1));
  }

  /** Only a panic Signal counts a panic, and it counts one. */
  lemma StepPanics(r: Round, input: Input)
    ensures Total(Step(r, input).snap.players, Panics)
         == Total(r.snap.players, Panics) + if input.PanicEvent? && Enabled(r, input) then 1 else 0
  {
    if Enabled(r, input) && Accepted(r, input) {
      match input
      case Tick(now) => LoopTurnFrame(r, now);
      case Completes(index, outcome, now) => CompletionKeepsPanics(r, index, outcome, now);
      case BadgeStarted(event) => StartedPanics(r, event);
      case PanicEvent(event) => PanicCounted(r, event);
      case _ =>
    }
  }

  lemma {:induction false} PanicsAddUp(config: Config, inputs: seq<Input>)
    ensures Total(Run(config, inputs).snap.players, Panics) == PanicSignals(config, inputs)
  {
    if inputs == [] {
      LoopTurnFrame(Opening(config), config.startedMs);
    } else {
      PanicsAddUp(config, inputs[..|inputs| - 1]);
      StepPanics(Run(config, inputs[..|inputs| - 1]), inputs[|inputs| - 1]);
    }
  }

  ghost predicate WinnersRight(r: Round) {
    && r.snap.status != Waiting
    && (r.snap.status == Finished ==> AreWinners(r.snap.players, r.snap.winners))
  }

  lemma TurnNamesWinners(r: Round, now: nat)
    requires r.snap.status == Running
    ensures WinnersRight(LoopTurn(r, now))
  {
    var swept := Swept(r, now);
    if swept.snap.deadlineMs.Some? {
      FillFrame(swept, Target(swept), Live(swept.snap.chaos.rustOnlyUntil, now), swept.snap.deadlineMs.value);
    }
  }

  /** A finished round carries the winners of its score table. */
  lemma {:induction false} WinnersAddUp(config: Config, inputs: seq<Input>)
    ensures WinnersRight(Run(config, inputs))
  {
    if inputs == [] {
      TurnNamesWinners(Opening(config), config.startedMs);
    } else {
      var r, input := Run(config, inputs[..|inputs| - 1]), inputs[|inputs| - 1];
      WinnersAddUp(config, inputs[..|inputs| - 1]);
      if Enabled(r, input) && Accepted(r, input) {
        match input
        case Tick(now) => TurnNamesWinners(r, now);
        case Completes(index, outcome, now) => TurnNamesWinners(OutcomeRecorded(r, index, outcome, now).(clock := now), now);
        case _ =>
      }
    }
  }

  /** The memo's totals are those of the run: answers for every completed
    question, a crash for every panic Signal, an attempt for every distinct
    pair reported, as many heartbeat timeouts as handoffs; and of a finished
    round it names the winners.
  */
  lemma MemoMatchesCounters(config: Config, inputs: seq<Input>)
    ensures var r := Run(config, inputs);
      var memo := MemoOf(r.snap);
      && memo.correctAnswers + memo.wrongAnswers == r.snap.completed
      && memo.crashes == PanicSignals(config, inputs)
      && memo.activityAttempts == |Pairs(r.reported)|
      && memo.heartbeatTimeouts == memo.reassignments
      && (r.snap.status == Finished ==> AreWinners(r.snap.players, memo.winners) && (memo.winners == [] <==> memo.badgeCount == 0))
  {
    ScoresAddUp(config, inputs);
    PanicsAddUp(config, inputs);
    HandoffsAddUp(config, inputs);
    WinnersAddUp(config, inputs);
    var snap := Run(config, inputs).snap;
    if snap.status == Finished {
      EmptyRosterOnly(snap.players, snap.winners);
    }
  }
}
