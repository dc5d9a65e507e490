/** Modifiers exclude each other over whole runs, although the validator only
  sees the time of the last sweep; and sudden death ends what it promises.
*/
module RoundModifiers {
  import opened Wrappers
  import opened Contract
  import opened GameSnapshots
  import opened Deck
  import opened Round
  import opened RoundFrames
  import opened RoundScores

  predicate AtMostOneModifier(chaos: ChaosState) {
    && !(chaos.doublePointsUntil.Some? && chaos.rustOnlyUntil.Some?)
    && !(chaos.doublePointsUntil.Some? && chaos.suddenDeath)
    && !(chaos.rustOnlyUntil.Some? && chaos.suddenDeath)
  }

  /** What makes the stale clock good enough: a modifier that is still set was
    alive at the last sweep.
  */
  predicate Exclusive(r: Round) {
    && AtMostOneModifier(r.snap.chaos)
    && (r.snap.chaos.doublePointsUntil.Some? ==> Live(r.snap.chaos.doublePointsUntil, r.lastSweepMs))
    && (r.snap.chaos.rustOnlyUntil.Some? ==> Live(r.snap.chaos.rustOnlyUntil, r.lastSweepMs))
    && r.lastSweepMs <= r.clock
  }

  /** Only the sweep and an accepted Update touch the modifiers. */
  lemma StepChaos(r: Round, input: Input)
    ensures var s := Step(r, input);
      if !Enabled(r, input) || !Accepted(r, input) then s == r
      else match input
        case ApplyChaos(command, now) => s.snap.chaos == Commanded(r.snap.chaos, command, now) && s.lastSweepMs == r.lastSweepMs && s.clock == now
        case EndRound(now) => s.snap.chaos == r.snap.chaos && s.lastSweepMs == r.lastSweepMs && s.clock == now
        case Tick(now) => s.snap.chaos == Expired(r.snap.chaos, now) && s.lastSweepMs == s.clock == now
        case Completes(_, _, now) =>
          || (s.snap.chaos == Expired(r.snap.chaos, now) && s.lastSweepMs == s.clock == now)
          || (s.snap.chaos == r.snap.chaos && s.lastSweepMs == r.lastSweepMs && s.clock == now)
        case _ => s.snap.chaos == r.snap.chaos && s.lastSweepMs == r.lastSweepMs && s.clock == r.clock
  {
    if Enabled(r, input) && Accepted(r, input) {
      match input
      case Tick(now) => LoopTurnFrame(r, now);
      case Completes(index, outcome, now) => LoopTurnFrame(OutcomeRecorded(r, index, outcome, now).(clock := now), now);
      case _ =>
    }
  }

  lemma StepKeepsExclusive(r: Round, input: Input)
    requires Exclusive(r)
    ensures Exclusive(Step(r, input))
  {
    StepChaos(r, input);
  }

  /** In every reachable state at most one gameplay modifier is set. */
  lemma {:induction false} ModifiersExclude(config: Config, inputs: seq<Input>)
    ensures Exclusive(Run(config, inputs))
  {
    if inputs == [] {
      LoopTurnFrame(Opening(config), config.startedMs);
    } else {
      ModifiersExclude(config, inputs[..|inputs| - 1]);
      StepKeepsExclusive(Run(config, inputs[..|inputs| - 1]), inputs[|inputs| - 1]);
    }
  }

  /** The validator turns an operator away exactly while a modifier is set. */
  lemma ValidatorSeesEveryModifier(config: Config, inputs: seq<Input>, command: ChaosCommand)
    requires command != ExtendThirtySeconds
    ensures var r := Run(config, inputs);
      ValidateApplyChaos(r.snap.status, r.snap.chaos, r.lastSweepMs, command) == None
      <==> r.snap.status == Running && r.snap.chaos.doublePointsUntil.None?
           && r.snap.chaos.rustOnlyUntil.None? && !r.snap.chaos.suddenDeath
  {
    ModifiersExclude(config, inputs);
  }

  // ---------- sudden death ----------

  ghost function CorrectAnswers(r: Round): nat {
    Total(r.snap.players, Correct)
  }

  lemma AnswerCounts(snap: Snapshot, question: Question, answer: BadgeAnswer, now: nat)
    ensures Total(AnswerRecorded(snap, question, answer, now).players, Correct)
         == Total(snap.players, Correct) + if WellFormedAnswer(question, answer) && IsCorrect(question, answer) then 1 else 0
  {
    if WellFormedAnswer(question, answer) {
      var player := PlayerOf(snap.players, answer.badgeId, answer.callsign);
      TotalUpdates(snap.players, Correct, answer.badgeId,
                   Scored(player, IsCorrect(question, answer), ActivePoints(snap.chaos, now)));
    }
  }

  /** One input records at most one correct answer; under sudden death that
    answer closes the round, and the modifier never goes away.
  */
  lemma StepCorrectAnswers(r: Round, input: Input)
    ensures var s := Step(r, input);
      && CorrectAnswers(r) <= CorrectAnswers(s) <= CorrectAnswers(r) + 1
      && (r.snap.chaos.suddenDeath ==> s.snap.chaos.suddenDeath)
      && (r.snap.chaos.suddenDeath && CorrectAnswers(s) > CorrectAnswers(r) ==> s.snap.status == Finished)
  {
    StepChaos(r, input);
    if Enabled(r, input) && Accepted(r, input) {
      match input
      case Tick(now) => LoopTurnFrame(r, now);
      case Completes(index, outcome, now) =>
        if outcome.AnsweredWith? {
          AnswerCounts(r.snap, r.pending[index].question, outcome.answer, now);
        }
        LoopTurnFrame(OutcomeRecorded(r, index, outcome, now).(clock := now), now);
      case BadgeStarted(event) =>
        TotalUpdates(r.snap.players, Correct, event.badgeId, NewPlayer(event.badgeId, event.callsign));
      case PanicEvent(event) =>
        var player := PlayerOf(r.snap.players, event.badgeId, event.callsign);
        TotalUpdates(r.snap.players, Correct, event.badgeId, player.(panics := player.panics + 1));
      case _ =>
    }
  }

  /** A finished round no longer changes. */
  lemma FinishedIsFinal(r: Round, input: Input)
    requires r.snap.status == Finished
    ensures Step(r, input) == r
  {
  }

  lemma RunSplits(config: Config, inputs: seq<Input>, input: Input)
    ensures Run(config, inputs + [input]) == Step(Run(config, inputs), input)
  {
    assert (inputs + [input])[..|inputs|] == inputs;
  }

  /** Once sudden death is set, at most one more correct answer is recorded,
    and it is the round's last event of any kind.
  */
  lemma {:induction false} SuddenDeathEndsTheRound(config: Config, inputs: seq<Input>, more: seq<Input>)
    requires Run(config, inputs).snap.chaos.suddenDeath
    ensures var r, s := Run(config, inputs), Run(config, inputs + more);
      && s.snap.chaos.suddenDeath
      && CorrectAnswers(r) <= CorrectAnswers(s) <= CorrectAnswers(r) + 1
      && (CorrectAnswers(s) > CorrectAnswers(r) ==> s.snap.status == Finished)
  {
    if more == [] {
      assert inputs + more == inputs;
    } else {
      var earlier, last := more[..|more| - 1], more[|more| - 1];
      SuddenDeathEndsTheRound(config, inputs, earlier);
      assert inputs + more == inputs + earlier + [last];
      RunSplits(config, inputs + earlier, last);
      var s := Run(config, inputs + earlier);
      StepCorrectAnswers(s, last);
      if s.snap.status == Finished {
        FinishedIsFinal(s, last);
      }
    }
  }
}
