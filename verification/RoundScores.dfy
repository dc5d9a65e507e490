/** Question and score conservation over every run. */
module RoundScores {
  import opened Wrappers
  import opened Contract
  import opened GameSnapshots
  import opened Deck
  import opened Round
  import opened RoundFrames

  /** A player's score lies between single and double stakes. */
  predicate Plausible(player: PlayerScore) {
    player.correct - 2 * player.wrong <= player.score <= 2 * player.correct - player.wrong
  }

  ghost predicate ScoreBooks(snap: Snapshot) {
    && Total(snap.players, Correct) + Total(snap.players, Wrong) == snap.completed
    && forall badge :: badge in snap.players ==> Plausible(snap.players[badge])
  }

  lemma ScoredStaysPlausible(player: PlayerScore, correct: bool, points: int)
    requires Plausible(player) && 1 <= points <= 2
    ensures Plausible(Scored(player, correct, points))
  {
  }

  lemma RowUpdated(snap: Snapshot, badge: string, player: PlayerScore, added: nat)
    requires ScoreBooks(snap) && Plausible(player)
    requires player.correct + player.wrong
          == (if badge in snap.players then snap.players[badge].correct + snap.players[badge].wrong else 0) + added
    ensures ScoreBooks(snap.(players := snap.players[badge := player], completed := snap.completed + added))
  {
    TotalUpdates(snap.players, Correct, badge, player);
    TotalUpdates(snap.players, Wrong, badge, player);
  }

  lemma BooksIgnoreEvents(snap: Snapshot, other: Snapshot)
    requires ScoreBooks(snap) && other.players == snap.players && other.completed == snap.completed
    ensures ScoreBooks(other)
  {
  }

  lemma AnswerKeepsBooks(snap: Snapshot, question: Question, answer: BadgeAnswer, now: nat)
    requires ScoreBooks(snap)
    ensures ScoreBooks(AnswerRecorded(snap, question, answer, now))
  {
    var recorded := AnswerRecorded(snap, question, answer, now);
    if WellFormedAnswer(question, answer) {
      var player := PlayerOf(snap.players, answer.badgeId, answer.callsign);
      var scored := Scored(player, IsCorrect(question, answer), ActivePoints(snap.chaos, now));
      ScoredStaysPlausible(player, IsCorrect(question, answer), ActivePoints(snap.chaos, now));
      RowUpdated(snap, answer.badgeId, scored, 1);
      BooksIgnoreEvents(snap.(players := snap.players[answer.badgeId := scored], completed := snap.completed + 1), recorded);
    } else {
      BooksIgnoreEvents(snap, recorded);
    }
  }

  lemma CompletionKeepsScores(r: Round, index: nat, outcome: Outcome, now: nat)
    requires ScoreBooks(r.snap) && index < |r.pending|
    ensures ScoreBooks(Completed(r, index, outcome, now).snap)
  {
    var recorded := OutcomeRecorded(r, index, outcome, now).(clock := now);
    assert ScoreBooks(recorded.snap) by {
      if outcome.AnsweredWith? {
        AnswerKeepsBooks(r.snap, r.pending[index].question, outcome.answer, now);
      }
    }
    LoopTurnFrame(recorded, now);
    BooksIgnoreEvents(recorded.snap, Completed(r, index, outcome, now).snap);
  }

  lemma JoinKeepsScores(r: Round, event: BadgeEvent)
    requires ScoreBooks(r.snap)
    ensures ScoreBooks(BadgeJoined(ActivityStarted(r, event).snap, event))
  {
    var started := ActivityStarted(r, event).snap;
    BooksIgnoreEvents(r.snap, started);
    if event.badgeId !in started.players {
      RowUpdated(started, event.badgeId, NewPlayer(event.badgeId, event.callsign), 0);
    }
  }

  lemma PanicKeepsScores(r: Round, event: BadgeEvent)
    requires ScoreBooks(r.snap)
    ensures ScoreBooks(PanicRecorded(r, event).snap)
  {
    var player := PlayerOf(r.snap.players, event.badgeId, event.callsign);
    RowUpdated(r.snap, event.badgeId, player.(panics := player.panics + 1), 0);
  }

  lemma StepKeepsScores(r: Round, input: Input)
    requires ScoreBooks(r.snap)
    ensures ScoreBooks(Step(r, input).snap)
  {
    if Enabled(r, input) && Accepted(r, input) {
      match input
      case Tick(now) =>
        LoopTurnFrame(r, now);
        BooksIgnoreEvents(r.snap, LoopTurn(r, now).snap);
      case Completes(index, outcome, now) => CompletionKeepsScores(r, index, outcome, now);
      case BadgeStarted(event) => JoinKeepsScores(r, event);
      case PanicEvent(event) => PanicKeepsScores(r, event);
      case _ => BooksIgnoreEvents(r.snap, Step(r, input).snap);
    }
  }

  /** In every reachable state the players' right and wrong answers add up to
    the completed questions, and every score is one its answers can have given.
  */
  lemma {:induction false} ScoresAddUp(config: Config, inputs: seq<Input>)
    ensures ScoreBooks(Run(config, inputs).snap)
  {
    if inputs == [] {
      LoopTurnFrame(Opening(config), config.startedMs);
    } else {
      ScoresAddUp(config, inputs[..|inputs| - 1]);
      StepKeepsScores(Run(config, inputs[..|inputs| - 1]), inputs[|inputs| - 1]);
    }
  }

  // ---------- slots ----------

  /** Every scheduled Activity is outstanding, scored, closed without a score,
    or cancelled by the end of the round; and the slot counter is right.
  */
  predicate SlotBooks(r: Round) {
    && Missing(r) == 0
    && (r.snap.status == Running ==> r.pendingActivities == |r.pending| <= Target(r))
    && (r.snap.status == Finished ==> r.pending == [])
    && r.snap.status != Waiting
  }

  lemma OutcomeSlots(r: Round, index: nat, outcome: Outcome, now: nat)
    requires SlotBooks(r) && r.snap.status == Running && index < |r.pending|
    ensures var recorded := OutcomeRecorded(r, index, outcome, now);
      && Missing(recorded) == 0 && recorded.snap.status == Running
      && recorded.pendingActivities == |recorded.pending| <= Target(recorded)
  {
  }

  lemma TurnKeepsSlots(r: Round, now: nat)
    requires SlotBooks(r) && r.snap.status == Running
    ensures SlotBooks(LoopTurn(r, now))
  {
    LoopTurnFrame(r, now);
    LoopTurnSlots(r, now);
  }

  lemma CompletionKeepsSlots(r: Round, index: nat, outcome: Outcome, now: nat)
    requires SlotBooks(r) && r.snap.status == Running && index < |r.pending|
    ensures SlotBooks(Completed(r, index, outcome, now))
  {
    var recorded := OutcomeRecorded(r, index, outcome, now).(clock := now);
    OutcomeSlots(r, index, outcome, now);
    assert SlotBooks(recorded);
    TurnKeepsSlots(recorded, now);
  }

  lemma StepKeepsSlots(r: Round, input: Input)
    requires SlotBooks(r)
    ensures SlotBooks(Step(r, input))
  {
    if Enabled(r, input) && Accepted(r, input) {
      match input
      case Tick(now) => TurnKeepsSlots(r, now);
      case Completes(index, outcome, now) => CompletionKeepsSlots(r, index, outcome, now);
      case _ =>
    }
  }

  /** In every reachable state scheduled = outstanding + completed + closed
    without a score + cancelled, and outstanding never exceeds the target.
  */
  lemma {:induction false} SlotsAddUp(config: Config, inputs: seq<Input>)
    ensures SlotBooks(Run(config, inputs))
  {
    if inputs == [] {
      LoopTurnFrame(Opening(config), config.startedMs);
      LoopTurnSlots(Opening(config), config.startedMs);
    } else {
      SlotsAddUp(config, inputs[..|inputs| - 1]);
      StepKeepsSlots(Run(config, inputs[..|inputs| - 1]), inputs[|inputs| - 1]);
    }
  }
}
