/** The Workflow object as it is written (web/src/workflow.rs): its state in
  fields, updated in place. Each method is proved to do to the fields what the
  functions of module Round do to their value, so that everything proved about
  runs holds of this object.
*/
module GameWorkflows {
  import opened Wrappers
  import opened Contract
  import opened EventWindow
  import opened GameSnapshots
  import opened Deck
  import opened Round

  /** The history of a round, which no branch reads. */
  datatype Past = Past(
    dealt: seq<Question>, reported: seq<BadgeEvent>, unscored: nat, cancelled: nat, announced: nat, silent: nat, clock: nat)

  class GameWorkflow {
    const config: Config
    const snapshot: GameSnapshot
    const deck: QuestionDeck
    var assignments: map<string, BadgeEvent>
    var retryReasons: map<string, string>
    var attemptsSeen: set<string>
    var lastSweepMs: nat
    var pending: seq<QuestionTask>
    var pendingActivities: nat
    ghost var past: Past

    ghost predicate Valid() {
      deck.template == config.input.questions
    }

    ghost function Value(): Round
      reads this, snapshot, deck
    {
      Round(config, snapshot.value, assignments, retryReasons, attemptsSeen, lastSweepMs,
            Table(deck.available, deck.cycle, past.dealt), pending, pendingActivities,
            past.reported, past.unscored, past.cancelled, past.announced, past.silent, past.clock)
    }

    /** The prologue of `run`, up to the loop. */
    constructor (config: Config)
      ensures Valid() && fresh(snapshot) && fresh(deck)
      ensures this.config == config && Value() == Opening(config)
    {
      this.config := config;
      var input := config.input;
      var badges := match input.detectedBadgeCount case Some(n) => n case None => 0;
      snapshot := new GameSnapshot(EMPTY_SNAPSHOT.(
        gameId := Some(input.gameId), status := GameStatus.Running,
        startedMs := Some(config.startedMs),
        deadlineMs := Some(config.startedMs + input.durationSeconds * 1_000),
        detectedBadges := badges));
      deck := new QuestionDeck(input.questions);
      assignments, retryReasons, attemptsSeen, lastSweepMs := map[], map[], {}, 0;
      pending, pendingActivities := [], 0;
      past := Past([], [], 0, 0, 0, 0, config.startedMs);
      new;
      snapshot.PushKind(Lifecycle, RoundStarted);
      if input.detectedBadgeCount.Some? {
        var count := input.detectedBadgeCount.value;
        var slots := match input.backlogOverride
          case Some(n) => n
          case None => if config.fullBacklog then count else if count > 2 then count - 1 else 1;
        if count == 0 {
          snapshot.PushKind(Lifecycle, NothingToSchedule);
        } else {
          snapshot.PushKind(Lifecycle, BadgesReady(count, slots));
        }
      }
    }

    method ExpireChaos(now: nat)
      modifies snapshot
      ensures snapshot.value == old(snapshot.value).(chaos := Expired(old(snapshot.value).chaos, now))
    {
      if snapshot.value.chaos.doublePointsUntil.Some? && snapshot.value.chaos.doublePointsUntil.value <= now {
        snapshot.value := snapshot.value.(chaos := snapshot.value.chaos.(doublePointsUntil := None));
      }
      if snapshot.value.chaos.rustOnlyUntil.Some? && snapshot.value.chaos.rustOnlyUntil.value <= now {
        snapshot.value := snapshot.value.(chaos := snapshot.value.chaos.(rustOnlyUntil := None));
      }
    }

    /** Scores one completed Activity; says whether it ends the round. */
    method RecordAnswer(question: Question, answer: BadgeAnswer, now: nat) returns (ends: bool)
      modifies snapshot
      ensures snapshot.value == AnswerRecorded(old(snapshot.value), question, answer, now)
      ensures ends <==> AnswerEnds(old(snapshot.value), question, answer)
    {
      if answer.questionId != question.id || answer.selectedIndex >= |question.answers| {
        snapshot.PushKind(Fault, RejectedAnswer(answer.callsign));
        return false;
      }
      var wasCorrect := answer.selectedIndex == question.correctIndex;
      var points := ActivePoints(snapshot.value.chaos, now);
      if answer.badgeId !in snapshot.value.players {
        snapshot.value := snapshot.value.(players := snapshot.value.players[answer.badgeId := NewPlayer(answer.badgeId, answer.callsign)]);
      }
      var player := snapshot.value.players[answer.badgeId];
      if wasCorrect {
        player := player.(score := player.score + points, correct := player.correct + 1);
      } else {
        player := player.(score := player.score - points, wrong := player.wrong + 1);
      }
      snapshot.value := snapshot.value.(players := snapshot.value.players[answer.badgeId := player]);
      snapshot.value := snapshot.value.(completed := snapshot.value.completed + 1);
      var text := if question.correctIndex < |question.answers| then question.answers[question.correctIndex] else "";
      snapshot.value := snapshot.value.(latestAnswer := Some(AnswerSpotlight(question.prompt, text, answer.callsign, wasCorrect, player.score, points)));
      snapshot.PushKind(Answer, Answered(answer.callsign, wasCorrect, if wasCorrect then points else -points));
      ends := snapshot.value.chaos.suddenDeath && wasCorrect;
      ghost var before := old(snapshot.value.players);
      assert before[answer.badgeId := NewPlayer(answer.badgeId, answer.callsign)][answer.badgeId := player]
          == before[answer.badgeId := player];
    }

    /** Counts a handoff from the badge that held the question. */
    method RecordReassignment(event: BadgeEvent)
      requires Reassigns(assignments, event)
      modifies this, snapshot
      ensures Value() == Moved(old(Value()), event)
    {
      var previous := assignments[event.questionId];
      var reason := if event.questionId in retryReasons then retryReasons[event.questionId] else DEFAULT_REASON;
      retryReasons := retryReasons - {event.questionId};
      var move := Reassignment(event.questionId, previous.callsign, event.callsign, reason, event.attempt);
      snapshot.value := snapshot.value.(reassignments := snapshot.value.reassignments + 1,
                                        heartbeatTimeouts := snapshot.value.heartbeatTimeouts + 1,
                                        latestReassignment := Some(move));
      snapshot.PushKind(Handoff, WorkReassigned(move));
    }

    method RecordActivityStarted(event: BadgeEvent) returns (reassigned: bool)
      modifies this, snapshot
      ensures Value() == ActivityStarted(old(Value()), event)
      ensures reassigned <==> Reassigns(old(assignments), event)
    {
      reassigned := event.questionId in assignments && IsReassignment(assignments[event.questionId], event);
      if reassigned {
        RecordReassignment(event);
      }
      assignments := assignments[event.questionId := event];
      var key := AttemptKey(event.questionId, event.attempt);
      if key !in attemptsSeen {
        snapshot.value := snapshot.value.(attempts := snapshot.value.attempts + 1);
      }
      attemptsSeen := attemptsSeen + {key};
      past := past.(reported := past.reported + [event]);
    }

    method BadgeStarted(event: BadgeEvent)
      requires snapshot.value.status == Running
      modifies this, snapshot
      ensures Value() == Step(old(Value()), Input.BadgeStarted(event))
    {
      var _ := RecordActivityStarted(event);
      if event.badgeId !in snapshot.value.players {
        snapshot.value := snapshot.value.(players := snapshot.value.players[event.badgeId := NewPlayer(event.badgeId, event.callsign)]);
        snapshot.PushKind(Lifecycle, Joined(event.callsign));
      }
    }

    method PanicEvent(event: BadgeEvent)
      requires snapshot.value.status == Running
      modifies this, snapshot
      ensures Value() == Step(old(Value()), Input.PanicEvent(event))
    {
      retryReasons := retryReasons[event.questionId := DEFAULT_REASON];
      snapshot.value := snapshot.value.(latestFailure := Some(BadgeFailure(event.questionId, event.callsign, event.attempt)));
      var player := if event.badgeId in snapshot.value.players then snapshot.value.players[event.badgeId]
        else NewPlayer(event.badgeId, event.callsign);
      snapshot.value := snapshot.value.(players := snapshot.value.players[event.badgeId := player.(panics := player.panics + 1)]);
      snapshot.PushKind(Fault, Crashed(event.callsign, event.questionId));
    }

    method Recovered(event: BadgeEvent)
      requires snapshot.value.status == Running
      modifies snapshot
      ensures Value() == Step(old(Value()), Input.Recovered(event))
    {
      snapshot.PushKind(Handoff, RecoveredBadge(event.callsign));
    }

    /** Validator and handler of the power-up Update. */
    method ApplyChaos(command: ChaosCommand, now: nat) returns (rejected: Option<Rejection>)
      requires now >= past.clock
      modifies this, snapshot
      ensures rejected == ValidateApplyChaos(old(snapshot.value.status), old(snapshot.value.chaos), old(lastSweepMs), command)
      ensures Value() == Step(old(Value()), Input.ApplyChaos(command, now))
    {
      rejected := ValidateApplyChaos(snapshot.value.status, snapshot.value.chaos, lastSweepMs, command);
      if rejected.Some? { return; }
      match command {
        case DoublePoints =>
          snapshot.value := snapshot.value.(chaos := snapshot.value.chaos.(doublePointsUntil := Some(now + CHAOS_DURATION_MS)));
        case RustOnly =>
          snapshot.value := snapshot.value.(chaos := snapshot.value.chaos.(rustOnlyUntil := Some(now + CHAOS_DURATION_MS)));
        case SuddenDeath =>
          snapshot.value := snapshot.value.(chaos := snapshot.value.chaos.(suddenDeath := true));
        case ExtendThirtySeconds =>
          snapshot.value := snapshot.value.(chaos := snapshot.value.chaos.(extensionUsed := true));
          if snapshot.value.deadlineMs.Some? {
            snapshot.value := snapshot.value.(deadlineMs := Some(snapshot.value.deadlineMs.value + GAME_EXTENSION_MS));
          }
      }
      snapshot.PushKind(Chaos, PowerupApplied(command));
      var sequence := NextSequence(snapshot.value.chaos.latestPowerup);
      snapshot.value := snapshot.value.(chaos := snapshot.value.chaos.(latestPowerup := Some(PowerupNotice(sequence, command, now))));
      past := past.(clock := now);
    }

    /** Validator and handler of the operator's early end. */
    method EndRound(now: nat) returns (rejected: Option<Rejection>)
      requires now >= past.clock
      modifies this, snapshot
      ensures rejected == ValidateEndRound(old(snapshot.value.status))
      ensures Value() == Step(old(Value()), Input.EndRound(now))
    {
      rejected := ValidateEndRound(snapshot.value.status);
      if rejected.Some? { return; }
      snapshot.value := snapshot.value.(deadlineMs := Some(now));
      snapshot.PushKind(Lifecycle, EndedEarly);
      past := past.(clock := now);
    }

    /** Leaves the loop: outstanding Activities are dropped, the round closes. */
    method FinishRound()
      modifies this, snapshot
      ensures Value() == Finish(old(Value()))
    {
      past := past.(cancelled := past.cancelled + |pending|);
      pending := [];
      snapshot.Finish();
    }

    /** Puts a dealt card out as a fresh Activity. */
    method AddSlot(question: Question, deadlineMs: nat, recycled: bool)
      modifies this, snapshot
      ensures Value() == SlotAdded(old(Value()), question, deadlineMs, recycled)
    {
      if recycled {
        snapshot.PushKind(Lifecycle, DeckRecycled(deck.cycle));
        past := past.(announced := past.announced + 1);
      }
      pending := pending + [QuestionTask(
        config.input.gameId, deadlineMs,
        config.startedMs + config.input.durationSeconds * 1_000 + GAME_EXTENSION_MS,
        question)];
      pendingActivities := pendingActivities + 1;
      snapshot.value := snapshot.value.(scheduled := snapshot.value.scheduled + 1);
    }

    /** Deals one card to a fresh Activity, if the deck can serve one. */
    method FillSlot(rustOnly: bool, deadlineMs: nat) returns (filled: bool)
      requires Valid()
      modifies this, snapshot, deck
      ensures Value() == FillOne(old(Value()), rustOnly, deadlineMs)
      ensures pendingActivities == old(pendingActivities) + if filled then 1 else 0
    {
      var previousCycle := deck.cycle;
      var question := deck.DealQuestion(rustOnly, config.eligibleRefill);
      filled := question.Some?;
      past := past.(dealt := past.dealt + DealtOf(question));
      if filled {
        AddSlot(question.value, deadlineMs, deck.cycle != previousCycle);
      } else {
        past := past.(silent := past.silent + if deck.cycle != previousCycle then 1 else 0);
      }
    }

    /** Keeps the target number of Activities outstanding. */
    method FillSlots(target: nat, rustOnly: bool, deadlineMs: nat)
      requires Valid()
      modifies this, snapshot, deck
      ensures Value() == Fill(old(Value()), target, rustOnly, deadlineMs)
    {
      var more := true;
      while more && pendingActivities < target
        invariant !more ==> Value() == Fill(old(Value()), target, rustOnly, deadlineMs)
        invariant more ==> Fill(Value(), target, rustOnly, deadlineMs) == Fill(old(Value()), target, rustOnly, deadlineMs)
        decreases more, target - pendingActivities
      {
        more := FillSlot(rustOnly, deadlineMs);
      }
    }

    /** From the top of the loop to its await, or to the end of the round. */
    method TurnLoop(now: nat)
      requires Valid()
      modifies this, snapshot, deck
      ensures Value() == LoopTurn(old(Value()), now)
    {
      ExpireChaos(now);
      lastSweepMs, past := now, past.(clock := now);
      assert Value() == Swept(old(Value()), now);
      var deadlineMs := match snapshot.value.deadlineMs case Some(ms) => ms case None => now;
      if now >= deadlineMs {
        FinishRound();
        return;
      }
      var rustOnly := Live(snapshot.value.chaos.rustOnlyUntil, now);
      var target := ActivityTarget(snapshot.value.detectedBadges, config.input.backlogOverride, config.fullBacklog);
      FillSlots(target, rustOnly, deadlineMs);
      if pending == [] && deck.available == [] {
        snapshot.PushKind(Lifecycle, DeckExhausted);
        FinishRound();
      }
    }

    /** What one completion records; says whether it ends the round. */
    method RecordOutcome(index: nat, outcome: Outcome, now: nat) returns (ends: bool)
      requires index < |pending|
      modifies this, snapshot
      ensures Value() == OutcomeRecorded(old(Value()), index, outcome, now)
      ensures ends <==> outcome.AnsweredWith? && AnswerEnds(old(snapshot.value), old(pending)[index].question, outcome.answer)
    {
      var question := pending[index].question;
      pending := pending[..index] + pending[index + 1..];
      pendingActivities := if pendingActivities > 0 then pendingActivities - 1 else 0;
      ends := false;
      match outcome {
        case AnsweredWith(answer) =>
          past := past.(unscored := if WellFormedAnswer(question, answer) then past.unscored else past.unscored + 1);
          ends := RecordAnswer(question, answer, now);
        case ActivityFailed =>
          past := past.(unscored := past.unscored + 1);
          snapshot.PushKind(Fault, ClosedWithoutAnswer(question.id));
      }
    }

    /** One Activity completes; the loop then turns in the same Workflow Task. */
    method CompleteActivity(index: nat, outcome: Outcome, now: nat)
      requires Valid() && snapshot.value.status == Running && now >= past.clock && index < |pending|
      modifies this, snapshot, deck
      ensures Value() == Step(old(Value()), Input.Completes(index, outcome, now))
    {
      var ends := RecordOutcome(index, outcome, now);
      past := past.(clock := now);
      if ends {
        FinishRound();
      } else {
        TurnLoop(now);
      }
    }
  }
}
