/** The records badges, Workflow and board exchange, and the time limits they
  share (shared/src/contract.rs).

  Times are Unix milliseconds. Counters are unbounded; the one counter whose
  saturation matters, `deck_cycle`, saturates in module Deck.
*/
module Contract {
  import opened Wrappers

  const CHAOS_DURATION_MS: nat := 10_000
  const GAME_EXTENSION_MS: nat := 30_000
  const HEARTBEAT_TIMEOUT_MS: nat := 15_000
  const HEARTBEAT_BUDGET_MS: nat := 10_000
  const CRASH_BLACKOUT_MS: nat := 16_000
  const EVENT_WINDOW: nat := 24

  datatype Question = Question(
    id: string,
    category: string,
    difficulty: string,
    prompt: string,
    answers: seq<string>,
    correctIndex: nat)

  datatype QuestionTask = QuestionTask(gameId: string, deadlineMs: nat, maxDeadlineMs: nat, question: Question)
  {
    /** The ceiling a badge plays to: an in-flight badge survives the extension. */
    function LatestPossibleDeadline(): (ms: nat) {
      if deadlineMs >= maxDeadlineMs then deadlineMs else maxDeadlineMs
    }
  }

  datatype BadgeAnswer = BadgeAnswer(badgeId: string, callsign: string, questionId: string, selectedIndex: nat)

  datatype BadgeEvent = BadgeEvent(badgeId: string, callsign: string, questionId: string, attempt: nat)

  datatype ChaosCommand = DoublePoints | RustOnly | SuddenDeath | ExtendThirtySeconds

  datatype PowerupNotice = PowerupNotice(sequence: nat, command: ChaosCommand, issuedMs: nat)

  datatype ChaosState = ChaosState(
    doublePointsUntil: Option<nat>,
    rustOnlyUntil: Option<nat>,
    suddenDeath: bool,
    extensionUsed: bool,
    latestPowerup: Option<PowerupNotice>)

  const NO_CHAOS := ChaosState(None, None, false, false, None)

  datatype Reassignment = Reassignment(questionId: string, fromCallsign: string, toCallsign: string, reason: string, attempt: nat)

  datatype BadgeFailure = BadgeFailure(questionId: string, callsign: string, attempt: nat)

  datatype GameInput = GameInput(
    gameId: string,
    questions: seq<Question>,
    durationSeconds: nat,
    backlogOverride: Option<nat>,
    detectedBadgeCount: Option<nat>)

  datatype PlayerScore = PlayerScore(badgeId: string, callsign: string, score: int, correct: nat, wrong: nat, panics: nat)

  /** A badge as it first appears on the board. */
  function NewPlayer(badgeId: string, callsign: string): PlayerScore {
    PlayerScore(badgeId, callsign, 0, 0, 0, 0)
  }

  datatype GameStatus = Waiting | Running | Finished

  datatype AnswerSpotlight = AnswerSpotlight(
    question: string, correctAnswer: string, callsign: string, wasCorrect: bool, score: int, points: int)

  datatype EventKind = Lifecycle | Answer | Fault | Handoff | Chaos

  /** What an event says. The source renders these as English. */
  datatype EventNote =
    | RoundStarted
    | NothingToSchedule
    | BadgesReady(badges: nat, slots: nat)
    | DeckRecycled(cycle: nat)
    | DeckExhausted
    | ClosedWithoutAnswer(questionId: string)
    | Joined(callsign: string)
    | RecoveredBadge(callsign: string)
    | Crashed(callsign: string, questionId: string)
    | WorkReassigned(move: Reassignment)
    | RejectedAnswer(callsign: string)
    | Answered(callsign: string, correct: bool, points: int)
    | PowerupApplied(command: ChaosCommand)
    | EndedEarly
    | FinishedEmpty
    | WinnersNamed(winners: seq<string>)

  datatype GameEvent = GameEvent(kind: EventKind, note: EventNote)

  /** The value of a `GameSnapshot`. */
  datatype Snapshot = Snapshot(
    gameId: Option<string>,
    status: GameStatus,
    startedMs: Option<nat>,
    deadlineMs: Option<nat>,
    completed: nat,
    scheduled: nat,
    players: map<string, PlayerScore>,
    detectedBadges: nat,
    latestAnswer: Option<AnswerSpotlight>,
    events: seq<GameEvent>,
    winners: seq<string>,
    reassignments: nat,
    heartbeatTimeouts: nat,
    attempts: nat,
    latestReassignment: Option<Reassignment>,
    latestFailure: Option<BadgeFailure>,
    chaos: ChaosState)

  const EMPTY_SNAPSHOT := Snapshot(None, Waiting, None, None, 0, 0, map[], 0, None, [], [], 0, 0, 0, None, None, NO_CHAOS)

  /** From here on silence costs a badge its question. */
  predicate HeartbeatBudgetExhausted(silentMs: nat) {
    silentMs >= HEARTBEAT_BUDGET_MS
  }
}
