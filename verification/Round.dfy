/** A round as a state machine (web/src/workflow.rs, `GameWorkflow`).

  One input is one turn of the Workflow: a timer tick, the completion of one
  Activity, a Signal, or an Update whose validator and handler run together.
  Everything between two awaits of `run` is one step. Time is an input that
  never goes back. An input the Workflow would not see in its current state
  changes nothing, so every sequence of inputs is a run.

  These are the specification functions: class GameWorkflow is proved against
  them, and the other Round modules prove what every run keeps.
*/
module Round {
  import opened Wrappers
  import opened Contract
  import opened Decimal
  import opened GameSnapshots
  import opened Deck

  datatype Config = Config(input: GameInput, fullBacklog: bool, eligibleRefill: bool, startedMs: nat)
  {
    function Deadline(): nat { startedMs + input.durationSeconds * 1_000 }
    function LastDeadline(): nat { Deadline() + GAME_EXTENSION_MS }
  }

  /** `table`, `pending` and `pendingActivities` are the locals of `run`.
    `table.dealt`, `reported`, `unscored`, `cancelled` and `clock` record the
    history, `announced` and `silent` the recycled decks with and without their
    event; no branch reads them, except that time never goes back.
  */
  datatype Round = Round(
    config: Config,
    snap: Snapshot,
    assignments: map<string, BadgeEvent>,
    retryReasons: map<string, string>,
    attemptsSeen: set<string>,
    lastSweepMs: nat,
    table: Table,
    pending: seq<QuestionTask>,
    pendingActivities: nat,
    reported: seq<BadgeEvent>,
    unscored: nat,
    cancelled: nat,
    announced: nat,
    silent: nat,
    clock: nat)

  datatype Outcome = AnsweredWith(answer: BadgeAnswer) | ActivityFailed

  datatype Input =
    | Tick(now: nat)
    | Completes(index: nat, outcome: Outcome, now: nat)
    | BadgeStarted(event: BadgeEvent)
    | PanicEvent(event: BadgeEvent)
    | Recovered(event: BadgeEvent)
    | ApplyChaos(command: ChaosCommand, now: nat)
    | EndRound(now: nat)

  // ---------- modifiers ----------

  predicate Live(until: Option<nat>, now: nat) {
    until.Some? && until.value > now
  }

  function ActivePoints(chaos: ChaosState, now: nat): int {
    if Live(chaos.doublePointsUntil, now) then 2 else 1
  }

  function ActiveModifier(chaos: ChaosState, now: nat): Option<ChaosCommand> {
    if Live(chaos.doublePointsUntil, now) then Some(DoublePoints)
    else if Live(chaos.rustOnlyUntil, now) then Some(RustOnly)
    else if chaos.suddenDeath then Some(SuddenDeath)
    else None
  }

  function Unexpired(until: Option<nat>, now: nat): Option<nat> {
    if Live(until, now) then until else None
  }

  function Expired(chaos: ChaosState, now: nat): ChaosState {
    chaos.(doublePointsUntil := Unexpired(chaos.doublePointsUntil, now),
           rustOnlyUntil := Unexpired(chaos.rustOnlyUntil, now))
  }

  datatype Rejection = NoGameRunning | ExtensionAlreadyUsed | ModifierActive(active: ChaosCommand)

  function ValidateApplyChaos(status: GameStatus, chaos: ChaosState, lastSweepMs: nat, command: ChaosCommand): Option<Rejection> {
    if status != Running then Some(NoGameRunning)
    else if command == ExtendThirtySeconds then
      if chaos.extensionUsed then Some(ExtensionAlreadyUsed) else None
    else match ActiveModifier(chaos, lastSweepMs)
      case Some(active) => Some(ModifierActive(active))
      case None => None
  }

  function ValidateEndRound(status: GameStatus): Option<Rejection> {
    if status != Running then Some(NoGameRunning) else None
  }

  function NextSequence(latest: Option<PowerupNotice>): nat {
    match latest
    case Some(notice) => if notice.sequence < U32_MAX then notice.sequence + 1 else notice.sequence
    case None => 1
  }

  function Commanded(chaos: ChaosState, command: ChaosCommand, now: nat): ChaosState {
    var until := Some(now + CHAOS_DURATION_MS);
    var commanded := match command
      case DoublePoints => chaos.(doublePointsUntil := until)
      case RustOnly => chaos.(rustOnlyUntil := until)
      case SuddenDeath => chaos.(suddenDeath := true)
      case ExtendThirtySeconds => chaos.(extensionUsed := true);
    commanded.(latestPowerup := Some(PowerupNotice(NextSequence(chaos.latestPowerup), command, now)))
  }

  function ExtendedDeadline(deadlineMs: Option<nat>, command: ChaosCommand): Option<nat> {
    if command == ExtendThirtySeconds && deadlineMs.Some? then Some(deadlineMs.value + GAME_EXTENSION_MS) else deadlineMs
  }

  function ChaosApplied(snap: Snapshot, command: ChaosCommand, now: nat): Snapshot {
    Noted(snap.(chaos := Commanded(snap.chaos, command, now), deadlineMs := ExtendedDeadline(snap.deadlineMs, command)),
          Chaos, PowerupApplied(command))
  }

  function RoundEnded(snap: Snapshot, now: nat): Snapshot {
    Noted(snap.(deadlineMs := Some(now)), Lifecycle, EndedEarly)
  }

  // ---------- answers ----------

  predicate WellFormedAnswer(question: Question, answer: BadgeAnswer) {
    answer.questionId == question.id && answer.selectedIndex < |question.answers|
  }

  predicate IsCorrect(question: Question, answer: BadgeAnswer) {
    answer.selectedIndex == question.correctIndex
  }

  function PlayerOf(players: map<string, PlayerScore>, badgeId: string, callsign: string): PlayerScore {
    if badgeId in players then players[badgeId] else NewPlayer(badgeId, callsign)
  }

  function Scored(player: PlayerScore, correct: bool, points: int): PlayerScore {
    if correct then player.(score := player.score + points, correct := player.correct + 1)
    else player.(score := player.score - points, wrong := player.wrong + 1)
  }

  function AnswerRecorded(snap: Snapshot, question: Question, answer: BadgeAnswer, now: nat): Snapshot {
    if !WellFormedAnswer(question, answer) then Noted(snap, Fault, RejectedAnswer(answer.callsign))
    else
      var correct := IsCorrect(question, answer);
      var points := ActivePoints(snap.chaos, now);
      var player := Scored(PlayerOf(snap.players, answer.badgeId, answer.callsign), correct, points);
      var text := if question.correctIndex < |question.answers| then question.answers[question.correctIndex] else "";
      Noted(snap.(players := snap.players[answer.badgeId := player],
                  completed := snap.completed + 1,
                  latestAnswer := Some(AnswerSpotlight(question.prompt, text, answer.callsign, correct, player.score, points))),
            Answer, Answered(answer.callsign, correct, if correct then points else -points))
  }

  /** Whether recording this answer ends the round. */
  predicate AnswerEnds(snap: Snapshot, question: Question, answer: BadgeAnswer) {
    WellFormedAnswer(question, answer) && snap.chaos.suddenDeath && IsCorrect(question, answer)
  }

  // ---------- handoffs ----------

  predicate IsReassignment(previous: BadgeEvent, current: BadgeEvent) {
    previous.badgeId != current.badgeId && current.attempt > previous.attempt
  }

  function AttemptKey(questionId: string, attempt: nat): string {
    questionId + ":" + Render(attempt)
  }

  predicate Reassigns(assignments: map<string, BadgeEvent>, event: BadgeEvent) {
    event.questionId in assignments && IsReassignment(assignments[event.questionId], event)
  }

  const DEFAULT_REASON: string := "heartbeat timeout"

  function MoveOf(r: Round, event: BadgeEvent): Reassignment
    requires Reassigns(r.assignments, event)
  {
    Reassignment(event.questionId, r.assignments[event.questionId].callsign, event.callsign,
                 if event.questionId in r.retryReasons then r.retryReasons[event.questionId] else DEFAULT_REASON,
                 event.attempt)
  }

  /** A handoff counted, with the reason a panic left for it. */
  function Moved(r: Round, event: BadgeEvent): Round
    requires Reassigns(r.assignments, event)
  {
    var move := MoveOf(r, event);
    r.(retryReasons := r.retryReasons - {event.questionId},
       snap := Noted(r.snap.(reassignments := r.snap.reassignments + 1,
                             heartbeatTimeouts := r.snap.heartbeatTimeouts + 1,
                             latestReassignment := Some(move)),
                     Handoff, WorkReassigned(move)))
  }

  function ActivityStarted(r: Round, event: BadgeEvent): Round {
    var key := AttemptKey(event.questionId, event.attempt);
    var moved := if Reassigns(r.assignments, event) then Moved(r, event) else r;
    moved.(assignments := r.assignments[event.questionId := event],
           attemptsSeen := r.attemptsSeen + {key},
           reported := r.reported + [event],
           snap := if key in r.attemptsSeen then moved.snap else moved.snap.(attempts := moved.snap.attempts + 1))
  }

  function BadgeJoined(snap: Snapshot, event: BadgeEvent): Snapshot {
    if event.badgeId in snap.players then snap
    else Noted(snap.(players := snap.players[event.badgeId := NewPlayer(event.badgeId, event.callsign)]),
               Lifecycle, Joined(event.callsign))
  }

  function PanicRecorded(r: Round, event: BadgeEvent): Round {
    var player := PlayerOf(r.snap.players, event.badgeId, event.callsign);
    r.(retryReasons := r.retryReasons[event.questionId := DEFAULT_REASON],
       snap := Noted(r.snap.(latestFailure := Some(BadgeFailure(event.questionId, event.callsign, event.attempt)),
                             players := r.snap.players[event.badgeId := player.(panics := player.panics + 1)]),
                     Fault, Crashed(event.callsign, event.questionId)))
  }

  // ---------- the run loop ----------

  function ActivityTarget(detectedBadges: nat, backlogOverride: Option<nat>, fullBacklog: bool): nat {
    match backlogOverride
    case Some(slots) => slots
    case None =>
      if fullBacklog then detectedBadges
      else if detectedBadges == 0 then 0
      else if detectedBadges - 1 > 1 then detectedBadges - 1 else 1
  }

  function Target(r: Round): nat {
    ActivityTarget(r.snap.detectedBadges, r.config.input.backlogOverride, r.config.fullBacklog)
  }

  function TaskFor(config: Config, deadlineMs: nat, question: Question): QuestionTask {
    QuestionTask(config.input.gameId, deadlineMs, config.LastDeadline(), question)
  }

  /** A fresh Activity for a card just dealt, perhaps from a recycled deck. */
  function SlotAdded(r: Round, question: Question, deadlineMs: nat, recycled: bool): Round {
    var snap := if recycled then Noted(r.snap, Lifecycle, DeckRecycled(r.table.cycle)) else r.snap;
    r.(announced := r.announced + (if recycled then 1 else 0),
       snap := snap.(scheduled := snap.scheduled + 1),
       pending := r.pending + [TaskFor(r.config, deadlineMs, question)],
       pendingActivities := r.pendingActivities + 1)
  }

  /** A card dealt to a fresh Activity, or the deck left as a failed deal left it. */
  function AfterDeal(r: Round, deal: Deal, deadlineMs: nat): Round {
    var after := r.(table := Table(deal.available, deal.cycle, r.table.dealt + DealtOf(deal.question)));
    match deal.question
    case None => after.(silent := r.silent + if deal.cycle != r.table.cycle then 1 else 0)
    case Some(question) => SlotAdded(after, question, deadlineMs, deal.cycle != r.table.cycle)
  }

  function FillOne(r: Round, rustOnly: bool, deadlineMs: nat): Round {
    AfterDeal(r, DealFrom(r.table.available, r.config.input.questions, r.table.cycle, rustOnly, r.config.eligibleRefill), deadlineMs)
  }

  function Fill(r: Round, target: nat, rustOnly: bool, deadlineMs: nat): Round
    decreases target - r.pendingActivities
  {
    if r.pendingActivities >= target then r
    else
      var next := FillOne(r, rustOnly, deadlineMs);
      if next.pendingActivities == r.pendingActivities then next else Fill(next, target, rustOnly, deadlineMs)
  }

  ghost function Finish(r: Round): Round {
    r.(snap := Closed(r.snap), pending := [], cancelled := r.cancelled + |r.pending|)
  }

  function Swept(r: Round, now: nat): Round {
    r.(snap := r.snap.(chaos := Expired(r.snap.chaos, now)), lastSweepMs := now, clock := now)
  }

  function Refilled(r: Round, now: nat): Round
    requires r.snap.deadlineMs.Some?
  {
    Fill(r, Target(r), Live(r.snap.chaos.rustOnlyUntil, now), r.snap.deadlineMs.value)
  }

  /** From the top of the loop to its await, or to the end of the round. */
  ghost function LoopTurn(r: Round, now: nat): Round {
    var swept := Swept(r, now);
    if swept.snap.deadlineMs.None? || now >= swept.snap.deadlineMs.value then Finish(swept)
    else
      var filled := Refilled(swept, now);
      if filled.pending == [] && filled.table.available == [] then
        Finish(filled.(snap := Noted(filled.snap, Lifecycle, DeckExhausted)))
      else filled
  }

  function Without(pending: seq<QuestionTask>, index: nat): seq<QuestionTask>
    requires index < |pending|
  {
    pending[..index] + pending[index + 1..]
  }

  /** An Activity's slot is free again. */
  function SlotFreed(r: Round, index: nat): Round
    requires index < |r.pending|
  {
    r.(pending := Without(r.pending, index), pendingActivities := if r.pendingActivities > 0 then r.pendingActivities - 1 else 0)
  }

  /** What one completion records, before the loop turns again. */
  function OutcomeRecorded(r: Round, index: nat, outcome: Outcome, now: nat): Round
    requires index < |r.pending|
  {
    var question := r.pending[index].question;
    var freed := SlotFreed(r, index);
    match outcome
    case ActivityFailed =>
      freed.(snap := Noted(r.snap, Fault, ClosedWithoutAnswer(question.id)), unscored := r.unscored + 1)
    case AnsweredWith(answer) =>
      freed.(snap := AnswerRecorded(r.snap, question, answer, now),
             unscored := if WellFormedAnswer(question, answer) then r.unscored else r.unscored + 1)
  }

  ghost function Completed(r: Round, index: nat, outcome: Outcome, now: nat): Round
    requires index < |r.pending|
  {
    var recorded := OutcomeRecorded(r, index, outcome, now).(clock := now);
    if outcome.AnsweredWith? && AnswerEnds(r.snap, r.pending[index].question, outcome.answer) then Finish(recorded)
    else LoopTurn(recorded, now)
  }

  /** Whether the Workflow can see this input now. */
  predicate Enabled(r: Round, input: Input) {
    match input
    case Tick(now) => r.snap.status == Running && now >= r.clock
    case Completes(index, _, now) => r.snap.status == Running && now >= r.clock && index < |r.pending|
    case BadgeStarted(_) => r.snap.status == Running
    case PanicEvent(_) => r.snap.status == Running
    case Recovered(_) => r.snap.status == Running
    case ApplyChaos(_, now) => now >= r.clock
    case EndRound(now) => now >= r.clock
  }

  /** Whether an Update passes its validator. */
  predicate Accepted(r: Round, input: Input) {
    match input
    case ApplyChaos(command, _) => ValidateApplyChaos(r.snap.status, r.snap.chaos, r.lastSweepMs, command) == None
    case EndRound(_) => ValidateEndRound(r.snap.status) == None
    case _ => true
  }

  ghost function Step(r: Round, input: Input): Round {
    if !Enabled(r, input) || !Accepted(r, input) then r
    else match input
      case Tick(now) => LoopTurn(r, now)
      case Completes(index, outcome, now) => Completed(r, index, outcome, now)
      case BadgeStarted(event) =>
        var started := ActivityStarted(r, event);
        started.(snap := BadgeJoined(started.snap, event))
      case PanicEvent(event) => PanicRecorded(r, event)
      case Recovered(event) => r.(snap := Noted(r.snap, Handoff, RecoveredBadge(event.callsign)))
      case ApplyChaos(command, now) => r.(snap := ChaosApplied(r.snap, command, now), clock := now)
      case EndRound(now) => r.(snap := RoundEnded(r.snap, now), clock := now)
  }

  function OpeningSnapshot(config: Config): Snapshot {
    var input := config.input;
    var badges := match input.detectedBadgeCount case Some(n) => n case None => 0;
    var started := Noted(EMPTY_SNAPSHOT.(
      gameId := Some(input.gameId), status := Running,
      startedMs := Some(config.startedMs), deadlineMs := Some(config.Deadline()),
      detectedBadges := badges), Lifecycle, RoundStarted);
    match input.detectedBadgeCount
    case None => started
    case Some(count) =>
      var slots := match input.backlogOverride
        case Some(n) => n
        case None => if config.fullBacklog then count else if count > 2 then count - 1 else 1;
      Noted(started, Lifecycle, if count == 0 then NothingToSchedule else BadgesReady(count, slots))
  }

  function Opening(config: Config): Round {
    Round(config, OpeningSnapshot(config), map[], map[], {}, 0,
          Table(config.input.questions, 1, []), [], 0, [], 0, 0, 0, 0, config.startedMs)
  }

  /** The state after the first turn of the loop and any inputs. */
  ghost function Run(config: Config, inputs: seq<Input>): Round {
    if inputs == [] then LoopTurn(Opening(config), config.startedMs)
    else Step(Run(config, inputs[..|inputs| - 1]), inputs[|inputs| - 1])
  }
}
