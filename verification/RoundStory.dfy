/** The board's event window as the story of the round: which event every input
  adds, and in which order.
*/
module RoundStory {
  import opened Wrappers
  import opened Contract
  import opened EventWindow
  import opened GameSnapshots
  import opened Deck
  import opened Round
  import opened RoundFrames
  import opened RoundScores
  import opened RoundSupply
  import opened RoundHandoffs
  import opened RoundAnswers
  import opened RoundEnd
  import opened RoundPowerups
  import opened RoundSignals

  // ---------- what an input adds ----------

  /** Recycled decks: one event for each cycle after `from`. */
  function RecycleNotes(from: nat, count: nat): seq<GameEvent> {
    seq(count, i requires 0 <= i < count => GameEvent(Lifecycle, DeckRecycled(from + 1 + i)))
  }

  /** What a round that is over says last. */
  function FinalNotes(s: Round): seq<GameEvent> {
    if s.snap.status != Finished then []
    else [GameEvent(Lifecycle, if s.snap.winners == [] then FinishedEmpty else WinnersNamed(s.snap.winners))]
  }

  /** A turn: the decks it recycled with an event, and perhaps the end. */
  function TurnNotes(r: Round, s: Round): seq<GameEvent> {
    RecycleNotes(r.table.cycle, if s.announced >= r.announced then s.announced - r.announced else 0) + FinalNotes(s)
  }

  function CompletionNotes(r: Round, index: nat, outcome: Outcome, now: nat): seq<GameEvent>
    requires index < |r.pending|
  {
    match outcome
    case ActivityFailed => [GameEvent(Fault, ClosedWithoutAnswer(r.pending[index].question.id))]
    case AnsweredWith(answer) =>
      var input := Completes(index, outcome, now);
      if PicksCorrect(r, input) then [GameEvent(Answer, Answered(answer.callsign, true, Stake(r, now)))]
      else if PicksWrong(r, input) then [GameEvent(Answer, Answered(answer.callsign, false, -Stake(r, now)))]
      else [GameEvent(Fault, RejectedAnswer(answer.callsign))]
  }

  /** A report: a handoff if it moves the question, and a badge's first word. */
  function StartedNotes(r: Round, event: BadgeEvent): seq<GameEvent> {
    (if IsMove(r.reported, event) then
       [GameEvent(Handoff, WorkReassigned(Reassignment(
          event.questionId, LastReport(r.reported, event.questionId).value.callsign, event.callsign, "heartbeat timeout", event.attempt)))]
     else [])
    + if event.badgeId in r.snap.players then [] else [GameEvent(Lifecycle, Joined(event.callsign))]
  }

  ghost function NotesOf(r: Round, input: Input, s: Round): seq<GameEvent> {
    if r.snap.status != Running then []
    else match input
      case Tick(now) => if Turns(r, input) then TurnNotes(r, s) else []
      case Completes(index, outcome, now) => if Turns(r, input) then CompletionNotes(r, index, outcome, now) + TurnNotes(r, s) else []
      case BadgeStarted(event) => StartedNotes(r, event)
      case PanicEvent(event) => [GameEvent(Fault, Crashed(event.callsign, event.questionId))]
      case Recovered(event) => [GameEvent(Handoff, RecoveredBadge(event.callsign))]
      case ApplyChaos(command, _) => if Applies(r, input, command) then [GameEvent(Chaos, PowerupApplied(command))] else []
      case EndRound(now) => if r.clock <= now then [GameEvent(Lifecycle, EndedEarly)] else []
  }

  /** The events of the prologue. */
  function PrologueNotes(config: Config): seq<GameEvent> {
    var count, slots := config.input.detectedBadgeCount, config.input.backlogOverride;
    [GameEvent(Lifecycle, RoundStarted)]
    + match count
      case None => []
      case Some(0) => [GameEvent(Lifecycle, NothingToSchedule)]
      case Some(n) => [GameEvent(Lifecycle, BadgesReady(n,
          if slots.Some? then slots.value else if config.fullBacklog || n == 1 then n else n - 1))]
  }

  /** And of the opening turn, which alone can find nothing to play. */
  ghost function OpeningNotes(config: Config, s: Round): seq<GameEvent> {
    PrologueNotes(config)
    + if config.input.questions != [] then RecycleNotes(1, s.announced) + FinalNotes(s)
      else (if config.input.durationSeconds > 0 then [GameEvent(Lifecycle, DeckExhausted)] else []) + FinalNotes(s)
  }

  /** Everything a run had to tell. */
  ghost function Story(config: Config, inputs: seq<Input>): seq<GameEvent> {
    if inputs == [] then OpeningNotes(config, Run(config, []))
    else
      var earlier := inputs[..|inputs| - 1];
      Story(config, earlier) + NotesOf(Run(config, earlier), inputs[|inputs| - 1], Run(config, inputs))
  }

  // ---------- pushing one after the other ----------

  function PushAll(events: seq<GameEvent>, notes: seq<GameEvent>): seq<GameEvent> {
    if notes == [] then events else Push(PushAll(events, notes[..|notes| - 1]), notes[|notes| - 1])
  }

  lemma {:induction false} PushAllJoins(events: seq<GameEvent>, a: seq<GameEvent>, b: seq<GameEvent>)
    ensures PushAll(events, a + b) == PushAll(PushAll(events, a), b)
  {
    if b == [] {
      assert a + b == a;
    } else {
      PushAllJoins(events, a, b[..|b| - 1]);
      assert (a + b)[..|a + b| - 1] == a + b[..|b| - 1];
    }
  }

  lemma {:induction false} WindowGrows(history: seq<GameEvent>, notes: seq<GameEvent>)
    ensures Window(history + notes) == PushAll(Window(history), notes)
  {
    if notes == [] {
      assert history + notes == history;
    } else {
      WindowGrows(history, notes[..|notes| - 1]);
      assert (history + notes)[..|history + notes| - 1] == history + notes[..|notes| - 1];
    }
  }

  lemma PushOne(events: seq<GameEvent>, event: GameEvent)
    ensures PushAll(events, [event]) == Push(events, event)
  {
    assert [event][..0] == [];
    assert PushAll(events, []) == events;
  }

  // ---------- a turn ----------

  lemma DealCycle(available: seq<Question>, template: seq<Question>, cycle: nat, rustOnly: bool, eligibleRefill: bool)
    ensures var next := DealFrom(available, template, cycle, rustOnly, eligibleRefill).cycle; next == cycle || next == cycle + 1
  {
  }

  lemma DealTells(r: Round, deal: Deal, deadlineMs: nat)
    requires deal.cycle == r.table.cycle || deal.cycle == r.table.cycle + 1
    ensures var f := AfterDeal(r, deal, deadlineMs);
      var k := if deal.question.Some? && deal.cycle != r.table.cycle then 1 else 0;
      && f.announced == r.announced + k
      && (deal.question.Some? ==> f.table.cycle == r.table.cycle + k && f.pendingActivities == r.pendingActivities + 1)
      && (deal.question.None? ==> f.pendingActivities == r.pendingActivities)
      && f.snap.events == PushAll(r.snap.events, RecycleNotes(r.table.cycle, k))
  {
    if deal.question.Some? && deal.cycle != r.table.cycle {
      assert RecycleNotes(r.table.cycle, 0) == [];
      assert RecycleNotes(r.table.cycle, 1) == [GameEvent(Lifecycle, DeckRecycled(deal.cycle))];
      PushOne(r.snap.events, GameEvent(Lifecycle, DeckRecycled(deal.cycle)));
    }
  }

  lemma RecyclesJoin(from: nat, a: nat, b: nat)
    ensures RecycleNotes(from, a + b) == RecycleNotes(from, a) + RecycleNotes(from + a, b)
  {
  }

  /** The events between two states are `k` recycled decks after a cycle. */
  predicate Told(r: Round, f: Round, k: nat) {
    f.announced == r.announced + k && f.snap.events == PushAll(r.snap.events, RecycleNotes(r.table.cycle, k))
  }

  lemma NotesJoin(events: seq<GameEvent>, from: nat, k: nat, more: nat)
    ensures PushAll(PushAll(events, RecycleNotes(from, k)), RecycleNotes(from + k, more)) == PushAll(events, RecycleNotes(from, k + more))
  {
    RecyclesJoin(from, k, more);
    PushAllJoins(events, RecycleNotes(from, k), RecycleNotes(from + k, more));
  }

  lemma ToldJoins(r: Round, m: Round, f: Round, k: nat, more: nat)
    requires Told(r, m, k) && Told(m, f, more) && m.table.cycle == r.table.cycle + k
    ensures Told(r, f, k + more)
  {
    NotesJoin(r.snap.events, r.table.cycle, k, more);
  }

  lemma FillOneTells(r: Round, rustOnly: bool, deadlineMs: nat) returns (k: nat)
    ensures var f := FillOne(r, rustOnly, deadlineMs);
      Told(r, f, k) && (f.pendingActivities != r.pendingActivities ==> f.table.cycle == r.table.cycle + k)
  {
    var available, template, cycle := r.table.available, r.config.input.questions, r.table.cycle;
    var deal := DealFrom(available, template, cycle, rustOnly, r.config.eligibleRefill);
    DealCycle(available, template, cycle, rustOnly, r.config.eligibleRefill);
    DealTells(r, deal, deadlineMs);
    k := if deal.question.Some? && deal.cycle != r.table.cycle then 1 else 0;
  }

  lemma {:induction false} FillTells(r: Round, target: nat, rustOnly: bool, deadlineMs: nat) returns (k: nat)
    ensures Told(r, Fill(r, target, rustOnly, deadlineMs), k)
    decreases target - r.pendingActivities
  {
    k := 0;
    if r.pendingActivities < target {
      var next := FillOne(r, rustOnly, deadlineMs);
      k := FillOneTells(r, rustOnly, deadlineMs);
      if next.pendingActivities != r.pendingActivities {
        var more := FillTells(next, target, rustOnly, deadlineMs);
        ToldJoins(r, next, Fill(next, target, rustOnly, deadlineMs), k, more);
        k := k + more;
      }
    }
  }

  lemma FinishTells(r: Round)
    ensures Finish(r).snap.events == PushAll(r.snap.events, FinalNotes(Finish(r)))
    ensures Finish(r).announced == r.announced
  {
    var s := Finish(r);
    PushOne(r.snap.events, FinalNotes(s)[0]);
  }

  lemma NoRecycles(r: Round, s: Round)
    requires s.announced == r.announced
    ensures TurnNotes(r, s) == FinalNotes(s)
  {
  }

  lemma JustRecycles(r: Round, s: Round, k: nat)
    requires s.announced == r.announced + k && s.snap.status == Running
    ensures TurnNotes(r, s) == RecycleNotes(r.table.cycle, k)
  {
  }

  /** A turn that does not find the deck exhausted. */
  lemma TurnTells(r: Round, now: nat)
    requires r.snap.status == Running && r.snap.deadlineMs.Some? && !TakesExhaustedExit(r, now)
    ensures LoopTurn(r, now).snap.events == PushAll(r.snap.events, TurnNotes(r, LoopTurn(r, now)))
  {
    var swept, s := Swept(r, now), LoopTurn(r, now);
    if now >= r.snap.deadlineMs.value {
      FinishTells(swept);
      NoRecycles(r, s);
    } else {
      var rustOnly := Live(swept.snap.chaos.rustOnlyUntil, now);
      var k := FillTells(swept, Target(swept), rustOnly, r.snap.deadlineMs.value);
      FillKeepsStatus(swept, Target(swept), rustOnly, r.snap.deadlineMs.value);
      assert s == Refilled(swept, now);
      JustRecycles(r, s, k);
    }
  }

  lemma OutcomeTells(r: Round, index: nat, outcome: Outcome, now: nat)
    requires Turns(r, Completes(index, outcome, now))
    ensures OutcomeRecorded(r, index, outcome, now).snap.events == PushAll(r.snap.events, CompletionNotes(r, index, outcome, now))
  {
    PushOne(r.snap.events, CompletionNotes(r, index, outcome, now)[0]);
  }

  lemma SameNotes(r: Round, recorded: Round, s: Round)
    requires recorded.table == r.table && recorded.announced == r.announced
    ensures TurnNotes(recorded, s) == TurnNotes(r, s)
  {
  }

  lemma EndTells(r: Round)
    ensures Finish(r).snap.events == PushAll(r.snap.events, TurnNotes(r, Finish(r)))
  {
    FinishTells(r);
    NoRecycles(r, Finish(r));
  }

  /** After what was recorded, the end of the round or a turn of the loop. */
  lemma AfterOutcomeTells(r: Round, recorded: Round, s: Round, now: nat)
    requires recorded.snap.status == Running && recorded.snap.deadlineMs.Some? && !TakesExhaustedExit(recorded, now)
    requires recorded.table == r.table && recorded.announced == r.announced
    requires s == Finish(recorded) || s == LoopTurn(recorded, now)
    ensures s.snap.events == PushAll(recorded.snap.events, TurnNotes(r, s))
  {
    EndTells(recorded);
    TurnTells(recorded, now);
    SameNotes(r, recorded, s);
  }

  lemma CompletionTells(r: Round, index: nat, outcome: Outcome, now: nat)
    requires Turns(r, Completes(index, outcome, now)) && r.snap.deadlineMs.Some?
    requires !TakesExhaustedExit(OutcomeRecorded(r, index, outcome, now).(clock := now), now)
    ensures var s := Step(r, Completes(index, outcome, now));
      s.snap.events == PushAll(r.snap.events, CompletionNotes(r, index, outcome, now) + TurnNotes(r, s))
  {
    var recorded, s := OutcomeRecorded(r, index, outcome, now).(clock := now), Step(r, Completes(index, outcome, now));
    assert recorded.snap.events == PushAll(r.snap.events, CompletionNotes(r, index, outcome, now)) by {
      OutcomeTells(r, index, outcome, now);
    }
    AfterOutcomeTells(r, recorded, s, now);
    PushAllJoins(r.snap.events, CompletionNotes(r, index, outcome, now), TurnNotes(r, s));
  }

  // ---------- Signals and Updates ----------

  lemma PushTwo(events: seq<GameEvent>, a: seq<GameEvent>, b: seq<GameEvent>, middle: seq<GameEvent>, after: seq<GameEvent>)
    requires middle == PushAll(events, a) && after == PushAll(middle, b)
    ensures after == PushAll(events, a + b)
  {
    PushAllJoins(events, a, b);
  }

  lemma StartedTells(r: Round, event: BadgeEvent)
    requires r.snap.status == Running && AssignmentsCurrent(LedgerOf(r))
    requires forall q :: q in r.retryReasons ==> r.retryReasons[q] == "heartbeat timeout"
    ensures Step(r, Input.BadgeStarted(event)).snap.events == PushAll(r.snap.events, StartedNotes(r, event))
  {
    var moved := IsMove(r.reported, event);
    assert LastReport(r.reported, event.questionId)
        == if event.questionId in r.assignments then Some(r.assignments[event.questionId]) else None by {
      assert LedgerOf(r).reported == r.reported && LedgerOf(r).assignments == r.assignments;
    }
    var first := if moved then
        [GameEvent(Handoff, WorkReassigned(Reassignment(
           event.questionId, LastReport(r.reported, event.questionId).value.callsign, event.callsign, "heartbeat timeout", event.attempt)))]
      else [];
    var second := if event.badgeId in r.snap.players then [] else [GameEvent(Lifecycle, Joined(event.callsign))];
    var middle := ActivityStarted(r, event).snap;
    if moved {
      PushOne(r.snap.events, first[0]);
    }
    if second != [] {
      PushOne(middle.events, second[0]);
    }
    assert middle.players == r.snap.players;
    PushTwo(r.snap.events, first, second, middle.events, BadgeJoined(middle, event).events);
  }

  lemma SignalTells(r: Round, input: Input)
    requires input.PanicEvent? || input.Recovered? || input.EndRound?
    ensures Step(r, input).snap.events == PushAll(r.snap.events, NotesOf(r, input, Step(r, input)))
  {
    if NotesOf(r, input, Step(r, input)) != [] {
      PushOne(r.snap.events, NotesOf(r, input, Step(r, input))[0]);
    }
  }

  lemma PowerupTells(r: Round, command: ChaosCommand, now: nat)
    requires Applies(r, ApplyChaos(command, now), command)
         <==> Enabled(r, ApplyChaos(command, now)) && Accepted(r, ApplyChaos(command, now))
    ensures var input := ApplyChaos(command, now);
      Step(r, input).snap.events == PushAll(r.snap.events, NotesOf(r, input, Step(r, input)))
  {
    if Applies(r, ApplyChaos(command, now), command) {
      PushOne(r.snap.events, GameEvent(Chaos, PowerupApplied(command)));
    }
  }

  // ---------- runs ----------

  lemma StepTells(config: Config, inputs: seq<Input>, input: Input)
    ensures var r, s := Run(config, inputs), Step(Run(config, inputs), input);
      s.snap.events == PushAll(r.snap.events, NotesOf(r, input, s))
  {
    var r := Run(config, inputs);
    RunIsTimed(config, inputs);
    match input {
      case Tick(now) =>
        if Turns(r, input) {
          DeckNeverExhausted(config, inputs, now);
          TurnTells(r, now);
        }
      case Completes(index, outcome, now) =>
        if Turns(r, input) {
          DeckNeverExhausted(config, inputs, now);
          CompletionTells(r, index, outcome, now);
        }
      case BadgeStarted(event) =>
        if r.snap.status == Running {
          LedgerHolds(config, inputs);
          SignalsKept(config, inputs);
          StartedTells(r, event);
        }
      case ApplyChaos(command, now) =>
        AppliesExactly(config, inputs, input, command);
        PowerupTells(r, command, now);
      case _ => SignalTells(r, input);
    }
  }

  /** Before the first turn. */
  lemma PrologueTells(config: Config)
    ensures OpeningSnapshot(config).events == PushAll([], PrologueNotes(config))
  {
    var started := GameEvent(Lifecycle, RoundStarted);
    PushOne([], started);
    match config.input.detectedBadgeCount
    case None => assert [started] + [] == [started];
    case Some(n) =>
      var slots := if config.input.backlogOverride.Some? then config.input.backlogOverride.value
        else if config.fullBacklog || n == 1 then n else n - 1;
      var ready := GameEvent(Lifecycle, if n == 0 then NothingToSchedule else BadgesReady(n, slots));
      PushOne(PushAll([], [started]), ready);
      PushAllJoins([], [started], [ready]);
  }

  /** With no questions the first turn deals nothing. */
  lemma NothingDealt(r: Round, rustOnly: bool, deadlineMs: nat)
    requires r.config.input.questions == [] && r.table.available == [] && r.pending == []
    ensures var f := Fill(r, Target(r), rustOnly, deadlineMs);
      f.pending == [] && f.table.available == [] && f.snap.events == r.snap.events && f.announced == r.announced
  {
    assert FillOne(r, rustOnly, deadlineMs).pendingActivities == r.pendingActivities;
  }

  lemma EmptyRoundTells(config: Config)
    requires config.input.questions == []
    ensures var r, s := Opening(config), Run(config, []);
      s.snap.events == PushAll(r.snap.events,
        (if config.input.durationSeconds > 0 then [GameEvent(Lifecycle, DeckExhausted)] else []) + FinalNotes(s))
  {
    var swept, s := Swept(Opening(config), config.startedMs), Run(config, []);
    if config.input.durationSeconds > 0 {
      var filled := Refilled(swept, config.startedMs);
      NothingDealt(swept, false, config.Deadline());
      var exhausted := filled.(snap := Noted(filled.snap, Lifecycle, DeckExhausted));
      PushOne(swept.snap.events, GameEvent(Lifecycle, DeckExhausted));
      assert s == Finish(exhausted);
      FinishTells(exhausted);
      PushAllJoins(swept.snap.events, [GameEvent(Lifecycle, DeckExhausted)], FinalNotes(s));
    } else {
      FinishTells(swept);
      assert [] + FinalNotes(s) == FinalNotes(s);
    }
  }

  lemma OpeningTells(config: Config)
    ensures Run(config, []).snap.events == PushAll([], OpeningNotes(config, Run(config, [])))
  {
    var r, s := Opening(config), Run(config, []);
    var turn := if config.input.questions != [] then RecycleNotes(1, s.announced) + FinalNotes(s)
      else (if config.input.durationSeconds > 0 then [GameEvent(Lifecycle, DeckExhausted)] else []) + FinalNotes(s);
    assert s.snap.events == PushAll(r.snap.events, turn) by {
      if config.input.questions == [] {
        EmptyRoundTells(config);
      } else {
        OpeningNotExhausted(config);
        TurnTells(r, config.startedMs);
      }
    }
    PrologueTells(config);
    PushAllJoins([], PrologueNotes(config), turn);
  }

  lemma OpeningWindow(config: Config)
    ensures Run(config, []).snap.events == Window(Story(config, []))
  {
    var notes := OpeningNotes(config, Run(config, []));
    OpeningTells(config);
    WindowGrows([], notes);
    assert [] + notes == notes;
  }

  lemma WindowStep(config: Config, inputs: seq<Input>, input: Input)
    requires Run(config, inputs).snap.events == Window(Story(config, inputs))
    ensures var r, s := Run(config, inputs), Step(Run(config, inputs), input);
      s.snap.events == Window(Story(config, inputs) + NotesOf(r, input, s))
  {
    StepTells(config, inputs, input);
    WindowGrows(Story(config, inputs), NotesOf(Run(config, inputs), input, Step(Run(config, inputs), input)));
  }

  /** In every run the board's window is what the event window makes of the
    whole story: by its closed form, the last 24 events that are no answers, and
    the last answers that still fit.
  */
  lemma {:induction false} WindowShowsTheStory(config: Config, inputs: seq<Input>)
    ensures Run(config, inputs).snap.events == Window(Story(config, inputs))
  {
    if inputs == [] {
      OpeningWindow(config);
    } else {
      WindowShowsTheStory(config, inputs[..|inputs| - 1]);
      WindowStep(config, inputs[..|inputs| - 1], inputs[|inputs| - 1]);
    }
  }
}
