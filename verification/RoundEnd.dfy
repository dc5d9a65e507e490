/** When a round ends: told from the snapshot and the input alone. */
module RoundEnd {
  import opened Wrappers
  import opened Contract
  import opened GameSnapshots
  import opened Deck
  import opened Round
  import opened RoundFrames
  import opened RoundScores
  import opened RoundSupply
  import opened RoundAnswers

  /** An input that turns the run loop. */
  predicate Turns(r: Round, input: Input) {
    && r.snap.status == Running
    && (input.Tick? || (input.Completes? && input.index < |r.pending|))
    && r.clock <= input.now
  }

  /** The deadline of the snapshot has come. */
  predicate Due(r: Round, now: nat) {
    r.snap.deadlineMs.Some? && r.snap.deadlineMs.value <= now
  }

  // ---------- one turn ----------

  /** A round over: nothing outstanding, and no new question went out. */
  predicate EndedFrom(r: Round, s: Round) {
    s.snap.status == Finished && s.pending == [] && s.snap.scheduled == r.snap.scheduled && s.table == r.table
  }

  lemma {:induction false} FillKeepsStatus(r: Round, target: nat, rustOnly: bool, deadlineMs: nat)
    ensures Fill(r, target, rustOnly, deadlineMs).snap.status == r.snap.status
    decreases target - r.pendingActivities
  {
    FillFrame(r, target, rustOnly, deadlineMs);
  }

  lemma TurnEnds(r: Round, now: nat)
    requires r.snap.status == Running && r.snap.deadlineMs.Some? && !TakesExhaustedExit(r, now)
    ensures if Due(r, now) then EndedFrom(r, LoopTurn(r, now)) else LoopTurn(r, now).snap.status == Running
  {
    var swept := Swept(r, now);
    FillKeepsStatus(swept, Target(swept), Live(swept.snap.chaos.rustOnlyUntil, now), swept.snap.deadlineMs.value);
  }

  lemma CompletionEnds(r: Round, index: nat, outcome: Outcome, now: nat)
    requires Turns(r, Completes(index, outcome, now)) && r.snap.deadlineMs.Some?
    requires !TakesExhaustedExit(OutcomeRecorded(r, index, outcome, now).(clock := now), now)
    ensures var input := Completes(index, outcome, now);
      if Due(r, now) || (r.snap.chaos.suddenDeath && PicksCorrect(r, input)) then EndedFrom(r, Step(r, input))
      else Step(r, input).snap.status == Running
  {
    TurnEnds(OutcomeRecorded(r, index, outcome, now).(clock := now), now);
  }

  // ---------- runs ----------

  /** A round without questions is over with its first turn. */
  lemma NothingToPlay(config: Config)
    requires config.input.questions == []
    ensures Run(config, []).snap.status == Finished
  {
    var swept := Swept(Opening(config), config.startedMs);
    assert FillOne(swept, false, config.Deadline()).pendingActivities == 0;
  }

  lemma StepHasDeadline(r: Round, input: Input)
    requires r.snap.deadlineMs.Some?
    ensures Step(r, input).snap.deadlineMs.Some? && Step(r, input).config == r.config
    ensures r.snap.status == Finished ==> Step(r, input) == r
  {
    if Enabled(r, input) && Accepted(r, input) {
      match input
      case Tick(now) => LoopTurnFrame(r, now);
      case Completes(index, outcome, now) => LoopTurnFrame(OutcomeRecorded(r, index, outcome, now).(clock := now), now);
      case _ =>
    }
  }

  /** Every run has its deadline, and questions while it is running. */
  lemma {:induction false} RunIsTimed(config: Config, inputs: seq<Input>)
    ensures var r := Run(config, inputs);
      r.config == config && r.snap.deadlineMs.Some? && (config.input.questions == [] ==> r.snap.status == Finished)
  {
    if inputs == [] {
      LoopTurnFrame(Opening(config), config.startedMs);
      if config.input.questions == [] {
        NothingToPlay(config);
      }
    } else {
      RunIsTimed(config, inputs[..|inputs| - 1]);
      StepHasDeadline(Run(config, inputs[..|inputs| - 1]), inputs[|inputs| - 1]);
    }
  }

  /** In every run a turn of the loop ends the round exactly when its deadline
    has come, or when it takes a correct answer under sudden death. The end
    drops what is outstanding and puts no further question out.
  */
  lemma TurnEndsExactly(config: Config, inputs: seq<Input>, input: Input)
    requires Turns(Run(config, inputs), input)
    ensures var r, s := Run(config, inputs), Step(Run(config, inputs), input);
      && (s.snap.status == Finished <==> Due(r, input.now) || (r.snap.chaos.suddenDeath && PicksCorrect(r, input)))
      && (s.snap.status == Finished ==> EndedFrom(r, s))
  {
    var r := Run(config, inputs);
    RunIsTimed(config, inputs);
    DeckNeverExhausted(config, inputs, input.now);
    match input
    case Tick(now) => TurnEnds(r, now);
    case Completes(index, outcome, now) => CompletionEnds(r, index, outcome, now);
  }

  /** No other input ends a round. */
  lemma OnlyTurnsEnd(r: Round, input: Input)
    requires r.snap.status == Running && !Turns(r, input)
    ensures Step(r, input).snap.status == Running && Step(r, input).table == r.table && Step(r, input).pending == r.pending
  {
  }

  /** A round gets past its opening turn exactly when it has a question and
    some time to play.
  */
  lemma RoundBegins(config: Config)
    ensures Run(config, []).snap.status == Running <==> config.input.questions != [] && config.input.durationSeconds > 0
  {
    if config.input.questions == [] {
      NothingToPlay(config);
    } else {
      OpeningNotExhausted(config);
      TurnEnds(Opening(config), config.startedMs);
    }
  }

  // ---------- ending early ----------

  predicate IsExtension(input: Input) {
    input.ApplyChaos? && input.command == ExtendThirtySeconds
  }

  lemma DueStays(r: Round, input: Input)
    requires r.snap.status == Running && Due(r, r.clock)
    requires !input.Tick? && !input.Completes? && !IsExtension(input)
    ensures Step(r, input).snap.status == Running && Due(Step(r, input), Step(r, input).clock)
  {
  }

  lemma EndMakesDue(r: Round, t: nat)
    requires r.snap.status == Running && r.clock <= t
    ensures Step(r, EndRound(t)).snap.status == Running && Due(Step(r, EndRound(t)), Step(r, EndRound(t)).clock)
  {
  }

  /** After an accepted `end_round` the deadline is in the past, until a turn
    of the loop or an extension.
  */
  lemma {:induction false} EndStaysDue(config: Config, inputs: seq<Input>, t: nat, more: seq<Input>)
    requires Run(config, inputs).snap.status == Running && Run(config, inputs).clock <= t
    requires forall k :: 0 <= k < |more| ==> !more[k].Tick? && !more[k].Completes? && !IsExtension(more[k])
    ensures var r := Run(config, inputs + [EndRound(t)] + more);
      r.snap.status == Running && Due(r, r.clock)
  {
    var all := inputs + [EndRound(t)] + more;
    if more == [] {
      assert all[..|all| - 1] == inputs;
      EndMakesDue(Run(config, inputs), t);
    } else {
      var earlier := inputs + [EndRound(t)] + more[..|more| - 1];
      EndStaysDue(config, inputs, t, more[..|more| - 1]);
      assert all[..|all| - 1] == earlier;
      DueStays(Run(config, earlier), more[|more| - 1]);
    }
  }

  /** The first turn after an accepted `end_round` finishes the round, unless
    the extension came in between.
  */
  lemma EndRoundFinishes(config: Config, inputs: seq<Input>, t: nat, more: seq<Input>, turn: Input)
    requires Run(config, inputs).snap.status == Running && Run(config, inputs).clock <= t
    requires forall k :: 0 <= k < |more| ==> !more[k].Tick? && !more[k].Completes? && !IsExtension(more[k])
    requires Turns(Run(config, inputs + [EndRound(t)] + more), turn)
    ensures Step(Run(config, inputs + [EndRound(t)] + more), turn).snap.status == Finished
  {
    EndStaysDue(config, inputs, t, more);
    TurnEndsExactly(config, inputs + [EndRound(t)] + more, turn);
  }
}
