/** How far the deadline can move, and what a dealt task is told about it. */
module RoundDeadline {
  import opened Wrappers
  import opened Contract
  import opened GameSnapshots
  import opened Deck
  import opened Round
  import opened RoundFrames

  /** The latest moment at which ending the round cannot push the deadline past
    its bound: the extension, while unused, still has to fit.
  */
  function Headroom(r: Round): nat {
    if r.snap.chaos.extensionUsed then r.config.LastDeadline() else r.config.Deadline()
  }

  predicate DeadlineFits(r: Round) {
    r.snap.deadlineMs.Some? && r.snap.deadlineMs.value <= Headroom(r)
  }

  /** An accepted `end_round` that comes too late to fit. */
  predicate EndsLate(r: Round, input: Input) {
    input.EndRound? && Enabled(r, input) && Accepted(r, input) && input.now > Headroom(r)
  }

  lemma StepDeadline(r: Round, input: Input)
    ensures var s := Step(r, input);
      && s.config == r.config
      && (s == r
          || (input.EndRound? && Enabled(r, input) && Accepted(r, input) && s.snap.deadlineMs == Some(input.now) && s.snap.chaos == r.snap.chaos)
          || (input.ApplyChaos? && s.snap.chaos.extensionUsed == (r.snap.chaos.extensionUsed || input.command == ExtendThirtySeconds)
              && (input.command == ExtendThirtySeconds ==> !r.snap.chaos.extensionUsed)
              && s.snap.deadlineMs == ExtendedDeadline(r.snap.deadlineMs, input.command))
          || (s.snap.deadlineMs == r.snap.deadlineMs && s.snap.chaos.extensionUsed == r.snap.chaos.extensionUsed))
  {
    if Enabled(r, input) && Accepted(r, input) {
      match input
      case Tick(now) => LoopTurnFrame(r, now);
      case Completes(index, outcome, now) => CompletionDeadline(r, index, outcome, now);
      case _ =>
    }
  }

  lemma CompletionDeadline(r: Round, index: nat, outcome: Outcome, now: nat)
    requires index < |r.pending|
    ensures var s := Completed(r, index, outcome, now);
      && s.config == r.config && s.snap.deadlineMs == r.snap.deadlineMs
      && s.snap.chaos.extensionUsed == r.snap.chaos.extensionUsed
  {
    LoopTurnFrame(OutcomeRecorded(r, index, outcome, now).(clock := now), now);
  }

  /** A step keeps the deadline within its headroom exactly when it is not a
    late end of the round.
  */
  lemma StepKeepsDeadline(r: Round, input: Input)
    requires DeadlineFits(r)
    ensures DeadlineFits(Step(r, input)) <==> !EndsLate(r, input)
  {
    StepDeadline(r, input);
  }

  /** No accepted `end_round` in this run came too late. */
  ghost predicate TimelyEnds(config: Config, inputs: seq<Input>) {
    forall k :: 0 <= k < |inputs| ==> !EndsLate(Run(config, inputs[..k]), inputs[k])
  }

  lemma TimelyPrefix(config: Config, inputs: seq<Input>)
    requires inputs != [] && TimelyEnds(config, inputs)
    ensures TimelyEnds(config, inputs[..|inputs| - 1])
    ensures !EndsLate(Run(config, inputs[..|inputs| - 1]), inputs[|inputs| - 1])
  {
    var earlier := inputs[..|inputs| - 1];
    forall k | 0 <= k < |earlier| ensures !EndsLate(Run(config, earlier[..k]), earlier[k]) {
      assert earlier[..k] == inputs[..k];
    }
  }

  /** Then the deadline never passes start + duration + 30 s. */
  lemma {:induction false} DeadlineBounded(config: Config, inputs: seq<Input>)
    requires TimelyEnds(config, inputs)
    ensures var r := Run(config, inputs);
      r.config == config && DeadlineFits(r) && r.snap.deadlineMs.value <= config.LastDeadline()
  {
    if inputs == [] {
      LoopTurnFrame(Opening(config), config.startedMs);
    } else {
      TimelyPrefix(config, inputs);
      DeadlineBounded(config, inputs[..|inputs| - 1]);
      StepDeadline(Run(config, inputs[..|inputs| - 1]), inputs[|inputs| - 1]);
      StepKeepsDeadline(Run(config, inputs[..|inputs| - 1]), inputs[|inputs| - 1]);
    }
  }

  /** The condition is exact: ending the round keeps the bound for every
    operator who might still play the extension exactly when it is timely.
  */
  lemma LateEndBreaksTheBound(r: Round, now: nat)
    requires DeadlineFits(r) && r.snap.status == Running && now >= r.clock
    ensures var ended := Step(r, EndRound(now));
      var extended := Step(ended, ApplyChaos(ExtendThirtySeconds, now));
      !EndsLate(r, EndRound(now))
      <==> ended.snap.deadlineMs.value <= r.config.LastDeadline() && extended.snap.deadlineMs.value <= r.config.LastDeadline()
  {
  }

  /** Ending no later than the deadline that is replaced is always timely. */
  lemma EndBeforeDeadlineIsTimely(r: Round, now: nat)
    requires DeadlineFits(r) && now <= r.snap.deadlineMs.value
    ensures !EndsLate(r, EndRound(now))
  {
  }

  // ---------- what a task carries ----------

  predicate TasksCarryCeiling(r: Round) {
    forall i :: 0 <= i < |r.pending| ==> r.pending[i].maxDeadlineMs == r.config.LastDeadline()
  }

  lemma {:induction false} FillTasks(r: Round, target: nat, rustOnly: bool, deadlineMs: nat)
    requires TasksCarryCeiling(r)
    ensures TasksCarryCeiling(Fill(r, target, rustOnly, deadlineMs))
    decreases target - r.pendingActivities
  {
    if r.pendingActivities < target {
      var next := FillOne(r, rustOnly, deadlineMs);
      if next.pendingActivities != r.pendingActivities {
        FillTasks(next, target, rustOnly, deadlineMs);
      }
    }
  }

  lemma LoopTurnTasks(r: Round, now: nat)
    requires TasksCarryCeiling(r)
    ensures TasksCarryCeiling(LoopTurn(r, now))
  {
    var swept := Swept(r, now);
    if swept.snap.deadlineMs.Some? {
      FillTasks(swept, Target(swept), Live(swept.snap.chaos.rustOnlyUntil, now), swept.snap.deadlineMs.value);
    }
  }

  lemma {:induction false} TasksKnowTheCeiling(config: Config, inputs: seq<Input>)
    ensures TasksCarryCeiling(Run(config, inputs))
  {
    if inputs == [] {
      LoopTurnTasks(Opening(config), config.startedMs);
    } else {
      var r, input := Run(config, inputs[..|inputs| - 1]), inputs[|inputs| - 1];
      TasksKnowTheCeiling(config, inputs[..|inputs| - 1]);
      if Enabled(r, input) && Accepted(r, input) {
        match input
        case Tick(now) => LoopTurnTasks(r, now);
        case Completes(index, outcome, now) => LoopTurnTasks(OutcomeRecorded(r, index, outcome, now).(clock := now), now);
        case _ =>
      }
    }
  }

  /** No outstanding task plays to a ceiling below the Workflow's deadline,
    whatever happened to that deadline since it was dealt.
  */
  lemma TasksOutliveTheDeadline(config: Config, inputs: seq<Input>, i: nat)
    requires TimelyEnds(config, inputs) && i < |Run(config, inputs).pending|
    ensures var r := Run(config, inputs);
      r.snap.deadlineMs.Some? && r.pending[i].LatestPossibleDeadline() >= r.snap.deadlineMs.value
  {
    DeadlineBounded(config, inputs);
    TasksKnowTheCeiling(config, inputs);
  }

  // ---------- the Activity's own timeout ----------

  /** How long after it is dealt an Activity is closed at the latest. */
  function ScheduleToCloseMs(config: Config): nat {
    (config.input.durationSeconds + 35) * 1_000
  }

  lemma {:induction false} ClockStartsWithTheRound(config: Config, inputs: seq<Input>)
    ensures Run(config, inputs).clock >= config.startedMs
  {
    if inputs == [] {
      LoopTurnFrame(Opening(config), config.startedMs);
    } else {
      var r, input := Run(config, inputs[..|inputs| - 1]), inputs[|inputs| - 1];
      ClockStartsWithTheRound(config, inputs[..|inputs| - 1]);
      if Enabled(r, input) && Accepted(r, input) {
        match input
        case Tick(now) => LoopTurnFrame(r, now);
        case Completes(index, outcome, now) => LoopTurnFrame(OutcomeRecorded(r, index, outcome, now).(clock := now), now);
        case _ =>
      }
    }
  }

  /** An Activity dealt at any moment of a run is closed by its own timeout
    only after every deadline the rest of the run can set.
  */
  lemma TimeoutOutlastsTheDeadline(config: Config, inputs: seq<Input>, more: seq<Input>)
    requires TimelyEnds(config, inputs + more)
    ensures var dealtMs, later := Run(config, inputs).clock, Run(config, inputs + more);
      later.snap.deadlineMs.Some? && dealtMs + ScheduleToCloseMs(config) > later.snap.deadlineMs.value
  {
    ClockStartsWithTheRound(config, inputs);
    DeadlineBounded(config, inputs + more);
  }
}
