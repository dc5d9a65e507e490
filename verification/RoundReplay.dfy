/** Replaying the eligible-deck-refill patch (web/src/workflow.rs,
  `ELIGIBLE_DECK_REFILL_PATCH`): a history in which Rust-only was never
  accepted replays to the same round with the patch on or off.
*/
module RoundReplay {
  import opened Wrappers
  import opened Contract
  import opened GameSnapshots
  import opened Deck
  import opened Round
  import opened RoundFrames

  function Patched(r: Round, on: bool): Round {
    r.(config := r.config.(eligibleRefill := on))
  }

  /** Whether this input is an accepted Rust-only Update. */
  predicate StartsRustOnly(r: Round, input: Input) {
    input.ApplyChaos? && input.command == RustOnly && Enabled(r, input) && Accepted(r, input)
  }

  ghost predicate NeverRustOnly(config: Config, inputs: seq<Input>) {
    forall k :: 0 <= k < |inputs| ==> !StartsRustOnly(Run(config, inputs[..k]), inputs[k])
  }

  lemma NeverPrefix(config: Config, inputs: seq<Input>)
    requires inputs != [] && NeverRustOnly(config, inputs)
    ensures NeverRustOnly(config, inputs[..|inputs| - 1])
    ensures !StartsRustOnly(Run(config, inputs[..|inputs| - 1]), inputs[|inputs| - 1])
  {
    var earlier := inputs[..|inputs| - 1];
    forall k | 0 <= k < |earlier| ensures !StartsRustOnly(Run(config, earlier[..k]), earlier[k]) {
      assert earlier[..k] == inputs[..k];
    }
  }

  lemma AfterDealIgnoresPatch(r: Round, on: bool, deal: Deal, deadlineMs: nat)
    ensures AfterDeal(Patched(r, on), deal, deadlineMs) == Patched(AfterDeal(r, deal, deadlineMs), on)
  {
  }

  lemma FillOneIgnoresPatch(r: Round, on: bool, deadlineMs: nat)
    ensures FillOne(Patched(r, on), false, deadlineMs) == Patched(FillOne(r, false, deadlineMs), on)
  {
    var available, template, cycle := r.table.available, r.config.input.questions, r.table.cycle;
    var deal := DealFrom(available, template, cycle, false, r.config.eligibleRefill);
    assert DealFrom(available, template, cycle, false, on) == deal by {
      PatchIsInvisible(available, template, cycle);
    }
    AfterDealIgnoresPatch(r, on, deal, deadlineMs);
  }

  lemma {:induction false} FillIgnoresPatch(r: Round, on: bool, target: nat, deadlineMs: nat)
    ensures Fill(Patched(r, on), target, false, deadlineMs) == Patched(Fill(r, target, false, deadlineMs), on)
    decreases target - r.pendingActivities
  {
    if r.pendingActivities < target {
      FillOneIgnoresPatch(r, on, deadlineMs);
      var next := FillOne(r, false, deadlineMs);
      if next.pendingActivities != r.pendingActivities {
        FillIgnoresPatch(next, on, target, deadlineMs);
      }
    }
  }

  lemma LoopTurnIgnoresPatch(r: Round, on: bool, now: nat)
    requires r.snap.chaos.rustOnlyUntil.None?
    ensures LoopTurn(Patched(r, on), now) == Patched(LoopTurn(r, now), on)
  {
    var swept := Swept(r, now);
    if swept.snap.deadlineMs.Some? {
      FillIgnoresPatch(swept, on, Target(swept), swept.snap.deadlineMs.value);
    }
  }

  lemma CompletionIgnoresPatch(r: Round, on: bool, index: nat, outcome: Outcome, now: nat)
    requires r.snap.chaos.rustOnlyUntil.None? && index < |r.pending|
    ensures Completed(Patched(r, on), index, outcome, now) == Patched(Completed(r, index, outcome, now), on)
    ensures Completed(r, index, outcome, now).snap.chaos.rustOnlyUntil.None?
  {
    var recorded := OutcomeRecorded(r, index, outcome, now).(clock := now);
    assert OutcomeRecorded(Patched(r, on), index, outcome, now).(clock := now) == Patched(recorded, on);
    LoopTurnIgnoresPatch(recorded, on, now);
    LoopTurnFrame(recorded, now);
  }

  lemma StartedIgnoresPatch(r: Round, on: bool, event: BadgeEvent)
    ensures ActivityStarted(Patched(r, on), event) == Patched(ActivityStarted(r, event), on)
    ensures ActivityStarted(r, event).snap.chaos == r.snap.chaos
  {
  }

  lemma PanicIgnoresPatch(r: Round, on: bool, event: BadgeEvent)
    ensures PanicRecorded(Patched(r, on), event) == Patched(PanicRecorded(r, event), on)
    ensures PanicRecorded(r, event).snap.chaos == r.snap.chaos
  {
  }

  /** A Signal or an Update never looks at the patch. */
  lemma SignalIgnoresPatch(r: Round, on: bool, input: Input)
    requires !input.Tick? && !input.Completes?
    ensures Step(Patched(r, on), input) == Patched(Step(r, input), on)
  {
    match input
    case BadgeStarted(event) => StartedIgnoresPatch(r, on, event);
    case PanicEvent(event) => PanicIgnoresPatch(r, on, event);
    case _ =>
  }

  lemma SignalKeepsRustOff(r: Round, input: Input)
    requires !input.Tick? && !input.Completes?
    requires r.snap.chaos.rustOnlyUntil.None? && !StartsRustOnly(r, input)
    ensures Step(r, input).snap.chaos.rustOnlyUntil.None?
  {
    if input.BadgeStarted? {
      StartedIgnoresPatch(r, true, input.event);
    }
  }

  lemma StepIgnoresPatch(r: Round, on: bool, input: Input)
    requires r.snap.chaos.rustOnlyUntil.None? && !StartsRustOnly(r, input)
    ensures Step(Patched(r, on), input) == Patched(Step(r, input), on)
    ensures Step(r, input).snap.chaos.rustOnlyUntil.None?
  {
    if input.Tick? {
      LoopTurnIgnoresPatch(r, on, input.now);
      LoopTurnFrame(r, input.now);
    } else if input.Completes? {
      if Enabled(r, input) {
        CompletionIgnoresPatch(r, on, input.index, input.outcome, input.now);
      }
    } else {
      SignalIgnoresPatch(r, on, input);
      SignalKeepsRustOff(r, input);
    }
  }

  /** For the same inputs, a run in which Rust-only is never accepted is the
    same run with the patch on or off: the same state after every input, hence
    the same questions under the same IDs on the same cycles.
  */
  lemma {:induction false} PatchReplays(config: Config, inputs: seq<Input>, on: bool)
    requires NeverRustOnly(config, inputs)
    ensures Run(config.(eligibleRefill := on), inputs) == Patched(Run(config, inputs), on)
    ensures Run(config, inputs).snap.chaos.rustOnlyUntil.None?
  {
    if inputs == [] {
      assert Opening(config.(eligibleRefill := on)) == Patched(Opening(config), on);
      LoopTurnIgnoresPatch(Opening(config), on, config.startedMs);
      LoopTurnFrame(Opening(config), config.startedMs);
    } else {
      NeverPrefix(config, inputs);
      PatchReplays(config, inputs[..|inputs| - 1], on);
      StepIgnoresPatch(Run(config, inputs[..|inputs| - 1]), on, inputs[|inputs| - 1]);
    }
  }
}
