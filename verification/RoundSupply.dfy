/** What the deck owes the round: every card accounted for, no Activity ID
  twice, and no starving badge.
*/
module RoundSupply {
  import opened Wrappers
  import opened Contract
  import opened SeqFacts
  import opened GameSnapshots
  import opened Deck
  import opened Round
  import opened RoundFrames
  import opened RoundScores

  // ---------- conservation ----------

  ghost predicate CardsConserved(r: Round) {
    r.table.cycle >= 1 && (r.table.cycle < U32_MAX ==> Conserved(r.table, r.config.input.questions))
  }

  function QuestionsOf(tasks: seq<QuestionTask>): seq<Question> {
    seq(|tasks|, i requires 0 <= i < |tasks| => tasks[i].question)
  }

  /** Every outstanding Activity was dealt from the deck, one for one. */
  ghost predicate PendingWereDealt(r: Round) {
    multiset(QuestionsOf(r.pending)) <= multiset(r.table.dealt)
  }

  ghost predicate Supplied(r: Round) {
    CardsConserved(r) && PendingWereDealt(r)
  }

  lemma FillOneIsDeal(r: Round, rustOnly: bool, deadlineMs: nat)
    ensures FillOne(r, rustOnly, deadlineMs).table == DealOnce(r.table, r.config.input.questions, rustOnly, r.config.eligibleRefill)
    ensures FillOne(r, rustOnly, deadlineMs).config == r.config
  {
  }

  lemma PendingGrow(pending: seq<QuestionTask>, task: QuestionTask)
    ensures QuestionsOf(pending + [task]) == QuestionsOf(pending) + [task.question]
  {
  }

  lemma PendingShrink(pending: seq<QuestionTask>, index: nat)
    requires index < |pending|
    ensures multiset(QuestionsOf(Without(pending, index))) <= multiset(QuestionsOf(pending))
  {
    var questions := QuestionsOf(pending);
    TakesOut(questions, index);
    assert QuestionsOf(Without(pending, index)) == questions[..index] + questions[index + 1..];
  }

  lemma FillOnePending(r: Round, rustOnly: bool, deadlineMs: nat)
    requires PendingWereDealt(r)
    ensures PendingWereDealt(FillOne(r, rustOnly, deadlineMs))
  {
    var next := FillOne(r, rustOnly, deadlineMs);
    if next.pending != r.pending {
      PendingGrow(r.pending, next.pending[|r.pending|]);
    }
  }

  lemma FillOneCards(r: Round, rustOnly: bool, deadlineMs: nat)
    requires CardsConserved(r)
    ensures CardsConserved(FillOne(r, rustOnly, deadlineMs))
  {
    var template := r.config.input.questions;
    FillOneIsDeal(r, rustOnly, deadlineMs);
    CycleNeverFalls(r.table, template, rustOnly, r.config.eligibleRefill);
    if FillOne(r, rustOnly, deadlineMs).table.cycle < U32_MAX {
      DealOnceConserves(r.table, template, rustOnly, r.config.eligibleRefill);
    }
  }

  lemma {:induction false} FillSupplies(r: Round, target: nat, rustOnly: bool, deadlineMs: nat)
    requires Supplied(r)
    ensures Supplied(Fill(r, target, rustOnly, deadlineMs))
    decreases target - r.pendingActivities
  {
    if r.pendingActivities < target {
      var next := FillOne(r, rustOnly, deadlineMs);
      FillOnePending(r, rustOnly, deadlineMs);
      FillOneCards(r, rustOnly, deadlineMs);
      if next.pendingActivities != r.pendingActivities {
        FillSupplies(next, target, rustOnly, deadlineMs);
      }
    }
  }

  lemma LoopTurnSupplies(r: Round, now: nat)
    requires Supplied(r)
    ensures Supplied(LoopTurn(r, now))
  {
    var swept := Swept(r, now);
    if swept.snap.deadlineMs.Some? {
      FillSupplies(swept, Target(swept), Live(swept.snap.chaos.rustOnlyUntil, now), swept.snap.deadlineMs.value);
    }
  }

  lemma CompletionSupplies(r: Round, index: nat, outcome: Outcome, now: nat)
    requires Supplied(r) && index < |r.pending|
    ensures Supplied(Completed(r, index, outcome, now))
  {
    var recorded := OutcomeRecorded(r, index, outcome, now).(clock := now);
    assert recorded.table == r.table && recorded.pending == Without(r.pending, index);
    PendingShrink(r.pending, index);
    LoopTurnSupplies(recorded, now);
  }

  lemma {:induction false} RunSupplied(config: Config, inputs: seq<Input>)
    ensures Run(config, inputs).config == config && Supplied(Run(config, inputs))
  {
    if inputs == [] {
      assert QuestionsOf([]) == [];
      LoopTurnFrame(Opening(config), config.startedMs);
      LoopTurnSupplies(Opening(config), config.startedMs);
    } else {
      var r, input := Run(config, inputs[..|inputs| - 1]), inputs[|inputs| - 1];
      RunSupplied(config, inputs[..|inputs| - 1]);
      StepSupplies(r, input);
    }
  }

  lemma StepSupplies(r: Round, input: Input)
    requires Supplied(r)
    ensures Supplied(Step(r, input)) && Step(r, input).config == r.config
  {
    if Enabled(r, input) && Accepted(r, input) {
      match input
      case Tick(now) =>
        LoopTurnFrame(r, now);
        LoopTurnSupplies(r, now);
      case Completes(index, outcome, now) =>
        LoopTurnFrame(OutcomeRecorded(r, index, outcome, now).(clock := now), now);
        CompletionSupplies(r, index, outcome, now);
      case _ =>
    }
  }

  /** Over every run of a round below saturation, dealt and undealt cards are
    the template plus one suffixed copy for each later cycle; from a clean
    template no ID is dealt twice, and no two live Activities share one.
  */
  lemma EveryActivityIdIsFresh(config: Config, inputs: seq<Input>)
    requires Run(config, inputs).table.cycle < U32_MAX
    ensures var r := Run(config, inputs);
      && Conserved(r.table, config.input.questions)
      && (CleanIds(config.input.questions) ==> Distinct(Ids(r.table.dealt)) && Distinct(Ids(QuestionsOf(r.pending))))
  {
    var r, template := Run(config, inputs), config.input.questions;
    RunSupplied(config, inputs);
    if CleanIds(template) {
      CleanDeckUnique(template, r.table.cycle);
      CardsDecide(template, r.table);
      DistinctSplit(Ids(r.table.dealt), Ids(r.table.available));
      SubsetDistinct(QuestionsOf(r.pending), r.table.dealt);
    }
  }

  /** Cards picked out of cards with distinct IDs have distinct IDs. */
  lemma SubsetDistinct(some: seq<Question>, all: seq<Question>)
    requires multiset(some) <= multiset(all) && Distinct(Ids(all))
    ensures Distinct(Ids(some))
  {
    forall i, j | 0 <= i < j < |some| ensures some[i].id != some[j].id {
      assert some[i] in multiset(all) && some[j] in multiset(all);
      var k :| 0 <= k < |all| && all[k] == some[i];
      var l :| 0 <= l < |all| && all[l] == some[j];
      if k == l {
        PairCount(some, i, j);
        TakesOut(all, k);
        SomewhereElse(all, k);
      } else {
        assert Ids(all)[k] != Ids(all)[l];
      }
    }
  }

  lemma PairCount(items: seq<Question>, i: nat, j: nat)
    requires i < j < |items| && items[i] == items[j]
    ensures multiset(items)[items[i]] >= 2
  {
    TakesOut(items, i);
    assert (items[..i] + items[i + 1..])[j - 1] == items[j];
  }

  lemma SomewhereElse(all: seq<Question>, k: nat)
    requires k < |all| && Distinct(Ids(all))
    ensures multiset(all)[all[k]] == 1
  {
    var rest := all[..k] + all[k + 1..];
    TakesOut(all, k);
    forall m | 0 <= m < |rest| ensures rest[m] != all[k] {
      assert Ids(all)[if m < k then m else m + 1] != Ids(all)[k];
    }
    assert all[k] !in multiset(rest);
  }

  // ---------- starvation ----------

  /** A fill pass that misses the target found no eligible card anywhere (after
    the patch), and never because the deck ran dry.
  */
  lemma {:induction false} FillMissesOnlyWithoutCards(r: Round, target: nat, rustOnly: bool, deadlineMs: nat)
    ensures var f := Fill(r, target, rustOnly, deadlineMs);
      f.pendingActivities < target ==>
        && (r.config.eligibleRefill ==>
              !AnyEligible(f.table.available, rustOnly) && !AnyEligible(r.config.input.questions, rustOnly))
        && (r.config.input.questions != [] ==> f.table.available != [])
    decreases target - r.pendingActivities
  {
    if r.pendingActivities < target {
      var next := FillOne(r, rustOnly, deadlineMs);
      if next.pendingActivities == r.pendingActivities {
        FailedFill(r, rustOnly, deadlineMs);
      } else {
        FillMissesOnlyWithoutCards(next, target, rustOnly, deadlineMs);
      }
    }
  }

  lemma FailedFill(r: Round, rustOnly: bool, deadlineMs: nat)
    requires FillOne(r, rustOnly, deadlineMs).pendingActivities == r.pendingActivities
    ensures var template, available := r.config.input.questions, FillOne(r, rustOnly, deadlineMs).table.available;
      && (r.config.eligibleRefill ==> !AnyEligible(available, rustOnly) && !AnyEligible(template, rustOnly))
      && (template != [] ==> available != [])
  {
    var template := r.config.input.questions;
    if r.config.eligibleRefill {
      DealFailsOnlyWithoutCards(r.table.available, template, r.table.cycle, rustOnly);
      DealFailsEmptyHanded(r.table.available, template, r.table.cycle, rustOnly);
    }
    if template != [] {
      FailedDealLeavesCards(r.table.available, template, r.table.cycle, rustOnly, r.config.eligibleRefill);
    }
  }

  /** After every fill pass with the patch, either each slot is taken or no
    eligible card exists, in the deck or in the template.
  */
  lemma NoStarvation(config: Config, inputs: seq<Input>, input: Input)
    requires config.eligibleRefill
    requires input.Tick? || input.Completes?
    requires Enabled(Run(config, inputs), input)
    requires Step(Run(config, inputs), input).snap.status == Running
    ensures var r := Step(Run(config, inputs), input);
      var rustOnly := Live(r.snap.chaos.rustOnlyUntil, input.now);
      |r.pending| == Target(r) || (!AnyEligible(r.table.available, rustOnly) && !AnyEligible(config.input.questions, rustOnly))
  {
    var r := Run(config, inputs);
    SlotsAddUp(config, inputs);
    RunSupplied(config, inputs);
    match input
    case Tick(now) => TurnFills(r, now);
    case Completes(index, outcome, now) =>
      OutcomeSlots(r, index, outcome, now);
      TurnFills(OutcomeRecorded(r, index, outcome, now).(clock := now), now);
  }

  lemma TurnFills(r: Round, now: nat)
    requires r.config.eligibleRefill && r.snap.status == Running && r.pendingActivities == |r.pending| <= Target(r)
    requires LoopTurn(r, now).snap.status == Running
    ensures var t := LoopTurn(r, now);
      var rustOnly := Live(t.snap.chaos.rustOnlyUntil, now);
      |t.pending| == Target(t) || (!AnyEligible(t.table.available, rustOnly) && !AnyEligible(r.config.input.questions, rustOnly))
  {
    var swept := Swept(r, now);
    LoopTurnSlots(r, now);
    LoopTurnFrame(r, now);
    FillMissesOnlyWithoutCards(swept, Target(swept), Live(swept.snap.chaos.rustOnlyUntil, now), swept.snap.deadlineMs.value);
  }

  /** The same after the opening turn, which fills the first slots. */
  lemma OpeningFills(config: Config)
    requires config.eligibleRefill && Run(config, []).snap.status == Running
    ensures var r := Run(config, []);
      var rustOnly := Live(r.snap.chaos.rustOnlyUntil, config.startedMs);
      |r.pending| == Target(r) || (!AnyEligible(r.table.available, rustOnly) && !AnyEligible(config.input.questions, rustOnly))
  {
    TurnFills(Opening(config), config.startedMs);
  }

  // ---------- recycled decks and their events ----------

  /** Every cycle after the first was begun by a recycle, announced or not;
    with a Rust card in the template none goes unannounced.
  */
  ghost predicate RecyclesCounted(r: Round) {
    && r.table.cycle == 1 + r.announced + r.silent
    && (AnyEligible(r.config.input.questions, true) ==> r.silent == 0)
  }

  lemma FillOneRecycles(r: Round, rustOnly: bool, deadlineMs: nat)
    requires RecyclesCounted(r)
    ensures RecyclesCounted(FillOne(r, rustOnly, deadlineMs))
    ensures r.config.input.questions != [] && !rustOnly ==> FillOne(r, rustOnly, deadlineMs).silent == r.silent
  {
    var template := r.config.input.questions;
    SilentRecycleExactly(r.table.available, template, r.table.cycle, rustOnly, r.config.eligibleRefill);
    assert AnyEligible(template, true) ==> AnyEligible(template, rustOnly);
    assert template != [] && !rustOnly ==> Eligible(template[0], rustOnly);
  }

  lemma {:induction false} FillRecycles(r: Round, target: nat, rustOnly: bool, deadlineMs: nat)
    requires RecyclesCounted(r)
    ensures RecyclesCounted(Fill(r, target, rustOnly, deadlineMs))
    ensures r.config.input.questions != [] && !rustOnly ==> Fill(r, target, rustOnly, deadlineMs).silent == r.silent
    decreases target - r.pendingActivities
  {
    if r.pendingActivities < target {
      var next := FillOne(r, rustOnly, deadlineMs);
      FillOneRecycles(r, rustOnly, deadlineMs);
      if next.pendingActivities != r.pendingActivities {
        FillRecycles(next, target, rustOnly, deadlineMs);
      }
    }
  }

  /** A turn recycles unannounced only while Rust-only is in force. */
  lemma TurnRecycles(r: Round, now: nat)
    requires RecyclesCounted(r)
    ensures RecyclesCounted(LoopTurn(r, now))
    ensures r.config.input.questions != [] && !Live(r.snap.chaos.rustOnlyUntil, now) ==> LoopTurn(r, now).silent == r.silent
  {
    var swept := Swept(r, now);
    if swept.snap.deadlineMs.Some? {
      FillRecycles(swept, Target(swept), Live(swept.snap.chaos.rustOnlyUntil, now), swept.snap.deadlineMs.value);
    }
  }

  /** In every reachable state the cycle is one more than the recycles, those
    that pushed their event and those of failed deals that did not; and if the
    template has a Rust card there are none of the second kind.
  */
  lemma {:induction false} RecyclesAddUp(config: Config, inputs: seq<Input>)
    ensures RecyclesCounted(Run(config, inputs)) && Run(config, inputs).config == config
  {
    if inputs == [] {
      TurnRecycles(Opening(config), config.startedMs);
      LoopTurnFrame(Opening(config), config.startedMs);
    } else {
      var r, input := Run(config, inputs[..|inputs| - 1]), inputs[|inputs| - 1];
      RecyclesAddUp(config, inputs[..|inputs| - 1]);
      if Enabled(r, input) && Accepted(r, input) {
        match input
        case Tick(now) => TurnRecycles(r, now); LoopTurnFrame(r, now);
        case Completes(index, outcome, now) => CompletionRecycles(r, index, outcome, now);
        case _ =>
      }
    }
  }

  lemma CompletionRecycles(r: Round, index: nat, outcome: Outcome, now: nat)
    requires RecyclesCounted(r) && index < |r.pending|
    ensures RecyclesCounted(Completed(r, index, outcome, now)) && Completed(r, index, outcome, now).config == r.config
  {
    var recorded := OutcomeRecorded(r, index, outcome, now).(clock := now);
    TurnRecycles(recorded, now);
    LoopTurnFrame(recorded, now);
  }

  // ---------- the exhausted exit ----------

  /** The guard of the "Question deck exhausted" exit of one turn. */
  predicate TakesExhaustedExit(r: Round, now: nat) {
    var swept := Swept(r, now);
    swept.snap.deadlineMs.Some? && now < swept.snap.deadlineMs.value
    && Refilled(swept, now).pending == [] && Refilled(swept, now).table.available == []
  }

  /** A round without slots never touches its deck. */
  predicate IdleDeckIntact(r: Round) {
    Target(r) == 0 ==> r.table.available == r.config.input.questions && r.pendingActivities == 0
  }

  lemma TurnKeepsIdleDeck(r: Round, now: nat)
    requires IdleDeckIntact(r)
    ensures IdleDeckIntact(LoopTurn(r, now))
  {
    LoopTurnFrame(r, now);
  }

  lemma {:induction false} IdleDeckStays(config: Config, inputs: seq<Input>)
    ensures IdleDeckIntact(Run(config, inputs))
  {
    if inputs == [] {
      TurnKeepsIdleDeck(Opening(config), config.startedMs);
    } else {
      var r, input := Run(config, inputs[..|inputs| - 1]), inputs[|inputs| - 1];
      IdleDeckStays(config, inputs[..|inputs| - 1]);
      if Enabled(r, input) && Accepted(r, input) {
        match input
        case Tick(now) => TurnKeepsIdleDeck(r, now);
        case Completes(index, outcome, now) => TurnKeepsIdleDeck(OutcomeRecorded(r, index, outcome, now).(clock := now), now);
        case _ =>
      }
    }
  }

  lemma TurnNotExhausted(r: Round, now: nat)
    requires r.config.input.questions != [] && IdleDeckIntact(r)
    requires r.pendingActivities == |r.pending| <= Target(r)
    ensures !TakesExhaustedExit(r, now)
  {
    var swept := Swept(r, now);
    if swept.snap.deadlineMs.Some? {
      var rustOnly := Live(swept.snap.chaos.rustOnlyUntil, now);
      FillFrame(swept, Target(swept), rustOnly, swept.snap.deadlineMs.value);
      FillMissesOnlyWithoutCards(swept, Target(swept), rustOnly, swept.snap.deadlineMs.value);
    }
  }

  /** Nor does the opening turn take it. */
  lemma OpeningNotExhausted(config: Config)
    requires config.input.questions != []
    ensures !TakesExhaustedExit(Opening(config), config.startedMs)
  {
    TurnNotExhausted(Opening(config), config.startedMs);
  }

  /** With questions to play the exhausted exit is never taken, before and
    after the patch: neither by a tick nor after a completion.
  */
  lemma DeckNeverExhausted(config: Config, inputs: seq<Input>, now: nat)
    requires config.input.questions != [] && Run(config, inputs).snap.status == Running
    ensures !TakesExhaustedExit(Run(config, inputs), now)
    ensures forall index, outcome :: 0 <= index < |Run(config, inputs).pending| ==>
      !TakesExhaustedExit(OutcomeRecorded(Run(config, inputs), index, outcome, now).(clock := now), now)
  {
    var r := Run(config, inputs);
    RunSupplied(config, inputs);
    SlotsAddUp(config, inputs);
    IdleDeckStays(config, inputs);
    TurnNotExhausted(r, now);
    forall index, outcome | 0 <= index < |r.pending|
      ensures !TakesExhaustedExit(OutcomeRecorded(r, index, outcome, now).(clock := now), now)
    {
      OutcomeSlots(r, index, outcome, now);
      TurnNotExhausted(OutcomeRecorded(r, index, outcome, now).(clock := now), now);
    }
  }
}
