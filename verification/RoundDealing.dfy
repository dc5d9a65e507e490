/** What the turns of a round deal, to how many slots, and as which tasks. */
module RoundDealing {
  import opened Wrappers
  import opened Contract
  import opened GameSnapshots
  import opened Deck
  import opened Round
  import opened RoundFrames
  import opened RoundScores
  import opened RoundSupply
  import opened RoundReplay
  import opened RoundPowerups
  import opened DeckOrder
  import opened RoundEnd

  /** The cards that went out between two states of a round. */
  function DealtSince(r: Round, s: Round): seq<Question> {
    if r.table.dealt <= s.table.dealt then s.table.dealt[|r.table.dealt|..] else []
  }

  /** Rust-only has time left. */
  predicate RustInForce(r: Round, now: nat) {
    r.snap.chaos.rustOnlyUntil.Some? && now < r.snap.chaos.rustOnlyUntil.value
  }

  predicate AllRust(questions: seq<Question>) {
    forall k :: 0 <= k < |questions| ==> questions[k].category == "rust"
  }

  /** The tasks of a round for some cards, with this deadline. */
  function TasksOf(config: Config, deadlineMs: nat, cards: seq<Question>): seq<QuestionTask> {
    seq(|cards|, k requires 0 <= k < |cards| =>
      QuestionTask(config.input.gameId, deadlineMs, config.startedMs + 1_000 * config.input.durationSeconds + 30_000, cards[k]))
  }

  /** These cards went out, in this order, each as one task. */
  ghost predicate DealtOut(r: Round, f: Round, cards: seq<Question>, rustOnly: bool, deadlineMs: nat) {
    && f.table.dealt == r.table.dealt + cards
    && f.pending == r.pending + TasksOf(r.config, deadlineMs, cards)
    && f.snap.scheduled == r.snap.scheduled + |cards|
    && f.config == r.config
    && (rustOnly ==> AllRust(cards))
  }

  lemma TasksJoin(config: Config, deadlineMs: nat, a: seq<Question>, b: seq<Question>)
    ensures TasksOf(config, deadlineMs, a + b) == TasksOf(config, deadlineMs, a) + TasksOf(config, deadlineMs, b)
  {
  }

  lemma Regrouped<T>(a: seq<T>, b: seq<T>, c: seq<T>)
    ensures a + b + c == a + (b + c)
  {
  }

  lemma DealtOutJoins(r: Round, m: Round, f: Round, a: seq<Question>, b: seq<Question>, rustOnly: bool, deadlineMs: nat)
    requires DealtOut(r, m, a, rustOnly, deadlineMs) && DealtOut(m, f, b, rustOnly, deadlineMs)
    ensures DealtOut(r, f, a + b, rustOnly, deadlineMs)
  {
    TasksJoin(r.config, deadlineMs, a, b);
    Regrouped(r.table.dealt, a, b);
    Regrouped(r.pending, TasksOf(r.config, deadlineMs, a), TasksOf(r.config, deadlineMs, b));
  }

  lemma DealIsRust(available: seq<Question>, template: seq<Question>, cycle: nat, eligibleRefill: bool)
    ensures var question := DealFrom(available, template, cycle, true, eligibleRefill).question;
      question.Some? ==> question.value.category == "rust"
  {
    TakeIsEligible(available, cycle, true);
    TakeIsEligible(available + Refill(template, NextCycle(cycle)), NextCycle(cycle), true);
  }

  lemma DealGoesOut(r: Round, deal: Deal, rustOnly: bool, deadlineMs: nat)
    requires rustOnly && deal.question.Some? ==> deal.question.value.category == "rust"
    ensures DealtOut(r, AfterDeal(r, deal, deadlineMs), DealtOf(deal.question), rustOnly, deadlineMs)
  {
    match deal.question
    case None => assert TasksOf(r.config, deadlineMs, []) == [];
    case Some(card) => assert TasksOf(r.config, deadlineMs, [card]) == [TaskFor(r.config, deadlineMs, card)];
  }

  lemma FillOneDeals(r: Round, rustOnly: bool, deadlineMs: nat) returns (cards: seq<Question>)
    ensures DealtOut(r, FillOne(r, rustOnly, deadlineMs), cards, rustOnly, deadlineMs)
  {
    var available, template, cycle := r.table.available, r.config.input.questions, r.table.cycle;
    if rustOnly {
      DealIsRust(available, template, cycle, r.config.eligibleRefill);
    }
    var deal := DealFrom(available, template, cycle, rustOnly, r.config.eligibleRefill);
    cards := DealtOf(deal.question);
    DealGoesOut(r, deal, rustOnly, deadlineMs);
  }

  lemma {:induction false} FillDeals(r: Round, target: nat, rustOnly: bool, deadlineMs: nat) returns (cards: seq<Question>)
    ensures DealtOut(r, Fill(r, target, rustOnly, deadlineMs), cards, rustOnly, deadlineMs)
    decreases target - r.pendingActivities
  {
    cards := [];
    if r.pendingActivities < target {
      var next := FillOne(r, rustOnly, deadlineMs);
      cards := FillOneDeals(r, rustOnly, deadlineMs);
      if next.pendingActivities != r.pendingActivities {
        var more := FillDeals(next, target, rustOnly, deadlineMs);
        DealtOutJoins(r, next, Fill(next, target, rustOnly, deadlineMs), cards, more, rustOnly, deadlineMs);
        cards := cards + more;
      }
    } else {
      assert TasksOf(r.config, deadlineMs, []) == [];
    }
  }

  lemma TurnDeals(r: Round, now: nat)
    requires r.snap.status == Running && r.snap.deadlineMs.Some? && LoopTurn(r, now).snap.status == Running
    ensures DealtOut(r, LoopTurn(r, now), DealtSince(r, LoopTurn(r, now)), RustInForce(r, now), r.snap.deadlineMs.value)
  {
    var swept := Swept(r, now);
    var rustOnly := Live(swept.snap.chaos.rustOnlyUntil, now);
    var cards := FillDeals(swept, Target(swept), rustOnly, swept.snap.deadlineMs.value);
    FillKeepsStatus(swept, Target(swept), rustOnly, swept.snap.deadlineMs.value);
    assert LoopTurn(r, now) == Refilled(swept, now);
    SinceIs(r, LoopTurn(r, now), cards);
  }

  lemma SinceIs(r: Round, s: Round, cards: seq<Question>)
    requires s.table.dealt == r.table.dealt + cards
    ensures DealtSince(r, s) == cards
  {
  }

  /** The tasks a turn keeps outstanding. */
  function Kept(r: Round, input: Input): seq<QuestionTask> {
    if input.Completes? && input.index < |r.pending| then r.pending[..input.index] + r.pending[input.index + 1..] else r.pending
  }

  lemma CompletionDeals(r: Round, index: nat, outcome: Outcome, now: nat)
    requires Turns(r, Completes(index, outcome, now)) && r.snap.deadlineMs.Some?
    requires Step(r, Completes(index, outcome, now)).snap.status == Running
    ensures var recorded := OutcomeRecorded(r, index, outcome, now).(clock := now);
      && Step(r, Completes(index, outcome, now)) == LoopTurn(recorded, now)
      && DealtOut(recorded, LoopTurn(recorded, now), DealtSince(recorded, LoopTurn(recorded, now)),
                  RustInForce(recorded, now), r.snap.deadlineMs.value)
      && recorded.table == r.table && recorded.pending == Kept(r, Completes(index, outcome, now))
      && recorded.snap.scheduled == r.snap.scheduled && recorded.config == r.config
      && recorded.snap.chaos == r.snap.chaos
  {
    TurnDeals(OutcomeRecorded(r, index, outcome, now).(clock := now), now);
  }

  /** In every run a turn that goes on hands each card it deals to one task of
    this round, in the order dealt and with the deadline in force, behind the
    tasks still outstanding; under Rust-only the cards are all Rust.
  */
  lemma TurnAssignsWhatItDeals(config: Config, inputs: seq<Input>, input: Input)
    requires Turns(Run(config, inputs), input) && Step(Run(config, inputs), input).snap.status == Running
    ensures Assigned(config, Run(config, inputs), Step(Run(config, inputs), input), input)
  {
    RunIsTimed(config, inputs);
    TurnEndsExactly(config, inputs, input);
    StepAssigns(config, Run(config, inputs), input);
  }

  ghost predicate Assigned(config: Config, r: Round, s: Round, input: Input)
    requires input.Tick? || input.Completes?
  {
    var cards := DealtSince(r, s);
    && r.snap.deadlineMs.Some? && input.now < r.snap.deadlineMs.value
    && s.table.dealt == r.table.dealt + cards
    && s.pending == Kept(r, input) + TasksOf(config, r.snap.deadlineMs.value, cards)
    && s.snap.scheduled == r.snap.scheduled + |cards|
    && (RustInForce(r, input.now) ==> AllRust(cards))
  }

  lemma StepAssigns(config: Config, r: Round, input: Input)
    requires r.config == config && Turns(r, input) && r.snap.deadlineMs.Some? && input.now < r.snap.deadlineMs.value
    requires Step(r, input).snap.status == Running
    ensures Assigned(config, r, Step(r, input), input)
  {
    match input
    case Tick(now) => TurnDeals(r, now);
    case Completes(index, outcome, now) => CompletionDeals(r, index, outcome, now);
  }

  // ---------- how many ----------

  function BadgesAtStart(config: Config): nat {
    if config.input.detectedBadgeCount.Some? then config.input.detectedBadgeCount.value else 0
  }

  /** How many questions a round is to keep out: what the operator set, or one
    for every badge, or, in rounds begun before the backlog patch, one less but
    at least one while there is a badge.
  */
  predicate IsTarget(config: Config, n: nat) {
    if config.input.backlogOverride.Some? then n == config.input.backlogOverride.value
    else if config.fullBacklog then n == BadgesAtStart(config)
    else if BadgesAtStart(config) <= 2 then n <= 1 && (n == 1 <==> BadgesAtStart(config) >= 1)
    else n + 1 == BadgesAtStart(config)
  }

  lemma StepKeepsBadges(r: Round, input: Input)
    ensures Step(r, input).snap.detectedBadges == r.snap.detectedBadges
  {
    if Enabled(r, input) && Accepted(r, input) {
      match input
      case Tick(now) => LoopTurnFrame(r, now);
      case Completes(index, outcome, now) => LoopTurnFrame(OutcomeRecorded(r, index, outcome, now).(clock := now), now);
      case _ =>
    }
  }

  lemma {:induction false} BadgesAreThoseDetected(config: Config, inputs: seq<Input>)
    ensures Run(config, inputs).snap.detectedBadges == BadgesAtStart(config)
  {
    if inputs == [] {
      LoopTurnFrame(Opening(config), config.startedMs);
    } else {
      BadgesAreThoseDetected(config, inputs[..|inputs| - 1]);
      StepKeepsBadges(Run(config, inputs[..|inputs| - 1]), inputs[|inputs| - 1]);
    }
  }

  /** A card could be dealt, for all that is known of the template. */
  predicate CanServe(config: Config, rustOnly: bool) {
    exists i :: 0 <= i < |config.input.questions| && (rustOnly ==> config.input.questions[i].category == "rust")
  }

  /** With the refill patch every turn that goes on leaves exactly the target
    number of questions out, unless Rust-only asks for Rust cards and the
    template has none.
  */
  lemma EverySlotIsFilled(config: Config, inputs: seq<Input>, input: Input)
    requires config.eligibleRefill
    requires Turns(Run(config, inputs), input) && Step(Run(config, inputs), input).snap.status == Running
    ensures CanServe(config, RustInForce(Run(config, inputs), input.now)) ==>
      IsTarget(config, |Step(Run(config, inputs), input).pending|)
  {
    var r, s := Run(config, inputs), Step(Run(config, inputs), input);
    RunIsTimed(config, inputs);
    NoStarvation(config, inputs, input);
    BadgesAreThoseDetected(config, inputs);
    StepKeepsBadges(r, input);
    StepHasDeadline(r, input);
    TurnKeepsRustOnly(r, input);
    if CanServe(config, RustInForce(r, input.now)) {
      var i :| 0 <= i < |config.input.questions| && (RustInForce(r, input.now) ==> config.input.questions[i].category == "rust");
      assert Eligible(config.input.questions[i], RustInForce(r, input.now));
    }
  }

  lemma RustOnlySurvives(chaos: ChaosState, now: nat)
    ensures Live(Expired(chaos, now).rustOnlyUntil, now) <==> Live(chaos.rustOnlyUntil, now)
  {
  }

  lemma TurnKeepsRustOnly(r: Round, input: Input)
    requires Turns(r, input) && Step(r, input).snap.status == Running
    ensures Live(Step(r, input).snap.chaos.rustOnlyUntil, input.now) <==> RustInForce(r, input.now)
  {
    StepMoves(r, input);
    RustOnlySurvives(r.snap.chaos, input.now);
  }

  /** The opening turn fills the first slots in the same way. */
  lemma FirstSlotsAreFilled(config: Config)
    requires config.eligibleRefill && Run(config, []).snap.status == Running
    ensures IsTarget(config, |Run(config, []).pending|)
  {
    RoundBegins(config);
    OpeningFills(config);
    LoopTurnFrame(Opening(config), config.startedMs);
    BadgesAreThoseDetected(config, []);
    assert Eligible(config.input.questions[0], false);
  }

  // ---------- in which order ----------

  ghost predicate OrderKept(r: Round) {
    r.table.cycle >= 1 && (r.table.cycle < U32_MAX ==> InOrder(r.table, r.config.input.questions))
  }

  lemma {:induction false} FillKeepsOrder(r: Round, target: nat, deadlineMs: nat)
    requires OrderKept(r) && r.config.input.questions != []
    ensures OrderKept(Fill(r, target, false, deadlineMs))
    decreases target - r.pendingActivities
  {
    if r.pendingActivities < target {
      var next, template := FillOne(r, false, deadlineMs), r.config.input.questions;
      FillOneIsDeal(r, false, deadlineMs);
      CycleNeverFalls(r.table, template, false, r.config.eligibleRefill);
      if next.table.cycle < U32_MAX {
        DealKeepsOrder(r.table, template, r.config.eligibleRefill);
      }
      if next.pendingActivities != r.pendingActivities {
        FillKeepsOrder(next, target, deadlineMs);
      }
    }
  }

  lemma TurnKeepsOrder(r: Round, now: nat)
    requires OrderKept(r) && r.config.input.questions != [] && r.snap.chaos.rustOnlyUntil.None?
    ensures OrderKept(LoopTurn(r, now))
  {
    var swept := Swept(r, now);
    LoopTurnFrame(r, now);
    if swept.snap.deadlineMs.Some? {
      FillFrame(swept, Target(swept), false, swept.snap.deadlineMs.value);
      FillKeepsOrder(swept, Target(swept), swept.snap.deadlineMs.value);
    }
  }

  /** A round in which Rust-only is never accepted, below saturation, deals the
    template as it stands and then cycle by cycle in the order of the places.
  */
  lemma RoundDealsInOrder(config: Config, inputs: seq<Input>)
    requires NeverRustOnly(config, inputs) && config.input.questions != []
    requires Run(config, inputs).table.cycle < U32_MAX
    ensures var dealt, template := Run(config, inputs).table.dealt, config.input.questions;
      && (forall k :: 0 <= k < |dealt| ==> dealt[k] == NthCard(template, k))
      && (|dealt| <= |template| ==> dealt == template[..|dealt|])
  {
    RunKeepsOrder(config, inputs);
    var table := Run(config, inputs).table;
    forall k | 0 <= k < |table.dealt| ensures table.dealt[k] == NthCard(config.input.questions, k) {
      assert table.dealt[k] == (table.dealt + table.available)[k];
    }
  }

  lemma {:induction false} RunKeepsOrder(config: Config, inputs: seq<Input>)
    requires NeverRustOnly(config, inputs) && config.input.questions != []
    ensures OrderKept(Run(config, inputs)) && Run(config, inputs).config == config
  {
    if inputs == [] {
      OpeningInOrder(config.input.questions);
      LoopTurnFrame(Opening(config), config.startedMs);
      TurnKeepsOrder(Opening(config), config.startedMs);
    } else {
      var r, input := Run(config, inputs[..|inputs| - 1]), inputs[|inputs| - 1];
      NeverPrefix(config, inputs);
      RunKeepsOrder(config, inputs[..|inputs| - 1]);
      PatchReplays(config, inputs[..|inputs| - 1], true);
      StepKeepsOrder(r, input);
    }
  }

  lemma CompletionKeepsOrder(r: Round, index: nat, outcome: Outcome, now: nat)
    requires OrderKept(r) && r.config.input.questions != [] && r.snap.chaos.rustOnlyUntil.None? && index < |r.pending|
    ensures OrderKept(Completed(r, index, outcome, now)) && Completed(r, index, outcome, now).config == r.config
  {
    var recorded := OutcomeRecorded(r, index, outcome, now).(clock := now);
    LoopTurnFrame(recorded, now);
    TurnKeepsOrder(recorded, now);
  }

  lemma StepKeepsOrder(r: Round, input: Input)
    requires OrderKept(r) && r.config.input.questions != [] && r.snap.chaos.rustOnlyUntil.None?
    ensures OrderKept(Step(r, input)) && Step(r, input).config == r.config
  {
    if Enabled(r, input) && Accepted(r, input) {
      match input
      case Tick(now) =>
        LoopTurnFrame(r, now);
        TurnKeepsOrder(r, now);
      case Completes(index, outcome, now) => CompletionKeepsOrder(r, index, outcome, now);
      case _ =>
    }
  }
}
