/** Dealing and recycling questions (web/src/workflow.rs, `deal_question`,
  `take_next_question`, `refill_question_deck`).

  A question's ID is its Activity ID, so the deck must never deal one ID
  twice. UniqueIdsExactlyWhenClean is the exact condition; it rests on
  DealConserves, which accounts for every card ever created.
*/
module Deck {
  import opened Wrappers
  import opened Contract
  import opened Decimal
  import opened SeqFacts

  const U32_MAX: nat := 0xFFFF_FFFF
  const CYCLE_MARK: string := "-cycle-"

  predicate Eligible(question: Question, rustOnly: bool) {
    rustOnly ==> question.category == "rust"
  }

  predicate AnyEligible(questions: seq<Question>, rustOnly: bool) {
    exists i :: 0 <= i < |questions| && Eligible(questions[i], rustOnly)
  }

  /** Where the first eligible card is; the length when there is none. */
  function FirstEligible(questions: seq<Question>, rustOnly: bool): (i: nat)
    ensures i <= |questions|
    ensures i < |questions| ==> Eligible(questions[i], rustOnly)
    ensures forall j :: 0 <= j < i ==> !Eligible(questions[j], rustOnly)
  {
    if questions == [] || Eligible(questions[0], rustOnly) then 0
    else 1 + FirstEligible(questions[1..], rustOnly)
  }

  datatype Deal = Deal(question: Option<Question>, available: seq<Question>, cycle: nat)

  /** The first eligible card leaves; the order of all others is kept. */
  function Take(available: seq<Question>, cycle: nat, rustOnly: bool): (deal: Deal)
    ensures deal.cycle == cycle
  {
    var i := FirstEligible(available, rustOnly);
    if i < |available| then Deal(Some(available[i]), available[..i] + available[i + 1..], cycle)
    else Deal(None, available, cycle)
  }

  function RotateLeft(questions: seq<Question>, offset: nat): (r: seq<Question>)
    requires offset <= |questions|
    ensures multiset(r) == multiset(questions)
  {
    assert questions == questions[..offset] + questions[offset..];
    questions[offset..] + questions[..offset]
  }

  function Reverse(questions: seq<Question>): (r: seq<Question>)
    ensures multiset(r) == multiset(questions)
  {
    if questions == [] then []
    else
      assert questions == [questions[0]] + questions[1..];
      Reverse(questions[1..]) + [questions[0]]
  }

  function SuffixedId(id: string, cycle: nat): string {
    id + CYCLE_MARK + Render(cycle)
  }

  function Relabel(question: Question, cycle: nat): Question {
    question.(id := SuffixedId(question.id, cycle))
  }

  /** The same cards under this cycle's IDs. */
  function Suffixed(questions: seq<Question>, cycle: nat): seq<Question> {
    seq(|questions|, i requires 0 <= i < |questions| => Relabel(questions[i], cycle))
  }

  /** The template's order on this cycle. */
  function Arranged(template: seq<Question>, cycle: nat): (r: seq<Question>)
    requires template != []
    ensures multiset(r) == multiset(template)
  {
    var turned := RotateLeft(template, cycle * 97 % |template|);
    if cycle % 2 == 0 then Reverse(turned) else turned
  }

  function Refill(template: seq<Question>, cycle: nat): seq<Question> {
    if template == [] then []
    else Suffixed(Arranged(template, cycle), cycle)
  }

  function NextCycle(cycle: nat): nat {
    if cycle < U32_MAX then cycle + 1 else cycle
  }

  function DealFrom(available: seq<Question>, template: seq<Question>, cycle: nat, rustOnly: bool, eligibleRefill: bool): Deal {
    var first := Take(available, cycle, rustOnly);
    if first.question.Some? || template == [] || (!eligibleRefill && available != []) then first
    else Take(available + Refill(template, NextCycle(cycle)), NextCycle(cycle), rustOnly)
  }

  /** The deck a round plays from. */
  class QuestionDeck {
    const template: seq<Question>
    var available: seq<Question>
    var cycle: nat

    constructor (questions: seq<Question>)
      ensures template == available == questions && cycle == 1
    {
      template, available, cycle := questions, questions, 1;
    }

    method TakeNext(rustOnly: bool) returns (question: Option<Question>)
      modifies this`available
      ensures Deal(question, available, cycle) == Take(old(available), cycle, rustOnly)
    {
      if rustOnly {
        var index := FirstEligible(available, rustOnly);
        if index == |available| { return None; }
        question := Some(available[index]);
        available := available[..index] + available[index + 1..];
      } else {
        if available == [] { return None; }
        question := Some(available[0]);
        available := available[1..];
      }
    }

    /** A card for the request, if need be from a fresh copy of the template. */
    method DealQuestion(rustOnly: bool, eligibleRefill: bool) returns (question: Option<Question>)
      modifies this
      ensures Deal(question, available, cycle) == DealFrom(old(available), template, old(cycle), rustOnly, eligibleRefill)
    {
      question := TakeNext(rustOnly);
      if question.Some? || template == [] || (!eligibleRefill && available != []) {
        return;
      }
      cycle := NextCycle(cycle);
      available := available + Refill(template, cycle);
      question := TakeNext(rustOnly);
    }
  }

  // ---------- conservation ----------

  function DealtOf(question: Option<Question>): seq<Question> {
    match question case Some(q) => [q] case None => []
  }

  lemma TakeConserves(available: seq<Question>, cycle: nat, rustOnly: bool)
    ensures var deal := Take(available, cycle, rustOnly);
      multiset(deal.available) + multiset(DealtOf(deal.question)) == multiset(available)
  {
    var i := FirstEligible(available, rustOnly);
    if i < |available| {
      OneTaken(available, i);
    }
  }

  lemma OneTaken(available: seq<Question>, i: nat)
    requires i < |available|
    ensures multiset(available[..i] + available[i + 1..]) + multiset(DealtOf(Some(available[i]))) == multiset(available)
  {
    TakesOut(available, i);
    assert DealtOf(Some(available[i])) == [available[i]];
  }

  /** A card is taken exactly when an eligible one is there, and then it is the first. */
  lemma TakeIsEligible(available: seq<Question>, cycle: nat, rustOnly: bool)
    ensures var deal := Take(available, cycle, rustOnly);
      && (deal.question.Some? <==> AnyEligible(available, rustOnly))
      && (deal.question.Some? ==> Eligible(deal.question.value, rustOnly))
      && (deal.question.None? ==> deal.available == available)
  {
  }

  /** A recycled deck holds exactly the template's cards, whatever the order. */
  lemma RefillIsTemplate(template: seq<Question>, cycle: nat)
    ensures multiset(Refill(template, cycle)) == multiset(Suffixed(template, cycle))
    ensures |Refill(template, cycle)| == |template|
  {
    if template != [] {
      var order := Arranged(template, cycle);
      SameLength(order, template);
      ReorderMapped(question => Relabel(question, cycle), order, template);
      assert Suffixed(order, cycle) == Mapped(question => Relabel(question, cycle), order);
      assert Suffixed(template, cycle) == Mapped(question => Relabel(question, cycle), template);
    }
  }

  /** Every card created up to a cycle. */
  ghost function AllCards(template: seq<Question>, cycle: nat): seq<Question>
    requires cycle >= 1
  {
    if cycle == 1 then template else AllCards(template, cycle - 1) + Suffixed(template, cycle)
  }

  /** A deal moves one card out of the deck, after at most one recycle. */
  lemma DealConserves(available: seq<Question>, template: seq<Question>, cycle: nat, rustOnly: bool, eligibleRefill: bool)
    requires 1 <= cycle
    requires DealFrom(available, template, cycle, rustOnly, eligibleRefill).cycle < U32_MAX
    ensures var deal := DealFrom(available, template, cycle, rustOnly, eligibleRefill);
      && deal.cycle >= cycle
      && multiset(deal.available) + multiset(DealtOf(deal.question)) + multiset(AllCards(template, cycle))
         == multiset(available) + multiset(AllCards(template, deal.cycle))
  {
    if DealFrom(available, template, cycle, rustOnly, eligibleRefill).cycle == cycle {
      TakeConserves(available, cycle, rustOnly);
    } else {
      RefillIsTemplate(template, cycle + 1);
      RefillThenTake(available, template, cycle, rustOnly, Refill(template, cycle + 1));
    }
  }

  lemma RefillThenTake(available: seq<Question>, template: seq<Question>, cycle: nat, rustOnly: bool, refill: seq<Question>)
    requires 1 <= cycle < U32_MAX && multiset(refill) == multiset(Suffixed(template, cycle + 1))
    ensures var deal := Take(available + refill, cycle + 1, rustOnly);
      multiset(deal.available) + multiset(DealtOf(deal.question)) + multiset(AllCards(template, cycle))
      == multiset(available) + multiset(AllCards(template, cycle + 1))
  {
    TakeConserves(available + refill, cycle + 1, rustOnly);
    Regroup(multiset(available + refill), multiset(available), multiset(refill), multiset(AllCards(template, cycle)));
  }

  lemma Regroup(whole: multiset<Question>, a: multiset<Question>, b: multiset<Question>, c: multiset<Question>)
    requires whole == a + b
    ensures whole + c == a + (c + b)
  {
  }

  /** With the eligible-refill patch a deal fails only for want of any eligible
    card, in the deck and in the template alike.
  */
  lemma DealFailsOnlyWithoutCards(available: seq<Question>, template: seq<Question>, cycle: nat, rustOnly: bool)
    ensures DealFrom(available, template, cycle, rustOnly, true).question.None?
       <==> !AnyEligible(available, rustOnly) && !AnyEligible(template, rustOnly)
  {
    var refill := Refill(template, NextCycle(cycle));
    TakeIsEligible(available, cycle, rustOnly);
    TakeIsEligible(available + refill, NextCycle(cycle), rustOnly);
    RefillKeepsCategories(template, NextCycle(cycle), rustOnly);
    EligibleEither(available, refill, rustOnly);
  }

  /** And then the deck it leaves holds no eligible card. */
  lemma DealFailsEmptyHanded(available: seq<Question>, template: seq<Question>, cycle: nat, rustOnly: bool)
    requires DealFrom(available, template, cycle, rustOnly, true).question.None?
    ensures !AnyEligible(DealFrom(available, template, cycle, rustOnly, true).available, rustOnly)
  {
    TakeIsEligible(available, cycle, rustOnly);
    TakeIsEligible(available + Refill(template, NextCycle(cycle)), NextCycle(cycle), rustOnly);
  }

  lemma EligibleEither(a: seq<Question>, b: seq<Question>, rustOnly: bool)
    ensures AnyEligible(a + b, rustOnly) <==> AnyEligible(a, rustOnly) || AnyEligible(b, rustOnly)
  {
    if i :| 0 <= i < |a| && Eligible(a[i], rustOnly) {
      assert Eligible((a + b)[i], rustOnly);
    }
    if i :| 0 <= i < |b| && Eligible(b[i], rustOnly) {
      assert Eligible((a + b)[|a| + i], rustOnly);
    }
  }

  lemma RefillKeepsCategories(template: seq<Question>, cycle: nat, rustOnly: bool)
    ensures AnyEligible(Refill(template, cycle), rustOnly) <==> AnyEligible(template, rustOnly)
  {
    if template != [] {
      var order := Arranged(template, cycle);
      if AnyEligible(order, rustOnly) { SameEligible(order, template, rustOnly); }
      if AnyEligible(template, rustOnly) { SameEligible(template, order, rustOnly); }
      assert forall i :: 0 <= i < |order| ==> Refill(template, cycle)[i].category == order[i].category;
    }
  }

  lemma SameEligible(a: seq<Question>, b: seq<Question>, rustOnly: bool)
    requires multiset(a) == multiset(b) && AnyEligible(a, rustOnly)
    ensures AnyEligible(b, rustOnly)
  {
    var i :| 0 <= i < |a| && Eligible(a[i], rustOnly);
    assert a[i] in multiset(b);
  }

  /** A failed deal from a non-empty template leaves cards on the table, before
    and after the patch.
  */
  lemma FailedDealLeavesCards(available: seq<Question>, template: seq<Question>, cycle: nat, rustOnly: bool, eligibleRefill: bool)
    requires template != []
    requires DealFrom(available, template, cycle, rustOnly, eligibleRefill).question.None?
    ensures DealFrom(available, template, cycle, rustOnly, eligibleRefill).available != []
  {
    RefillIsTemplate(template, NextCycle(cycle));
  }

  /** Without Rust-only scheduling the patch changes no deal. */
  lemma PatchIsInvisible(available: seq<Question>, template: seq<Question>, cycle: nat)
    ensures DealFrom(available, template, cycle, false, true) == DealFrom(available, template, cycle, false, false)
  {
    if available != [] {
      assert Eligible(available[0], false);
    }
  }

  /** Before the patch a deal fails exactly when the deck has no eligible card
    and, being empty, cannot have one from the template either, or, holding
    other cards, is not recycled at all.
  */
  lemma PrePatchFailsExactly(available: seq<Question>, template: seq<Question>, cycle: nat, rustOnly: bool)
    ensures DealFrom(available, template, cycle, rustOnly, false).question.None?
       <==> !AnyEligible(available, rustOnly) && (available != [] || !AnyEligible(template, rustOnly))
  {
    var refill := Refill(template, NextCycle(cycle));
    TakeIsEligible(available, cycle, rustOnly);
    TakeIsEligible(available + refill, NextCycle(cycle), rustOnly);
    RefillKeepsCategories(template, NextCycle(cycle), rustOnly);
    EligibleEither(available, refill, rustOnly);
  }

  /** What the patch cures: on a deck of other cards the old deal comes to
    nothing, and the new one serves exactly if the template could.
  */
  lemma PrePatchStarves(available: seq<Question>, template: seq<Question>, cycle: nat)
    requires available != [] && !AnyEligible(available, true)
    ensures DealFrom(available, template, cycle, true, false) == Deal(None, available, cycle)
    ensures DealFrom(available, template, cycle, true, true).question.Some? <==> AnyEligible(template, true)
  {
    DealFailsOnlyWithoutCards(available, template, cycle, true);
  }

  /** A failed deal that recycles leaves the deck one template longer and the
    cycle, while it can grow, one higher.
  */
  lemma FailedDealGrowsTheDeck(available: seq<Question>, template: seq<Question>, cycle: nat, rustOnly: bool, eligibleRefill: bool)
    requires DealFrom(available, template, cycle, rustOnly, eligibleRefill).question.None?
    ensures var deal := DealFrom(available, template, cycle, rustOnly, eligibleRefill);
      if template != [] && (eligibleRefill || available == []) then
        deal.cycle == NextCycle(cycle) && |deal.available| == |available| + |template|
      else deal.cycle == cycle && deal.available == available
  {
    TakeIsEligible(available, cycle, rustOnly);
    TakeIsEligible(available + Refill(template, NextCycle(cycle)), NextCycle(cycle), rustOnly);
    RefillIsTemplate(template, NextCycle(cycle));
  }

  /** The cycle moves without a card, and so unannounced, exactly when a deck
    below saturation is recycled from a template that has no eligible card.
  */
  lemma SilentRecycleExactly(available: seq<Question>, template: seq<Question>, cycle: nat, rustOnly: bool, eligibleRefill: bool)
    ensures var deal := DealFrom(available, template, cycle, rustOnly, eligibleRefill);
      deal.question.None? && deal.cycle != cycle
      <==> cycle < U32_MAX && template != [] && !AnyEligible(template, rustOnly)
           && !AnyEligible(available, rustOnly) && (eligibleRefill || available == [])
  {
    var deal := DealFrom(available, template, cycle, rustOnly, eligibleRefill);
    if eligibleRefill {
      DealFailsOnlyWithoutCards(available, template, cycle, rustOnly);
    } else {
      PrePatchFailsExactly(available, template, cycle, rustOnly);
    }
    if deal.question.None? {
      FailedDealGrowsTheDeck(available, template, cycle, rustOnly, eligibleRefill);
    }
  }

  // ---------- unique Activity IDs ----------

  function Ids(questions: seq<Question>): seq<string> {
    seq(|questions|, i requires 0 <= i < |questions| => questions[i].id)
  }

  /** The ID a template's card is dealt under on a cycle. */
  function CardId(id: string, cycle: nat): string {
    if cycle == 1 then id else SuffixedId(id, cycle)
  }

  /** The IDs of one cycle, and of every cycle so far. */
  function CycleIds(template: seq<Question>, cycle: nat): seq<string> {
    seq(|template|, i requires 0 <= i < |template| => CardId(template[i].id, cycle))
  }

  ghost function AllIds(template: seq<Question>, cycle: nat): seq<string>
    requires cycle >= 1
  {
    if cycle == 1 then CycleIds(template, 1) else AllIds(template, cycle - 1) + CycleIds(template, cycle)
  }

  lemma {:induction false} IdsOfAllCards(template: seq<Question>, cycle: nat)
    requires cycle >= 1
    ensures Ids(AllCards(template, cycle)) == AllIds(template, cycle)
  {
    if cycle > 1 {
      IdsOfAllCards(template, cycle - 1);
    }
  }

  /** No template ID repeats, or looks like another one recycled. */
  ghost predicate CleanIds(template: seq<Question>) {
    && Distinct(Ids(template))
    && forall i, j, cycle: nat :: 0 <= i < |template| && 0 <= j < |template| && 2 <= cycle < U32_MAX ==>
         template[i].id != SuffixedId(template[j].id, cycle)
  }

  /** The deck during a run of deals, with what it dealt. */
  datatype Table = Table(available: seq<Question>, cycle: nat, dealt: seq<Question>)

  function DealOnce(table: Table, template: seq<Question>, rustOnly: bool, eligibleRefill: bool): Table {
    var deal := DealFrom(table.available, template, table.cycle, rustOnly, eligibleRefill);
    Table(deal.available, deal.cycle, table.dealt + DealtOf(deal.question))
  }

  function Play(template: seq<Question>, requests: seq<bool>, eligibleRefill: bool): Table {
    if requests == [] then Table(template, 1, [])
    else DealOnce(Play(template, requests[..|requests| - 1], eligibleRefill), template, requests[|requests| - 1], eligibleRefill)
  }

  lemma CycleNeverFalls(table: Table, template: seq<Question>, rustOnly: bool, eligibleRefill: bool)
    ensures DealOnce(table, template, rustOnly, eligibleRefill).cycle >= table.cycle
  {
  }

  /** Dealt and undealt cards are together the template plus one suffixed copy
    for each later cycle.
  */
  lemma {:induction false} RunConserves(template: seq<Question>, requests: seq<bool>, eligibleRefill: bool)
    requires Play(template, requests, eligibleRefill).cycle < U32_MAX
    ensures Conserved(Play(template, requests, eligibleRefill), template)
  {
    if requests != [] {
      var before := Play(template, requests[..|requests| - 1], eligibleRefill);
      var rustOnly := requests[|requests| - 1];
      CycleNeverFalls(before, template, rustOnly, eligibleRefill);
      RunConserves(template, requests[..|requests| - 1], eligibleRefill);
      DealOnceConserves(before, template, rustOnly, eligibleRefill);
    }
  }

  ghost predicate Conserved(table: Table, template: seq<Question>) {
    table.cycle >= 1 && multiset(table.dealt) + multiset(table.available) == multiset(AllCards(template, table.cycle))
  }

  lemma DealOnceConserves(table: Table, template: seq<Question>, rustOnly: bool, eligibleRefill: bool)
    requires Conserved(table, template)
    requires DealOnce(table, template, rustOnly, eligibleRefill).cycle < U32_MAX
    ensures Conserved(DealOnce(table, template, rustOnly, eligibleRefill), template)
  {
    var deal := DealFrom(table.available, template, table.cycle, rustOnly, eligibleRefill);
    DealConserves(table.available, template, table.cycle, rustOnly, eligibleRefill);
    Balance(multiset(deal.available), multiset(DealtOf(deal.question)), multiset(AllCards(template, table.cycle)),
            multiset(table.available), multiset(AllCards(template, deal.cycle)), multiset(table.dealt));
    assert multiset(table.dealt + DealtOf(deal.question)) == multiset(table.dealt) + multiset(DealtOf(deal.question));
  }

  lemma Balance(left: multiset<Question>, card: multiset<Question>, all: multiset<Question>,
                before: multiset<Question>, all': multiset<Question>, dealt: multiset<Question>)
    requires left + card + all == before + all' && dealt + before == all
    ensures dealt + card + left == all'
  {
    forall question ensures (dealt + card + left)[question] == all'[question] {
      assert (left + card + all)[question] == (before + all')[question];
    }
  }

  lemma SuffixInjective(a: string, m: nat, b: string, n: nat)
    requires SuffixedId(a, m) == SuffixedId(b, n)
    ensures a == b && m == n
  {
    GlueInjective(a, m, b, n, CYCLE_MARK);
  }

  lemma IdsApart(template: seq<Question>, i: nat, c: nat, j: nat, cycle: nat)
    requires CleanIds(template) && i < |template| && j < |template| && 1 <= c < cycle < U32_MAX
    ensures CardId(template[i].id, c) != CardId(template[j].id, cycle)
  {
    if c > 1 && SuffixedId(template[i].id, c) == SuffixedId(template[j].id, cycle) {
      SuffixInjective(template[i].id, c, template[j].id, cycle);
    }
  }

  lemma CycleDistinct(template: seq<Question>, cycle: nat)
    requires Distinct(Ids(template)) && cycle >= 1
    ensures Distinct(CycleIds(template, cycle))
  {
    forall i, j | 0 <= i < j < |template| ensures CardId(template[i].id, cycle) != CardId(template[j].id, cycle) {
      assert Ids(template)[i] != Ids(template)[j];
      if cycle > 1 && SuffixedId(template[i].id, cycle) == SuffixedId(template[j].id, cycle) {
        SuffixInjective(template[i].id, cycle, template[j].id, cycle);
      }
    }
  }

  /** Where an ID comes from. */
  lemma {:induction false} IdOrigin(template: seq<Question>, cycle: nat, k: nat) returns (i: nat, c: nat)
    requires cycle >= 1 && k < |AllIds(template, cycle)|
    ensures i < |template| && 1 <= c <= cycle && AllIds(template, cycle)[k] == CardId(template[i].id, c)
  {
    if cycle == 1 {
      i, c := k, 1;
    } else if k < |AllIds(template, cycle - 1)| {
      i, c := IdOrigin(template, cycle - 1, k);
    } else {
      i, c := k - |AllIds(template, cycle - 1)|, cycle;
    }
  }

  lemma {:induction false} CleanDeckUnique(template: seq<Question>, cycle: nat)
    requires CleanIds(template) && 1 <= cycle < U32_MAX
    ensures Distinct(AllIds(template, cycle))
  {
    CycleDistinct(template, cycle);
    if cycle > 1 {
      CleanDeckUnique(template, cycle - 1);
      var older := AllIds(template, cycle - 1);
      forall k, j | 0 <= k < |older| && 0 <= j < |template| ensures older[k] != CycleIds(template, cycle)[j] {
        var i, c := IdOrigin(template, cycle - 1, k);
        IdsApart(template, i, c, j, cycle);
      }
      DistinctSplit(older, CycleIds(template, cycle));
    }
  }

  /** An unclean template repeats an ID by some cycle. */
  lemma UncleanRepeats(template: seq<Question>) returns (cycle: nat)
    requires !CleanIds(template)
    ensures template != [] && 1 <= cycle < U32_MAX && !Distinct(AllIds(template, cycle))
  {
    if !Distinct(Ids(template)) {
      cycle := 1;
      assert AllIds(template, 1) == Ids(template);
    } else {
      var i, j, c: nat :| 0 <= i < |template| && 0 <= j < |template| && 2 <= c < U32_MAX
                          && template[i].id == SuffixedId(template[j].id, c);
      cycle := c;
      TemplateFirst(template, c - 1, i);
      assert CycleIds(template, c)[j] == template[i].id;
      DistinctSplit(AllIds(template, c - 1), CycleIds(template, c));
    }
  }

  lemma {:induction false} TemplateFirst(template: seq<Question>, cycle: nat, i: nat)
    requires cycle >= 1 && i < |template|
    ensures |AllIds(template, cycle)| > i && AllIds(template, cycle)[i] == template[i].id
  {
    if cycle > 1 {
      TemplateFirst(template, cycle - 1, i);
    }
  }

  // ---------- the converse: an unclean template does repeat an ID ----------

  /** Dealing everything: after it the deck is empty and each cycle is dealt whole. */
  lemma {:induction false} DealRest(template: seq<Question>, requests: seq<bool>, eligibleRefill: bool) returns (longer: seq<bool>)
    ensures |longer| >= |requests|
    ensures Play(template, longer, eligibleRefill).available == []
    ensures Play(template, longer, eligibleRefill).cycle == Play(template, requests, eligibleRefill).cycle
    decreases |Play(template, requests, eligibleRefill).available|
  {
    var table := Play(template, requests, eligibleRefill);
    if table.available == [] {
      longer := requests;
    } else {
      var next := requests + [false];
      assert next[..|next| - 1] == requests;
      assert Eligible(table.available[0], false);
      assert Play(template, next, eligibleRefill) == DealOnce(table, template, false, eligibleRefill);
      longer := DealRest(template, next, eligibleRefill);
    }
  }

  lemma {:induction false} PlayCycles(template: seq<Question>, cycle: nat, eligibleRefill: bool) returns (requests: seq<bool>)
    requires template != [] && 1 <= cycle < U32_MAX
    ensures Play(template, requests, eligibleRefill).available == []
    ensures Play(template, requests, eligibleRefill).cycle == cycle
  {
    if cycle == 1 {
      requests := DealRest(template, [], eligibleRefill);
    } else {
      var earlier := PlayCycles(template, cycle - 1, eligibleRefill);
      var next := earlier + [false];
      assert next[..|next| - 1] == earlier;
      assert Play(template, next, eligibleRefill).cycle == cycle;
      requests := DealRest(template, next, eligibleRefill);
    }
  }

  /** No run of deals below saturation deals an ID twice, exactly when the
    template's IDs are clean.
  */
  lemma UniqueIdsExactlyWhenClean(template: seq<Question>, eligibleRefill: bool)
    ensures CleanIds(template) <==>
      forall requests :: Play(template, requests, eligibleRefill).cycle < U32_MAX ==>
        Distinct(Ids(Play(template, requests, eligibleRefill).dealt))
  {
    if CleanIds(template) {
      forall requests | Play(template, requests, eligibleRefill).cycle < U32_MAX
        ensures Distinct(Ids(Play(template, requests, eligibleRefill).dealt))
      {
        RunConserves(template, requests, eligibleRefill);
        var table := Play(template, requests, eligibleRefill);
        CleanDeckUnique(template, table.cycle);
        CardsDecide(template, table);
        DistinctSplit(Ids(table.dealt), Ids(table.available));
      }
    } else {
      var cycle := UncleanRepeats(template);
      var requests := PlayCycles(template, cycle, eligibleRefill);
      RunConserves(template, requests, eligibleRefill);
      CardsDecide(template, Play(template, requests, eligibleRefill));
    }
  }

  /** Whether dealt and undealt cards repeat an ID is settled by the cards created. */
  lemma CardsDecide(template: seq<Question>, table: Table)
    requires Conserved(table, template)
    ensures Distinct(Ids(table.dealt) + Ids(table.available)) <==> Distinct(AllIds(template, table.cycle))
  {
    var cards, all := table.dealt + table.available, AllCards(template, table.cycle);
    IdsOfAllCards(template, table.cycle);
    assert multiset(cards) == multiset(all);
    ReorderMapped((question: Question) => question.id, cards, all);
    assert Ids(cards) == Mapped((question: Question) => question.id, cards);
    assert Ids(all) == Mapped((question: Question) => question.id, all);
    assert Ids(cards) == Ids(table.dealt) + Ids(table.available);
    DistinctReorder(Ids(cards), Ids(all));
  }
}
