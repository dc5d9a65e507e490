/** Which card a deal serves, and in which order a deck comes out. */
module DeckOrder {
  import opened Wrappers
  import opened Contract
  import opened Decimal
  import opened Deck

  predicate Wanted(question: Question, rustOnly: bool) {
    rustOnly ==> question.category == "rust"
  }

  /** Card `i` is the first one wanted. */
  predicate FirstWanted(cards: seq<Question>, i: nat, rustOnly: bool) {
    i < |cards| && Wanted(cards[i], rustOnly) && forall j :: 0 <= j < i ==> !Wanted(cards[j], rustOnly)
  }

  predicate NoneWanted(cards: seq<Question>, rustOnly: bool) {
    forall j :: 0 <= j < |cards| ==> !Wanted(cards[j], rustOnly)
  }

  // ---------- the order of a recycled deck ----------

  /** Where in the template the card at place `j` of a cycle comes from: each
    cycle starts 97 places further on, and every second one runs backwards.
  */
  function Place(size: nat, cycle: nat, j: nat): (i: nat)
    requires j < size
    ensures i < size
  {
    if cycle % 2 == 0 then (97 * cycle + (size - 1 - j)) % size else (97 * cycle + j) % size
  }

  function CardAt(template: seq<Question>, cycle: nat, j: nat): Question
    requires j < |template|
  {
    var card := template[Place(|template|, cycle, j)];
    card.(id := card.id + "-cycle-" + Render(cycle))
  }

  function CycleCards(template: seq<Question>, cycle: nat): seq<Question> {
    seq(|template|, j requires 0 <= j < |template| => CardAt(template, cycle, j))
  }

  lemma Multiples(d: int, n: int)
    requires n >= 0
    ensures d >= 1 ==> d * n >= n
    ensures d <= -1 ==> d * n <= -n
  {
    if d >= 1 {
      assert d * n == (d - 1) * n + n;
    } else if d <= -1 {
      assert d * n == (d + 1) * n - n;
    }
  }

  /** Quotient and remainder are the only ones. */
  lemma Divides(a: nat, n: nat, q: nat, rest: nat)
    requires rest < n && a == q * n + rest
    ensures a / n == q && a % n == rest
  {
    var d, m := a / n, a % n;
    assert a == d * n + m;
    assert (d - q) * n == d * n - q * n;
    Multiples(d - q, n);
  }

  /** An index turned past the end. */
  function Turned(n: nat, offset: nat, j: nat): nat
    requires j < n && offset < n
  {
    if offset + j < n then offset + j else offset + j - n
  }

  lemma TurnedIndex(n: nat, offset: nat, j: nat)
    requires j < n
    ensures (offset + j) % n == Turned(n, offset % n, j)
  {
    var q, o := offset / n, offset % n;
    assert offset == q * n + o;
    if o + j < n {
      Divides(offset + j, n, q, o + j);
    } else {
      assert (q + 1) * n == q * n + n;
      Divides(offset + j, n, q + 1, o + j - n);
    }
  }

  lemma RotatedAt(cards: seq<Question>, offset: nat, j: nat)
    requires j < |cards| && offset < |cards|
    ensures |RotateLeft(cards, offset)| == |cards|
    ensures RotateLeft(cards, offset)[j] == cards[Turned(|cards|, offset, j)]
  {
  }

  lemma {:induction false} ReversedAt(cards: seq<Question>, j: nat)
    requires j < |cards|
    ensures |Reverse(cards)| == |cards| && Reverse(cards)[j] == cards[|cards| - 1 - j]
  {
    if |cards| > 1 {
      ReversedAt(cards[1..], if j < |cards| - 1 then j else 0);
    }
  }

  lemma PlaceIsTurned(size: nat, cycle: nat, j: nat)
    requires j < size
    ensures Place(size, cycle, j) == Turned(size, cycle * 97 % size, if cycle % 2 == 0 then size - 1 - j else j)
  {
    TurnedIndex(size, 97 * cycle, if cycle % 2 == 0 then size - 1 - j else j);
  }

  lemma ArrangedAt(template: seq<Question>, cycle: nat, offset: nat, j: nat)
    requires j < |template| && offset == cycle * 97 % |template|
    ensures |Arranged(template, cycle)| == |template|
    ensures Arranged(template, cycle)[j] == template[Turned(|template|, offset, if cycle % 2 == 0 then |template| - 1 - j else j)]
  {
    RotatedAt(template, offset, if cycle % 2 == 0 then |template| - 1 - j else j);
    if cycle % 2 == 0 {
      ReversedAt(RotateLeft(template, offset), j);
    }
  }

  lemma RelabelledAt(order: seq<Question>, template: seq<Question>, cycle: nat, j: nat, i: nat)
    requires j < |order| && i < |template| && order[j] == template[i]
    ensures Suffixed(order, cycle)[j] == template[i].(id := template[i].id + "-cycle-" + Render(cycle))
  {
  }

  /** The refill is the template in the order the places give. */
  lemma RefillInPlace(template: seq<Question>, cycle: nat)
    ensures Refill(template, cycle) == CycleCards(template, cycle)
  {
    if template != [] {
      var offset, order := cycle * 97 % |template|, Arranged(template, cycle);
      ArrangedAt(template, cycle, offset, 0);
      forall j | 0 <= j < |template| ensures Suffixed(order, cycle)[j] == CardAt(template, cycle, j) {
        ArrangedAt(template, cycle, offset, j);
        PlaceIsTurned(|template|, cycle, j);
        RelabelledAt(order, template, cycle, j, Place(|template|, cycle, j));
      }
    }
  }

  // ---------- one deal ----------

  /** The first wanted card of these, and the others in their order. */
  ghost predicate ServesFirst(question: Option<Question>, left: seq<Question>, cards: seq<Question>, rustOnly: bool) {
    match question
    case None => NoneWanted(cards, rustOnly) && left == cards
    case Some(card) => exists i: nat :: FirstWanted(cards, i, rustOnly) && card == cards[i] && left == cards[..i] + cards[i + 1..]
  }

  lemma TakeServesFirst(available: seq<Question>, cycle: nat, rustOnly: bool)
    ensures var deal := Take(available, cycle, rustOnly);
      ServesFirst(deal.question, deal.available, available, rustOnly)
  {
    var i := FirstEligible(available, rustOnly);
    if i < |available| {
      assert FirstWanted(available, i, rustOnly);
    }
  }

  /** Whether a request makes a fresh copy of the template. */
  predicate NeedsRecycle(available: seq<Question>, template: seq<Question>, rustOnly: bool, eligibleRefill: bool) {
    NoneWanted(available, rustOnly) && template != [] && (eligibleRefill || available == [])
  }

  /** The cards a request chooses from: the deck, with the next cycle behind it
    if the deck has none that is wanted.
  */
  function Choices(available: seq<Question>, template: seq<Question>, cycle: nat, rustOnly: bool, eligibleRefill: bool): seq<Question> {
    if NeedsRecycle(available, template, rustOnly, eligibleRefill) then
      available + CycleCards(template, if cycle < 0xFFFF_FFFF then cycle + 1 else cycle)
    else available
  }

  /** A deal serves the first wanted card of those it chooses from, and leaves
    the others in their order.
  */
  lemma DealServesFirst(available: seq<Question>, template: seq<Question>, cycle: nat, rustOnly: bool, eligibleRefill: bool)
    ensures var deal := DealFrom(available, template, cycle, rustOnly, eligibleRefill);
      && ServesFirst(deal.question, deal.available, Choices(available, template, cycle, rustOnly, eligibleRefill), rustOnly)
      && deal.cycle == if NeedsRecycle(available, template, rustOnly, eligibleRefill) && cycle < 0xFFFF_FFFF then cycle + 1 else cycle
  {
    var next := NextCycle(cycle);
    TakeServesFirst(available, cycle, rustOnly);
    assert NoneWanted(available, rustOnly) <==> Take(available, cycle, rustOnly).question.None? by {
      TakeIsEligible(available, cycle, rustOnly);
      assert AnyEligible(available, rustOnly) <==> !NoneWanted(available, rustOnly);
    }
    if NeedsRecycle(available, template, rustOnly, eligibleRefill) {
      RefillInPlace(template, next);
      TakeServesFirst(available + Refill(template, next), next, rustOnly);
    }
  }

  /** Without Rust-only that is the front card. */
  lemma FrontServed(question: Option<Question>, left: seq<Question>, cards: seq<Question>)
    requires ServesFirst(question, left, cards, false) && cards != []
    ensures question == Some(cards[0]) && left == cards[1..]
  {
    assert Wanted(cards[0], false);
    var i: nat :| FirstWanted(cards, i, false) && question == Some(cards[i]) && left == cards[..i] + cards[i + 1..];
    assert i == 0;
  }

  // ---------- the order of a run ----------

  /** Card `k` of a round that is never restricted to Rust. */
  function NthCard(template: seq<Question>, k: nat): Question
    requires template != []
  {
    if k < |template| then template[k] else CardAt(template, k / |template| + 1, k % |template|)
  }

  /** Dealt and undealt, the cards of all cycles so far lie in that order. */
  ghost predicate InOrder(table: Table, template: seq<Question>) {
    && table.cycle >= 1
    && |table.dealt + table.available| == table.cycle * |template|
    && (template != [] ==>
          forall k :: 0 <= k < |table.dealt + table.available| ==> (table.dealt + table.available)[k] == NthCard(template, k))
  }

  lemma CycleInOrder(template: seq<Question>, cycle: nat, j: nat)
    requires j < |template| && cycle >= 1
    ensures NthCard(template, cycle * |template| + j) == CardAt(template, cycle + 1, j)
  {
    Multiples(cycle, |template|);
    Divides(cycle * |template| + j, |template|, cycle, j);
  }

  lemma NextCycleInOrder(cards: seq<Question>, template: seq<Question>, cycle: nat)
    requires cycle >= 1 && template != [] && |cards| == cycle * |template|
    requires forall k :: 0 <= k < |cards| ==> cards[k] == NthCard(template, k)
    ensures var all := cards + CycleCards(template, cycle + 1);
      |all| == (cycle + 1) * |template| && forall k :: 0 <= k < |all| ==> all[k] == NthCard(template, k)
  {
    var all := cards + CycleCards(template, cycle + 1);
    forall k | |cards| <= k < |all| ensures all[k] == NthCard(template, k) {
      CycleInOrder(template, cycle, k - |cards|);
    }
  }

  /** Moving the front card over changes nothing in the whole. */
  lemma MovedOver(dealt: seq<Question>, cards: seq<Question>)
    requires cards != []
    ensures dealt + [cards[0]] + cards[1..] == dealt + cards
  {
  }

  lemma ServedInOrder(table: Table, template: seq<Question>, deal: Deal, cards: seq<Question>)
    requires InOrder(table, template) && template != []
    requires cards != [] && ServesFirst(deal.question, deal.available, cards, false)
    requires if table.available == [] then cards == CycleCards(template, table.cycle + 1) && deal.cycle == table.cycle + 1
             else cards == table.available && deal.cycle == table.cycle
    ensures deal.question.Some? && InOrder(Table(deal.available, deal.cycle, table.dealt + DealtOf(deal.question)), template)
  {
    FrontServed(deal.question, deal.available, cards);
    MovedOver(table.dealt, cards);
    if table.available == [] {
      assert table.dealt + table.available == table.dealt;
      NextCycleInOrder(table.dealt, template, table.cycle);
    }
  }

  lemma DealKeepsOrder(table: Table, template: seq<Question>, eligibleRefill: bool)
    requires InOrder(table, template) && template != []
    requires DealOnce(table, template, false, eligibleRefill).cycle < U32_MAX
    ensures InOrder(DealOnce(table, template, false, eligibleRefill), template)
    ensures |DealOnce(table, template, false, eligibleRefill).dealt| == |table.dealt| + 1
  {
    var available, cycle := table.available, table.cycle;
    DealServesFirst(available, template, cycle, false, eligibleRefill);
    assert available != [] ==> Wanted(available[0], false);
    var cards := Choices(available, template, cycle, false, eligibleRefill);
    assert available == [] ==> cards == CycleCards(template, cycle + 1);
    ServedInOrder(table, template, DealFrom(available, template, cycle, false, eligibleRefill), cards);
  }

  lemma OpeningInOrder(template: seq<Question>)
    ensures InOrder(Table(template, 1, []), template)
  {
    assert [] + template == template;
  }

  /** The cards of a run of deals without Rust-only come out in the order of
    the template, and then cycle by cycle in the order of the places: first
    the template as it stands.
  */
  lemma {:induction false} NthCardDealt(template: seq<Question>, requests: seq<bool>, eligibleRefill: bool)
    requires template != [] && true !in requests
    requires Play(template, requests, eligibleRefill).cycle < U32_MAX
    ensures var table := Play(template, requests, eligibleRefill);
      && InOrder(table, template) && |table.dealt| == |requests|
      && (forall k :: 0 <= k < |table.dealt| ==> table.dealt[k] == NthCard(template, k))
      && (|requests| <= |template| ==> table.dealt == template[..|requests|])
  {
    if requests == [] {
      OpeningInOrder(template);
    } else {
      var earlier := requests[..|requests| - 1];
      CycleNeverFalls(Play(template, earlier, eligibleRefill), template, false, eligibleRefill);
      NthCardDealt(template, earlier, eligibleRefill);
      DealKeepsOrder(Play(template, earlier, eligibleRefill), template, eligibleRefill);
      var table := Play(template, requests, eligibleRefill);
      forall k | 0 <= k < |table.dealt| ensures table.dealt[k] == NthCard(template, k) {
        assert table.dealt[k] == (table.dealt + table.available)[k];
      }
    }
  }
}
