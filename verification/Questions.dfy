/** Building a round's deck from the four question buckets
  (web/src/questions.rs).

  Every shuffle is a Fisher-Yates pass with arbitrary choices, so what is
  proved holds for every seed. `lower` stands for `to_lowercase`.
*/
module Questions {
  import opened Wrappers
  import opened Contract
  import opened SeqFacts
  import TextWrap

  const DECK_SIZE: nat := 150

  // ---------- validation ----------

  function Lowered(lower: string -> string, texts: seq<string>): set<string> {
    set text | text in texts :: lower(text)
  }

  /** Short enough for the badge, with four answers that differ. */
  predicate Fits(lower: string -> string, prompt: string, answers: seq<string>) {
    && |prompt| <= TextWrap.MAX_PROMPT_CHARS
    && (forall answer :: answer in answers ==> answer != "" && |answer| <= TextWrap.MAX_ANSWER_CHARS)
    && |Lowered(lower, answers)| == 4
  }

  predicate Playable(lower: string -> string, question: Question) {
    Fits(lower, question.prompt, question.answers) && question.correctIndex <= 3
  }

  function ById(): Question -> string {
    (question: Question) => question.id
  }

  function Ids(questions: seq<Question>): seq<string> {
    Mapped(ById(), questions)
  }

  function LowerPrompt(lower: string -> string): Question -> string {
    (question: Question) => lower(question.prompt)
  }

  function Prompts(lower: string -> string, questions: seq<Question>): seq<string> {
    Mapped(LowerPrompt(lower), questions)
  }

  /** Every question is playable and none repeats an ID or a prompt. */
  predicate AllValid(lower: string -> string, questions: seq<Question>) {
    && (forall k :: 0 <= k < |questions| ==> Playable(lower, questions[k]))
    && Distinct(Ids(questions))
    && Distinct(Prompts(lower, questions))
  }

  datatype Rejection = DoesNotFit(id: string) | InvalidIndex(id: string) | Duplicate(id: string)

  /** Question `k` is the first that breaks the rules, and why. */
  predicate RejectedAt(lower: string -> string, questions: seq<Question>, k: nat, rejection: Rejection) {
    && k < |questions| && AllValid(lower, questions[..k]) && !AllValid(lower, questions[..k + 1])
    && var question := questions[k];
       rejection ==
         if !Fits(lower, question.prompt, question.answers) then DoesNotFit(question.id)
         else if question.correctIndex > 3 then InvalidIndex(question.id)
         else Duplicate(question.id)
  }

  /** Names the first question that breaks the rules. */
  method ValidateQuestions(lower: string -> string, questions: seq<Question>) returns (rejection: Option<Rejection>)
    ensures rejection.None? <==> AllValid(lower, questions)
    ensures rejection.Some? ==> exists k :: RejectedAt(lower, questions, k, rejection.value)
  {
    var ids: set<string>, prompts: set<string> := {}, {};
    for k := 0 to |questions|
      invariant AllValid(lower, questions[..k])
      invariant forall id :: id in ids <==> id in Ids(questions[..k])
      invariant forall prompt :: prompt in prompts <==> prompt in Prompts(lower, questions[..k])
    {
      var question := questions[k];
      Snoc(lower, questions, k);
      if !Fits(lower, question.prompt, question.answers) {
        RejectedHere(lower, questions, k);
        assert RejectedAt(lower, questions, k, DoesNotFit(question.id));
        return Some(DoesNotFit(question.id));
      }
      if question.correctIndex > 3 {
        RejectedHere(lower, questions, k);
        assert RejectedAt(lower, questions, k, InvalidIndex(question.id));
        return Some(InvalidIndex(question.id));
      }
      if question.id in ids || lower(question.prompt) in prompts {
        RejectedHere(lower, questions, k);
        assert RejectedAt(lower, questions, k, Duplicate(question.id));
        return Some(Duplicate(question.id));
      }
      ids, prompts := ids + {question.id}, prompts + {lower(question.prompt)};
    }
    assert questions[..|questions|] == questions;
    rejection := None;
  }

  lemma Snoc(lower: string -> string, questions: seq<Question>, k: nat)
    requires k < |questions|
    ensures Ids(questions[..k + 1]) == Ids(questions[..k]) + [questions[k].id]
    ensures Prompts(lower, questions[..k + 1]) == Prompts(lower, questions[..k]) + [lower(questions[k].prompt)]
    ensures AllValid(lower, questions[..k + 1]) <==>
      AllValid(lower, questions[..k]) && Playable(lower, questions[k])
      && questions[k].id !in Ids(questions[..k]) && lower(questions[k].prompt) !in Prompts(lower, questions[..k])
  {
    var before, after := questions[..k], questions[..k + 1];
    assert after == before + [questions[k]];
    assert Ids(after) == Ids(before) + [questions[k].id];
    assert Prompts(lower, after) == Prompts(lower, before) + [lower(questions[k].prompt)];
    DistinctSnoc(Ids(before), questions[k].id);
    DistinctSnoc(Prompts(lower, before), lower(questions[k].prompt));
    assert (forall j :: 0 <= j < |after| ==> Playable(lower, after[j]))
      <==> (forall j :: 0 <= j < |before| ==> Playable(lower, before[j])) && Playable(lower, questions[k]) by {
      assert after[k] == questions[k];
      assert forall j :: 0 <= j < |before| ==> after[j] == before[j];
    }
  }

  lemma DistinctSnoc<T>(items: seq<T>, last: T)
    ensures Distinct(items + [last]) <==> Distinct(items) && last !in items
  {
    DistinctSplit(items, [last]);
    assert [last][0] == last;
    assert Distinct([last]);
  }

  lemma RejectedHere(lower: string -> string, questions: seq<Question>, k: nat)
    requires k < |questions| && AllValid(lower, questions[..k]) && !AllValid(lower, questions[..k + 1])
    ensures !AllValid(lower, questions)
  {
    if AllValid(lower, questions) {
      ValidPrefix(lower, questions, k + 1);
    }
  }

  lemma ValidPrefix(lower: string -> string, questions: seq<Question>, n: nat)
    requires n <= |questions| && AllValid(lower, questions)
    ensures AllValid(lower, questions[..n])
  {
    var ids, prompts := Ids(questions), Prompts(lower, questions);
    assert Ids(questions[..n]) == ids[..n] && Prompts(lower, questions[..n]) == prompts[..n];
    DistinctSplit(ids[..n], ids[n..]);
    DistinctSplit(prompts[..n], prompts[n..]);
    assert ids == ids[..n] + ids[n..] && prompts == prompts[..n] + prompts[n..];
  }

  // ---------- shuffling ----------

  /** `SliceRandom::shuffle`, with every choice left open. */
  method Shuffle<T>(items: seq<T>) returns (shuffled: seq<T>)
    ensures multiset(shuffled) == multiset(items)
  {
    shuffled := items;
    var i := |items|;
    while i > 1
      invariant |shuffled| == |items| && i <= |items|
      invariant multiset(shuffled) == multiset(items)
    {
      i := i - 1;
      var j :| 0 <= j <= i;
      shuffled := shuffled[i := shuffled[j]][j := shuffled[i]];
    }
  }

  /** The same question with its answers in another order. */
  predicate SameQuestion(a: Question, b: Question) {
    && a.id == b.id && a.category == b.category && a.difficulty == b.difficulty && a.prompt == b.prompt
    && multiset(a.answers) == multiset(b.answers)
    && a.correctIndex < |a.answers| && b.correctIndex < |b.answers|
    && a.answers[a.correctIndex] == b.answers[b.correctIndex]
  }

  /** Keeps the correct answer's text, and fails only on an index past the
    answers.
  */
  method ShuffleAnswers(question: Question) returns (shuffled: Option<Question>)
    ensures shuffled.None? <==> question.correctIndex >= |question.answers|
    ensures shuffled.Some? ==> SameQuestion(question, shuffled.value)
    ensures shuffled.Some? ==> var s := shuffled.value; s.answers[s.correctIndex] !in s.answers[..s.correctIndex]
  {
    if question.correctIndex >= |question.answers| { return None; }
    var correct := question.answers[question.correctIndex];
    var answers := Shuffle(question.answers);
    assert correct in multiset(answers);
    var position := 0;
    while answers[position] != correct
      invariant position < |answers| && correct !in answers[..position]
      decreases |answers| - position
    {
      assert answers == answers[..position] + [answers[position]] + answers[position + 1..];
      assert answers[position + 1..] != [];
      position := position + 1;
    }
    shuffled := Some(question.(answers := answers, correctIndex := position));
  }

  // ---------- drawing ----------

  /** The four buckets, in the order batches draw from them. */
  datatype Buckets = Buckets(rust: seq<Question>, temporal: seq<Question>, math: seq<Question>, general: seq<Question>)
  {
    function At(b: nat): seq<Question>
      requires b < 4
    {
      match b case 0 => rust case 1 => temporal case 2 => math case _ => general
    }
  }

  /** How many questions each bucket has given. */
  datatype Cursors = Cursors(rust: nat, temporal: nat, math: nat, general: nat)
  {
    function At(b: nat): nat
      requires b < 4
    {
      match b case 0 => rust case 1 => temporal case 2 => math case _ => general
    }

    function With(b: nat, n: nat): Cursors
      requires b < 4
    {
      match b case 0 => this.(rust := n) case 1 => this.(temporal := n) case 2 => this.(math := n) case _ => this.(general := n)
    }
  }

  /** What each bucket gives to a batch of a hundred. */
  const PATTERN := Cursors(30, 15, 15, 40)

  function Sum(cursors: Cursors): nat {
    cursors.rust + cursors.temporal + cursors.math + cursors.general
  }

  function Sizes(buckets: Buckets): Cursors {
    Cursors(|buckets.rust|, |buckets.temporal|, |buckets.math|, |buckets.general|)
  }

  predicate NotPast(a: Cursors, b: Cursors) {
    a.rust <= b.rust && a.temporal <= b.temporal && a.math <= b.math && a.general <= b.general
  }

  predicate Within(buckets: Buckets, cursors: Cursors) {
    NotPast(cursors, Sizes(buckets))
  }

  /** The questions before the cursors. */
  function Drawn(buckets: Buckets, cursors: Cursors): multiset<Question>
    requires Within(buckets, cursors)
  {
    multiset(buckets.rust[..cursors.rust]) + multiset(buckets.temporal[..cursors.temporal])
    + multiset(buckets.math[..cursors.math]) + multiset(buckets.general[..cursors.general])
  }

  function Pool(buckets: Buckets): seq<Question> {
    buckets.rust + buckets.temporal + buckets.math + buckets.general
  }

  function Advanced(buckets: Buckets, cursors: Cursors): (next: Cursors)
    requires Within(buckets, cursors)
    ensures Within(buckets, next) && NotPast(cursors, next)
  {
    Cursors(Min(|buckets.rust|, cursors.rust + PATTERN.rust), Min(|buckets.temporal|, cursors.temporal + PATTERN.temporal),
            Min(|buckets.math|, cursors.math + PATTERN.math), Min(|buckets.general|, cursors.general + PATTERN.general))
  }

  /** The cursors after `k` whole batches. */
  function CursorsAfter(buckets: Buckets, k: nat): (cursors: Cursors)
    ensures Within(buckets, cursors)
  {
    if k == 0 then Cursors(0, 0, 0, 0) else Advanced(buckets, CursorsAfter(buckets, k - 1))
  }

  /** 30, 15, 15 and 40 questions a batch, while a bucket lasts. */
  lemma {:induction false} CursorsClosedForm(buckets: Buckets, k: nat, b: nat)
    requires b < 4
    ensures CursorsAfter(buckets, k).At(b) == Min(|buckets.At(b)|, k * PATTERN.At(b))
  {
    if k > 0 {
      CursorsClosedForm(buckets, k - 1, b);
    }
  }

  lemma {:induction false} CursorsGrow(buckets: Buckets, j: nat, k: nat)
    requires j <= k
    ensures NotPast(CursorsAfter(buckets, j), CursorsAfter(buckets, k))
  {
    if j < k {
      CursorsGrow(buckets, j, k - 1);
    }
  }

  lemma SameSum(a: Cursors, b: Cursors)
    requires NotPast(a, b)
    ensures Sum(a) <= Sum(b) && (Sum(a) == Sum(b) ==> a == b)
  {
  }

  /** A batch, perhaps cut short: a bucket is served once those before it are. */
  predicate InOrder(from: Cursors, next: Cursors, full: Cursors) {
    && NotPast(from, next) && NotPast(next, full)
    && (next.temporal > from.temporal ==> next.rust == full.rust)
    && (next.math > from.math ==> next.rust == full.rust && next.temporal == full.temporal)
    && (next.general > from.general ==> next.rust == full.rust && next.temporal == full.temporal && next.math == full.math)
  }

  /** The cursors of a deck that holds `k` whole batches and part of the next. */
  predicate ServedAt(buckets: Buckets, cursors: Cursors, k: nat) {
    InOrder(CursorsAfter(buckets, k), cursors, CursorsAfter(buckets, k + 1))
  }

  ghost predicate Served(buckets: Buckets, cursors: Cursors) {
    exists k: nat :: ServedAt(buckets, cursors, k)
  }

  /** How many questions a deck has fixes how many each bucket gave. */
  lemma SharesAreDetermined(buckets: Buckets, a: Cursors, b: Cursors)
    requires Served(buckets, a) && Served(buckets, b) && Sum(a) == Sum(b)
    ensures a == b
  {
    var j: nat :| ServedAt(buckets, a, j);
    var k: nat :| ServedAt(buckets, b, k);
    assert a == b by {
      if j < k {
        LaterIsFuller(buckets, a, j, b, k);
      } else if k < j {
        LaterIsFuller(buckets, b, k, a, j);
      } else {
        SameBatch(buckets, a, b, k);
      }
    }
  }

  lemma SameBatch(buckets: Buckets, a: Cursors, b: Cursors, k: nat)
    requires ServedAt(buckets, a, k) && ServedAt(buckets, b, k) && Sum(a) == Sum(b)
    ensures a == b
  {
  }

  lemma LaterIsFuller(buckets: Buckets, a: Cursors, j: nat, b: Cursors, k: nat)
    requires ServedAt(buckets, a, j) && ServedAt(buckets, b, k) && j < k && Sum(a) == Sum(b)
    ensures a == b
  {
    CursorsGrow(buckets, j + 1, k);
    assert NotPast(a, CursorsAfter(buckets, j + 1)) && NotPast(CursorsAfter(buckets, k), b);
    assert NotPast(a, b);
    SameSum(a, b);
  }

  /** The shipped round: 150 questions from ample buckets are 60, 30, 20 and 40. */
  lemma ShippedShares(buckets: Buckets, cursors: Cursors)
    requires Served(buckets, cursors) && Sum(cursors) == DECK_SIZE
    requires |buckets.rust| >= 60 && |buckets.temporal| >= 30 && |buckets.math| >= 20 && |buckets.general| >= 40
    ensures cursors == Cursors(60, 30, 20, 40)
  {
    var shares := Cursors(60, 30, 20, 40);
    assert CursorsAfter(buckets, 1) == Advanced(buckets, Cursors(0, 0, 0, 0));
    assert CursorsAfter(buckets, 2) == Advanced(buckets, CursorsAfter(buckets, 1));
    assert ServedAt(buckets, shares, 1);
    SharesAreDetermined(buckets, cursors, shares);
  }

  /** The questions between two sets of cursors, up to a bucket. */
  function Between(buckets: Buckets, from: Cursors, to: Cursors, n: nat): seq<Question>
    requires Within(buckets, to) && NotPast(from, to) && n <= 4
  {
    if n == 0 then [] else Between(buckets, from, to, n - 1) + buckets.At(n - 1)[from.At(n - 1)..to.At(n - 1)]
  }

  /** Up to `count` questions of one bucket. */
  method TakeFrom(bucket: seq<Question>, start: nat, count: nat, room: nat) returns (taken: seq<Question>, cursor: nat)
    requires start <= |bucket|
    ensures cursor == start + Min(count, Min(room, |bucket| - start))
    ensures taken == bucket[start..cursor]
  {
    taken, cursor := [], start;
    for i := 0 to count
      invariant start <= cursor <= |bucket| && cursor == start + Min(i, Min(room, |bucket| - start))
      invariant taken == bucket[start..cursor]
    {
      if |taken| == room || cursor == |bucket| { break; }
      SliceGrows(bucket, start, cursor);
      taken, cursor := taken + [bucket[cursor]], cursor + 1;
    }
  }

  lemma SliceGrows<T>(items: seq<T>, from: nat, to: nat)
    requires from <= to < |items|
    ensures items[from..to + 1] == items[from..to] + [items[to]]
  {
  }

  /** One batch, cut short when the deck is full: earlier buckets first. */
  method DrawBatch(buckets: Buckets, cursors: Cursors, room: nat) returns (batch: seq<Question>, next: Cursors)
    requires Within(buckets, cursors)
    ensures Within(buckets, next) && InOrder(cursors, next, Advanced(buckets, cursors))
    ensures batch == Between(buckets, cursors, next, 4)
    ensures |batch| == Sum(next) - Sum(cursors) == Min(room, Sum(Advanced(buckets, cursors)) - Sum(cursors))
  {
    batch, next := [], cursors;
    NoneServed(cursors, Advanced(buckets, cursors), room);
    for b := 0 to 4
      invariant PartServed(cursors, next, Advanced(buckets, cursors), b, room)
      invariant batch == Between(buckets, cursors, next, b) && |batch| == Sum(next) - Sum(cursors)
    {
      var taken := Serve(buckets, cursors, next, b, room);
      batch, next := batch + taken, next.With(b, cursors.At(b) + |taken|);
    }
    AllServed(cursors, next, Advanced(buckets, cursors), room);
  }

  /** What one bucket adds to a batch. */
  method Serve(buckets: Buckets, cursors: Cursors, next: Cursors, b: nat, room: nat) returns (taken: seq<Question>)
    requires Within(buckets, cursors) && b < 4 && PartServed(cursors, next, Advanced(buckets, cursors), b, room)
    ensures var after := next.With(b, cursors.At(b) + |taken|);
      && PartServed(cursors, after, Advanced(buckets, cursors), b + 1, room)
      && Between(buckets, cursors, after, b + 1) == Between(buckets, cursors, next, b) + taken
      && Sum(after) == Sum(next) + |taken|
  {
    BucketLeft(buckets, cursors, b);
    var cursor;
    taken, cursor := TakeFrom(buckets.At(b), cursors.At(b), PATTERN.At(b), room - (Sum(next) - Sum(cursors)));
    BucketServed(cursors, next, Advanced(buckets, cursors), b, room, cursor);
    BetweenGrows(buckets, cursors, next, b, cursor);
  }

  lemma BetweenGrows(buckets: Buckets, from: Cursors, next: Cursors, b: nat, cursor: nat)
    requires b < 4 && Within(buckets, next) && NotPast(from, next) && from.At(b) <= cursor <= |buckets.At(b)|
    ensures var after := next.With(b, cursor);
      && Within(buckets, after) && NotPast(from, after)
      && Between(buckets, from, after, b + 1) == Between(buckets, from, next, b) + buckets.At(b)[from.At(b)..cursor]
  {
    BetweenAgrees(buckets, from, next, next.With(b, cursor), b);
  }

  lemma BucketLeft(buckets: Buckets, cursors: Cursors, b: nat)
    requires Within(buckets, cursors) && b < 4
    ensures cursors.At(b) <= |buckets.At(b)|
    ensures Advanced(buckets, cursors).At(b) - cursors.At(b) == Min(PATTERN.At(b), |buckets.At(b)| - cursors.At(b))
  {
    match b case 0 => case 1 => case 2 => case 3 =>
  }

  lemma NoneServed(from: Cursors, full: Cursors, room: nat)
    requires NotPast(from, full)
    ensures PartServed(from, from, full, 0, room)
  {
  }

  lemma AllServed(from: Cursors, next: Cursors, full: Cursors, room: nat)
    requires PartServed(from, next, full, 4, room)
    ensures InOrder(from, next, full) && Sum(next) - Sum(from) == Min(room, Sum(full) - Sum(from))
  {
  }

  /** The first `b` buckets are served, the others not yet. */
  predicate PartServed(from: Cursors, next: Cursors, full: Cursors, b: nat, room: nat) {
    && InOrder(from, next, full) && Sum(next) - Sum(from) <= room
    && (b <= 0 ==> next.rust == from.rust) && (b <= 1 ==> next.temporal == from.temporal)
    && (b <= 2 ==> next.math == from.math) && (b <= 3 ==> next.general == from.general)
    && (Sum(next) - Sum(from) < room ==>
          && (b > 0 ==> next.rust == full.rust) && (b > 1 ==> next.temporal == full.temporal)
          && (b > 2 ==> next.math == full.math) && (b > 3 ==> next.general == full.general))
  }

  lemma BucketServed(from: Cursors, next: Cursors, full: Cursors, b: nat, room: nat, cursor: nat)
    requires b < 4 && PartServed(from, next, full, b, room)
    requires cursor == from.At(b) + Min(full.At(b) - from.At(b), room - (Sum(next) - Sum(from)))
    ensures PartServed(from, next.With(b, cursor), full, b + 1, room)
    ensures Sum(next.With(b, cursor)) == Sum(next) + cursor - from.At(b)
    ensures forall i :: 0 <= i < b ==> next.With(b, cursor).At(i) == next.At(i)
  {
    match b case 0 => case 1 => case 2 => case 3 =>
  }

  lemma {:induction false} BetweenAgrees(buckets: Buckets, from: Cursors, a: Cursors, b: Cursors, n: nat)
    requires Within(buckets, a) && Within(buckets, b) && NotPast(from, a) && NotPast(from, b) && n <= 4
    requires forall i :: 0 <= i < n ==> a.At(i) == b.At(i)
    ensures Between(buckets, from, a, n) == Between(buckets, from, b, n)
  {
    if n > 0 {
      BetweenAgrees(buckets, from, a, b, n - 1);
    }
  }

  lemma DrawnGrows(buckets: Buckets, from: Cursors, to: Cursors)
    requires Within(buckets, from) && Within(buckets, to) && NotPast(from, to)
    ensures Drawn(buckets, to) == Drawn(buckets, from) + multiset(Between(buckets, from, to, 4))
  {
    SliceParts(buckets.rust, from.rust, to.rust);
    SliceParts(buckets.temporal, from.temporal, to.temporal);
    SliceParts(buckets.math, from.math, to.math);
    SliceParts(buckets.general, from.general, to.general);
    assert Between(buckets, from, to, 1) == buckets.rust[from.rust..to.rust];
    assert Between(buckets, from, to, 2) == Between(buckets, from, to, 1) + buckets.temporal[from.temporal..to.temporal];
    assert Between(buckets, from, to, 3) == Between(buckets, from, to, 2) + buckets.math[from.math..to.math];
  }

  lemma SliceParts<T>(items: seq<T>, from: nat, to: nat)
    requires from <= to <= |items|
    ensures multiset(items[..to]) == multiset(items[..from]) + multiset(items[from..to])
  {
    assert items[..to] == items[..from] + items[from..to];
  }

  lemma DrawnCounts(buckets: Buckets, cursors: Cursors)
    requires Within(buckets, cursors)
    ensures |Drawn(buckets, cursors)| == Sum(cursors)
  {
  }

  /** After the batches that fit, the deck holds exactly the questions before
    the cursors: each hundred keeps its 30, 15, 15 and 40 while buckets last.
  */
  ghost predicate Weighted(buckets: Buckets, deck: seq<Question>, k: nat) {
    var cursors := CursorsAfter(buckets, k);
    Sum(cursors) <= |deck| ==> multiset(deck[..Sum(cursors)]) == Drawn(buckets, cursors)
  }

  /** The cursors after `k` whole batches, or in the middle of the next one
    once the deck is full.
  */
  predicate Positioned(buckets: Buckets, cursors: Cursors, k: nat, maximum: nat) {
    && ServedAt(buckets, cursors, k)
    && Sum(cursors) <= maximum && (Sum(cursors) < maximum ==> cursors == CursorsAfter(buckets, k))
  }

  ghost predicate Counted(buckets: Buckets, deck: seq<Question>, cursors: Cursors) {
    Within(buckets, cursors) && |deck| == Sum(cursors) && multiset(deck) == Drawn(buckets, cursors)
  }

  ghost predicate History(buckets: Buckets, deck: seq<Question>, k: nat) {
    forall j: nat :: j <= k ==> Holds(buckets, deck, j)
  }

  /** The deck holds `k` whole batches, weighted. */
  ghost predicate Holds(buckets: Buckets, deck: seq<Question>, k: nat) {
    Sum(CursorsAfter(buckets, k)) <= |deck| && Weighted(buckets, deck, k)
  }

  ghost predicate DrawnSoFar(buckets: Buckets, deck: seq<Question>, cursors: Cursors, k: nat, maximum: nat) {
    Counted(buckets, deck, cursors) && Positioned(buckets, cursors, k, maximum) && History(buckets, deck, k)
  }

  lemma WeightedStays(buckets: Buckets, deck: seq<Question>, more: seq<Question>, k: nat)
    requires Sum(CursorsAfter(buckets, k)) <= |deck| && Weighted(buckets, deck, k)
    ensures Weighted(buckets, deck + more, k)
  {
    assert (deck + more)[..Sum(CursorsAfter(buckets, k))] == deck[..Sum(CursorsAfter(buckets, k))];
  }

  lemma HistoryStays(buckets: Buckets, deck: seq<Question>, more: seq<Question>, k: nat)
    requires History(buckets, deck, k)
    ensures History(buckets, deck + more, k)
  {
    forall j: nat | j <= k ensures Holds(buckets, deck + more, j) {
      assert Holds(buckets, deck, j);
      WeightedStays(buckets, deck, more, j);
    }
  }

  lemma HistoryGrows(buckets: Buckets, deck: seq<Question>, k: nat)
    requires History(buckets, deck, k) && Counted(buckets, deck, CursorsAfter(buckets, k + 1))
    ensures History(buckets, deck, k + 1)
  {
    assert deck[..|deck|] == deck;
    assert Holds(buckets, deck, k + 1);
  }

  lemma PositionMoves(buckets: Buckets, cursors: Cursors, next: Cursors, k: nat, maximum: nat)
    requires Positioned(buckets, cursors, k, maximum) && Sum(cursors) < maximum && Sum(next) <= maximum
    requires Within(buckets, cursors) && InOrder(cursors, next, Advanced(buckets, cursors))
    requires Sum(next) < maximum ==> next == Advanced(buckets, cursors)
    ensures Positioned(buckets, next, if Sum(next) < maximum then k + 1 else k, maximum)
    ensures Sum(next) < maximum ==> next == CursorsAfter(buckets, k + 1)
  {
    assert Advanced(buckets, cursors) == CursorsAfter(buckets, k + 1);
    CursorsGrow(buckets, k + 1, k + 2);
  }

  lemma BatchCounts(buckets: Buckets, deck: seq<Question>, cursors: Cursors, batch: seq<Question>, next: Cursors)
    requires Counted(buckets, deck, cursors) && Within(buckets, next) && NotPast(cursors, next)
    requires multiset(batch) == multiset(Between(buckets, cursors, next, 4))
    ensures Counted(buckets, deck + batch, next)
  {
    DrawnGrows(buckets, cursors, next);
    DrawnCounts(buckets, next);
    assert multiset(deck + batch) == Drawn(buckets, next);
    assert |multiset(deck + batch)| == |deck + batch|;
  }

  lemma BatchAdded(buckets: Buckets, deck: seq<Question>, cursors: Cursors, k: nat, maximum: nat,
                   batch: seq<Question>, next: Cursors)
    requires DrawnSoFar(buckets, deck, cursors, k, maximum) && |deck| < maximum && |deck| + |batch| <= maximum
    requires Within(buckets, next) && InOrder(cursors, next, Advanced(buckets, cursors))
    requires |batch| < maximum - |deck| ==> next == Advanced(buckets, cursors)
    requires multiset(batch) == multiset(Between(buckets, cursors, next, 4))
    ensures DrawnSoFar(buckets, deck + batch, next, if |deck| + |batch| < maximum then k + 1 else k, maximum)
  {
    BatchCounts(buckets, deck, cursors, batch, next);
    PositionMoves(buckets, cursors, next, k, maximum);
    HistoryStays(buckets, deck, batch, k);
    if |deck| + |batch| < maximum {
      HistoryGrows(buckets, deck + batch, k);
    }
  }

  /** With the deck full, or nothing left to draw, later batches add nothing. */
  lemma DrawingEnds(buckets: Buckets, deck: seq<Question>, cursors: Cursors, k: nat, maximum: nat, j: nat)
    requires DrawnSoFar(buckets, deck, cursors, k, maximum)
    requires |deck| == maximum || cursors == Sizes(buckets)
    ensures Weighted(buckets, deck, j)
  {
    var later := CursorsAfter(buckets, j);
    if j <= k {
      assert Holds(buckets, deck, j);
    } else if Sum(later) <= |deck| {
      assert NotPast(cursors, later) by {
        CursorsGrow(buckets, k + 1, j);
        assert NotPast(cursors, CursorsAfter(buckets, k + 1));
      }
      SameSum(cursors, later);
      assert deck[..|deck|] == deck;
    }
  }

  /** Nothing left to draw. */
  lemma BucketsEmpty(buckets: Buckets, cursors: Cursors)
    requires Within(buckets, cursors) && Sum(Advanced(buckets, cursors)) == Sum(cursors)
    ensures cursors == Sizes(buckets)
  {
    SameSum(cursors, Advanced(buckets, cursors));
  }

  lemma NothingCounted(buckets: Buckets, deck: seq<Question>, cursors: Cursors)
    requires |deck| == 0 && Sum(cursors) == 0
    ensures Counted(buckets, deck, cursors)
  {
    assert |Drawn(buckets, cursors)| == 0 by {
      DrawnCounts(buckets, cursors);
    }
    assert Drawn(buckets, cursors) == multiset{} == multiset(deck);
  }

  lemma NothingHeld(buckets: Buckets, deck: seq<Question>, k: nat)
    requires |deck| == 0 && k == 0
    ensures Holds(buckets, deck, k)
  {
    NothingCounted(buckets, deck[..0], CursorsAfter(buckets, k));
  }

  lemma StartPosition(buckets: Buckets, start: Cursors, maximum: nat)
    requires Sum(start) == 0
    ensures Positioned(buckets, start, 0, maximum)
  {
  }

  lemma DrawStarts(buckets: Buckets, begun: seq<Question>, start: Cursors, maximum: nat)
    requires |begun| == 0 && Sum(start) == 0
    ensures DrawnSoFar(buckets, begun, start, 0, maximum)
  {
    NothingCounted(buckets, begun, start);
    NothingHeld(buckets, begun, 0);
    StartPosition(buckets, start, maximum);
  }

  /** What the drawing has done when it ends. */
  lemma DrawEnded(buckets: Buckets, deck: seq<Question>, cursors: Cursors, k: nat, maximum: nat)
    requires DrawnSoFar(buckets, deck, cursors, k, maximum)
    requires |deck| == maximum || cursors == Sizes(buckets)
    ensures Within(buckets, cursors) && multiset(deck) == Drawn(buckets, cursors)
    ensures |deck| == Sum(cursors) == Min(maximum, |Pool(buckets)|)
    ensures Served(buckets, cursors) && forall j: nat :: Weighted(buckets, deck, j)
  {
    assert ServedAt(buckets, cursors, k);
    PoolCounts(buckets, cursors);
    forall j: nat ensures Weighted(buckets, deck, j) {
      DrawingEnds(buckets, deck, cursors, k, maximum, j);
    }
  }

  lemma PoolCounts(buckets: Buckets, cursors: Cursors)
    requires Within(buckets, cursors)
    ensures Sum(Sizes(buckets)) == |Pool(buckets)| >= Sum(cursors)
  {
  }

  /** One turn of the drawing loop. */
  lemma BatchDrawn(buckets: Buckets, deck: seq<Question>, cursors: Cursors, k: nat, maximum: nat,
                   batch: seq<Question>, shuffled: seq<Question>, next: Cursors)
    requires DrawnSoFar(buckets, deck, cursors, k, maximum) && |deck| < maximum
    requires Within(buckets, next) && InOrder(cursors, next, Advanced(buckets, cursors))
    requires batch == Between(buckets, cursors, next, 4) && multiset(shuffled) == multiset(batch)
    requires |batch| == Sum(next) - Sum(cursors) == Min(maximum - |deck|, Sum(Advanced(buckets, cursors)) - Sum(cursors))
    ensures |shuffled| == |batch| <= maximum - |deck|
    ensures DrawnSoFar(buckets, deck + shuffled, next, if |deck| + |shuffled| < maximum then k + 1 else k, maximum)
    ensures |batch| == 0 ==> cursors == Sizes(buckets)
  {
    SameLength(shuffled, batch);
    SameSum(next, Advanced(buckets, cursors));
    BatchAdded(buckets, deck, cursors, k, maximum, shuffled, next);
    if |batch| == 0 {
      BucketsEmpty(buckets, cursors);
    }
  }

  /** A batch, shuffled; an empty one when nothing is left. */
  method NextBatch(buckets: Buckets, deck: seq<Question>, cursors: Cursors, ghost k: nat, maximum: nat)
    returns (shuffled: seq<Question>, next: Cursors, ghost k': nat)
    requires DrawnSoFar(buckets, deck, cursors, k, maximum) && |deck| < maximum
    ensures DrawnSoFar(buckets, deck + shuffled, next, k', maximum)
    ensures |shuffled| == 0 ==> next == Sizes(buckets)
  {
    var batch;
    batch, next := DrawBatch(buckets, cursors, maximum - |deck|);
    shuffled := Shuffle(batch);
    k' := if |deck| + |shuffled| < maximum then k + 1 else k;
    BatchDrawn(buckets, deck, cursors, k, maximum, batch, shuffled, next);
    if |shuffled| == 0 {
      SameSum(cursors, next);
    }
  }

  /** Batches, shuffled one by one, until the deck is full or nothing is left. */
  method DrawBatches(buckets: Buckets, begun: seq<Question>, start: Cursors, maximum: nat)
    returns (deck: seq<Question>, cursors: Cursors)
    requires |begun| == 0 && Sum(start) == 0
    ensures Within(buckets, cursors) && multiset(deck) == Drawn(buckets, cursors)
    ensures |deck| == Sum(cursors) == Min(maximum, |Pool(buckets)|)
    ensures Served(buckets, cursors)
    ensures forall k: nat :: Weighted(buckets, deck, k)
    ensures |deck| < maximum ==> cursors == Sizes(buckets)
  {
    deck, cursors := begun, start;
    DrawStarts(buckets, begun, start, maximum);
    ghost var k := 0;
    while |deck| < maximum
      invariant DrawnSoFar(buckets, deck, cursors, k, maximum)
    {
      var batch;
      batch, cursors, k := NextBatch(buckets, deck, cursors, k, maximum);
      deck := deck + batch;
      if |batch| == 0 { break; }
    }
    DrawEnded(buckets, deck, cursors, k, maximum);
  }

  method DrawDeck(buckets: Buckets, maximum: nat) returns (deck: seq<Question>, cursors: Cursors)
    ensures Within(buckets, cursors) && multiset(deck) == Drawn(buckets, cursors)
    ensures |deck| == Sum(cursors) == Min(maximum, |Pool(buckets)|)
    ensures Served(buckets, cursors)
    ensures forall k: nat :: Weighted(buckets, deck, k)
    ensures |deck| < maximum ==> cursors == Sizes(buckets)
  {
    deck, cursors := DrawBatches(buckets, [], Cursors(0, 0, 0, 0), maximum);
  }

  // ---------- the whole deck ----------

  /** Items picked from a sequence without repeats do not repeat. */
  lemma PartDistinct<T, U>(f: T -> U, part: seq<T>, rest: seq<T>, whole: seq<T>)
    requires multiset(whole) == multiset(part) + multiset(rest) && Distinct(Mapped(f, whole))
    ensures Distinct(Mapped(f, part))
  {
    assert multiset(part + rest) == multiset(whole);
    ReorderMapped(f, part + rest, whole);
    DistinctReorder(Mapped(f, part + rest), Mapped(f, whole));
    assert Mapped(f, part + rest) == Mapped(f, part) + Mapped(f, rest);
    DistinctSplit(Mapped(f, part), Mapped(f, rest));
  }

  lemma PartValid(lower: string -> string, part: seq<Question>, rest: seq<Question>, whole: seq<Question>)
    requires multiset(whole) == multiset(part) + multiset(rest) && AllValid(lower, whole)
    ensures AllValid(lower, part)
  {
    PartDistinct(ById(), part, rest, whole);
    PartDistinct(LowerPrompt(lower), part, rest, whole);
    forall k | 0 <= k < |part| ensures Playable(lower, part[k]) {
      assert part[k] in multiset(part);
      assert part[k] in multiset(whole);
      var j :| 0 <= j < |whole| && whole[j] == part[k];
    }
  }

  /** The type of a question in the source: an array of four answers. */
  predicate FourAnswers(questions: seq<Question>) {
    forall i :: 0 <= i < |questions| ==> |questions[i].answers| == 4
  }

  lemma StaysPlayable(lower: string -> string, a: Question, b: Question)
    requires SameQuestion(a, b) && |a.answers| == 4 && Playable(lower, a)
    ensures Playable(lower, b)
  {
    SameLength(a.answers, b.answers);
    assert forall text :: text in a.answers <==> text in b.answers by {
      assert forall text :: text in a.answers <==> text in multiset(a.answers);
      assert forall text :: text in b.answers <==> text in multiset(b.answers);
    }
    assert Lowered(lower, a.answers) == Lowered(lower, b.answers);
  }

  lemma MappedAlike<T, U>(f: T -> U, a: seq<T>, b: seq<T>)
    requires |a| == |b| && forall i :: 0 <= i < |a| ==> f(a[i]) == f(b[i])
    ensures Mapped(f, a) == Mapped(f, b)
  {
  }

  ghost predicate SameQuestions(a: seq<Question>, b: seq<Question>) {
    |a| == |b| && forall i :: 0 <= i < |a| ==> SameQuestion(a[i], b[i])
  }

  /** Reordering answers keeps a deck valid. */
  lemma AnswersKeepValid(lower: string -> string, before: seq<Question>, after: seq<Question>)
    requires SameQuestions(before, after) && FourAnswers(before)
    requires AllValid(lower, before)
    ensures AllValid(lower, after)
  {
    assert Ids(after) == Ids(before) by {
      MappedAlike(ById(), before, after);
    }
    assert Prompts(lower, after) == Prompts(lower, before) by {
      MappedAlike(LowerPrompt(lower), before, after);
    }
    forall k | 0 <= k < |after| ensures Playable(lower, after[k]) {
      StaysPlayable(lower, before[k], after[k]);
    }
  }

  ghost predicate Reshuffled(a: Buckets, b: Buckets) {
    && multiset(a.rust) == multiset(b.rust) && multiset(a.temporal) == multiset(b.temporal)
    && multiset(a.math) == multiset(b.math) && multiset(a.general) == multiset(b.general)
  }

  lemma PoolReshuffled(a: Buckets, b: Buckets)
    requires Reshuffled(a, b)
    ensures multiset(Pool(a)) == multiset(Pool(b)) && |Pool(a)| == |Pool(b)|
  {
    SameLength(Pool(a), Pool(b));
  }

  lemma AllDrawn(buckets: Buckets)
    ensures Drawn(buckets, Sizes(buckets)) == multiset(Pool(buckets))
  {
    assert buckets.rust[..|buckets.rust|] == buckets.rust && buckets.temporal[..|buckets.temporal|] == buckets.temporal;
    assert buckets.math[..|buckets.math|] == buckets.math && buckets.general[..|buckets.general|] == buckets.general;
  }

  lemma DrawnValid(lower: string -> string, buckets: Buckets, shuffled: Buckets, cursors: Cursors, deck: seq<Question>)
    requires Reshuffled(buckets, shuffled) && AllValid(lower, Pool(buckets))
    requires Within(shuffled, cursors) && multiset(deck) == Drawn(shuffled, cursors)
    ensures AllValid(lower, deck)
    ensures FourAnswers(Pool(buckets)) ==> FourAnswers(deck)
  {
    var rest := Between(shuffled, cursors, Sizes(shuffled), 4);
    PoolReshuffled(buckets, shuffled);
    AllDrawn(shuffled);
    DrawnGrows(shuffled, cursors, Sizes(shuffled));
    PartValid(lower, deck, rest, Pool(buckets));
    forall i | 0 <= i < |deck| ensures deck[i] in Pool(buckets) {
      assert deck[i] in multiset(deck);
      assert deck[i] in multiset(Pool(buckets));
    }
  }

  datatype Built = Deck(questions: seq<Question>) | PoolRejected(rejection: Rejection) | TooFew(available: nat)

  /** What a deck is built from: of every shuffled bucket the questions before
    its cursor, batch by batch in the agreed weights, each with its answers in
    some order.
  */
  ghost predicate BuiltFrom(buckets: Buckets, shuffled: Buckets, cursors: Cursors, drawn: seq<Question>, deck: seq<Question>) {
    && Reshuffled(buckets, shuffled)
    && SameQuestions(drawn, deck)
    && Within(shuffled, cursors) && Served(shuffled, cursors)
    && multiset(drawn) == Drawn(shuffled, cursors)
    && (forall k: nat :: Weighted(shuffled, drawn, k))
  }

  method ShuffleBuckets(buckets: Buckets) returns (shuffled: Buckets)
    ensures Reshuffled(buckets, shuffled)
  {
    var rust := Shuffle(buckets.rust);
    var temporal := Shuffle(buckets.temporal);
    var math := Shuffle(buckets.math);
    var general := Shuffle(buckets.general);
    shuffled := Buckets(rust, temporal, math, general);
  }

  /** No question's correct answer is lost. */
  method ShuffleAllAnswers(deck: seq<Question>) returns (questions: seq<Question>)
    requires forall i :: 0 <= i < |deck| ==> deck[i].correctIndex < |deck[i].answers|
    ensures SameQuestions(deck, questions)
  {
    questions := [];
    for i := 0 to |deck|
      invariant |questions| == i
      invariant forall j :: 0 <= j < i ==> SameQuestion(deck[j], questions[j])
    {
      var question := ShuffleAnswers(deck[i]);
      questions := questions + [question.value];
    }
  }

  /** Answers shuffled and the deck validated once more, which changes nothing. */
  method FinishDeck(lower: string -> string, deck: seq<Question>) returns (questions: seq<Question>)
    requires AllValid(lower, deck) && FourAnswers(deck)
    ensures SameQuestions(deck, questions) && AllValid(lower, questions)
  {
    assert forall i :: 0 <= i < |deck| ==> Playable(lower, deck[i]);
    questions := ShuffleAllAnswers(deck);
    AnswersKeepValid(lower, deck, questions);
    var rejection := ValidateQuestions(lower, questions);
    assert rejection.None?;
  }

  /** The deck of a valid pool, if that is large enough. */
  method BuildFrom(lower: string -> string, buckets: Buckets, maximum: nat)
    returns (built: Built, ghost shuffled: Buckets, ghost cursors: Cursors, ghost drawn: seq<Question>)
    requires AllValid(lower, Pool(buckets)) && FourAnswers(Pool(buckets))
    ensures built == TooFew(|Pool(buckets)|) || built.Deck?
    ensures built.Deck? <==> maximum <= |Pool(buckets)|
    ensures built.Deck? ==> |built.questions| == maximum && AllValid(lower, built.questions)
    ensures built.Deck? ==> BuiltFrom(buckets, shuffled, cursors, drawn, built.questions)
  {
    var bins := ShuffleBuckets(buckets);
    var deck, ends := DrawDeck(bins, maximum);
    PoolReshuffled(buckets, bins);
    // The fallback loop's guard is false.
    assert |deck| == maximum || ends.general == |bins.general|;
    shuffled, cursors, drawn := bins, ends, deck;
    if |deck| != maximum {
      return TooFew(|deck|), shuffled, cursors, drawn;
    }
    DrawnValid(lower, buckets, bins, ends, deck);
    var questions := FinishDeck(lower, deck);
    built := Deck(questions);
  }

  /** Succeeds exactly when the pool validates and is large enough. The
    fallback on general questions adds nothing, no correct answer is lost and
    the final validation cannot fail: none of those has a result of its own.
  */
  method BuildDeck(lower: string -> string, buckets: Buckets, maximum: nat)
    returns (built: Built, ghost shuffled: Buckets, ghost cursors: Cursors, ghost drawn: seq<Question>)
    requires FourAnswers(Pool(buckets))
    ensures built.PoolRejected? <==> !AllValid(lower, Pool(buckets))
    ensures built.PoolRejected? ==> exists k :: RejectedAt(lower, Pool(buckets), k, built.rejection)
    ensures built.Deck? <==> AllValid(lower, Pool(buckets)) && maximum <= |Pool(buckets)|
    ensures built.TooFew? ==> built.available == |Pool(buckets)|
    ensures built.Deck? ==> |built.questions| == maximum && AllValid(lower, built.questions)
    ensures built.Deck? ==> BuiltFrom(buckets, shuffled, cursors, drawn, built.questions)
  {
    shuffled, cursors, drawn := buckets, Sizes(buckets), [];
    var rejection := ValidateQuestions(lower, Pool(buckets));
    if rejection.Some? {
      return PoolRejected(rejection.value), shuffled, cursors, drawn;
    }
    built, shuffled, cursors, drawn := BuildFrom(lower, buckets, maximum);
  }

  /** What a validated question owes the badge's panel: beyond its length
    checks, word lengths decide whether every letter is sure to be shown.
  */
  lemma PlayableFitsThePanel(lower: string -> string, question: Question)
    requires Playable(lower, question)
    ensures TextWrap.WordsWithin(TextWrap.Words(question.prompt), 13) ==>
      TextWrap.ShownWhole(question.prompt, TextWrap.PROMPT_CHARS, TextWrap.PROMPT_LINES)
    ensures forall answer :: answer in question.answers && TextWrap.WordsWithin(TextWrap.Words(answer), 3) ==>
      TextWrap.ShownWhole(answer, TextWrap.ANSWER_LABEL_CHARS, TextWrap.ANSWER_LABEL_LINES)
  {
    TextWrap.PromptWordLimit(13);
    TextWrap.AnswerWordLimit(3);
  }
}
