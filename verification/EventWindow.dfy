/** The rolling event window of a snapshot (shared/src/contract.rs, `push_kind`).

  The source appends, and while the window is over-full evicts the oldest
  routine answer or, when there is none, the oldest event. The main result,
  ClosedForm, says without any eviction what the window holds after an
  arbitrary history.
*/
module EventWindow {
  import opened Wrappers
  import opened Contract

  /** Where the oldest routine answer stands; the length when there is none. */
  function FirstAnswer(events: seq<GameEvent>): (i: nat)
    ensures i <= |events|
    ensures i < |events| ==> events[i].kind == Answer
    ensures forall j :: 0 <= j < i ==> events[j].kind != Answer
  {
    if events == [] || events[0].kind == Answer then 0 else 1 + FirstAnswer(events[1..])
  }

  /** Drops the victim: the oldest answer, else the oldest event. */
  function Evict(events: seq<GameEvent>): (r: seq<GameEvent>)
    requires events != []
    ensures |r| == |events| - 1
  {
    var i := FirstAnswer(events);
    var victim := if i < |events| then i else 0;
    events[..victim] + events[victim + 1..]
  }

  function Trim(events: seq<GameEvent>): (r: seq<GameEvent>)
    ensures |r| <= EVENT_WINDOW
  {
    if |events| > EVENT_WINDOW then Trim(Evict(events)) else events
  }

  function Push(events: seq<GameEvent>, event: GameEvent): (r: seq<GameEvent>) {
    Trim(events + [event])
  }

  /** The window after a whole history of pushes onto an empty one. */
  function Window(history: seq<GameEvent>): (r: seq<GameEvent>)
    ensures |r| <= EVENT_WINDOW
  {
    if history == [] then [] else Push(Window(history[..|history| - 1]), history[|history| - 1])
  }

  function Answers(history: seq<GameEvent>): (n: nat)
    ensures n <= |history|
  {
    if history == [] then 0
    else Answers(history[..|history| - 1]) + if history[|history| - 1].kind == Answer then 1 else 0
  }

  function Others(history: seq<GameEvent>): nat {
    |history| - Answers(history)
  }

  /** The last `others` non-answers and the last `answers` answers of a
    history, in arrival order.
  */
  function Latest(history: seq<GameEvent>, others: nat, answers: nat): (r: seq<GameEvent>) {
    if history == [] then []
    else
      var earlier, last := history[..|history| - 1], history[|history| - 1];
      if last.kind == Answer then
        if answers > 0 then Latest(earlier, others, answers - 1) + [last] else Latest(earlier, others, 0)
      else
        if others > 0 then Latest(earlier, others - 1, answers) + [last] else Latest(earlier, 0, answers)
  }

  lemma {:induction false} LatestLength(history: seq<GameEvent>, others: nat, answers: nat)
    ensures |Latest(history, others, answers)| == Min(others, Others(history)) + Min(answers, Answers(history))
    ensures Answers(Latest(history, others, answers)) == Min(answers, Answers(history))
  {
    if history != [] {
      var earlier, last := history[..|history| - 1], history[|history| - 1];
      var o := if last.kind != Answer && others > 0 then others - 1 else others;
      var a := if last.kind == Answer && answers > 0 then answers - 1 else answers;
      LatestLength(earlier, o, a);
      if (last.kind == Answer && answers > 0) || (last.kind != Answer && others > 0) {
        AppendCounts(Latest(earlier, o, a), last);
      }
    }
  }

  lemma {:induction false} NoAnswersMeansNoVictim(events: seq<GameEvent>)
    ensures Answers(events) == 0 <==> FirstAnswer(events) == |events|
  {
    if events != [] {
      var earlier := events[..|events| - 1];
      NoAnswersMeansNoVictim(earlier);
      if FirstAnswer(earlier) < |earlier| {
        assert events[FirstAnswer(earlier)].kind == Answer;
      } else {
        assert forall j :: 0 <= j < |earlier| ==> events[j] == earlier[j] && events[j].kind != Answer;
      }
    }
  }

  /** The victim search is settled by the first part that holds an answer. */
  lemma EvictPrefix(events: seq<GameEvent>, event: GameEvent)
    requires Answers(events) > 0
    ensures Evict(events + [event]) == Evict(events) + [event]
  {
    NoAnswersMeansNoVictim(events);
    var i := FirstAnswer(events);
    FirstAnswerIs(events + [event], i);
  }

  /** The selection with its only answer at the end: eviction takes that one. */
  lemma EvictLast(shown: seq<GameEvent>, last: GameEvent)
    requires Answers(shown) == 0 && last.kind == Answer
    ensures Evict(shown + [last]) == shown
  {
    NoAnswersMeansNoVictim(shown);
    FirstAnswerIs(shown + [last], |shown|);
  }

  /** Evicting from a selection that shows answers takes its oldest answer. */
  lemma {:induction false} EvictAnswer(history: seq<GameEvent>, others: nat, answers: nat)
    requires 0 < answers <= Answers(history)
    ensures Latest(history, others, answers) != []
    ensures Evict(Latest(history, others, answers)) == Latest(history, others, answers - 1)
  {
    var earlier, last := history[..|history| - 1], history[|history| - 1];
    assert history == earlier + [last];
    if last.kind == Answer {
      LatestLength(earlier, others, answers - 1);
      if answers > 1 {
        EvictAnswer(earlier, others, answers - 1);
        EvictPrefix(Latest(earlier, others, answers - 1), last);
      } else {
        EvictLast(Latest(earlier, others, 0), last);
      }
    } else if others > 0 {
      EvictAnswer(earlier, others - 1, answers);
      LatestLength(earlier, others - 1, answers);
      EvictPrefix(Latest(earlier, others - 1, answers), last);
    } else {
      EvictAnswer(earlier, 0, answers);
    }
  }

  /** Without answers the oldest event is at the front. */
  lemma {:induction false} DropOldest(history: seq<GameEvent>, others: nat)
    requires 0 < others <= Others(history)
    ensures Latest(history, others, 0) != []
    ensures Latest(history, others, 0)[1..] == Latest(history, others - 1, 0)
  {
    LatestLength(history, others, 0);
    var earlier, last := history[..|history| - 1], history[|history| - 1];
    if last.kind == Answer || others > 1 {
      var o := if last.kind == Answer then others else others - 1;
      DropOldest(earlier, o);
      LatestLength(earlier, o, 0);
    } else {
      LatestLength(earlier, 0, 0);
    }
  }

  /** How many non-answers, and how many answers, the window has room for. */
  function OtherRoom(history: seq<GameEvent>): nat {
    Min(EVENT_WINDOW, Others(history))
  }

  function AnswerRoom(history: seq<GameEvent>): nat {
    Min(Answers(history), EVENT_WINDOW - OtherRoom(history))
  }

  lemma AppendCounts(history: seq<GameEvent>, event: GameEvent)
    ensures Answers(history + [event]) == Answers(history) + if event.kind == Answer then 1 else 0
  {
    assert (history + [event])[..|history|] == history;
  }

  lemma LatestAppend(history: seq<GameEvent>, event: GameEvent, others: nat, answers: nat)
    ensures event.kind == Answer && answers > 0 ==>
      Latest(history + [event], others, answers) == Latest(history, others, answers - 1) + [event]
    ensures event.kind != Answer && others > 0 ==>
      Latest(history + [event], others, answers) == Latest(history, others - 1, answers) + [event]
    ensures event.kind == Answer ==> Latest(history + [event], others, 0) == Latest(history, others, 0)
  {
    assert (history + [event])[..|history|] == history;
  }

  lemma PushFull(window: seq<GameEvent>, event: GameEvent)
    requires |window| == EVENT_WINDOW
    ensures Push(window, event) == Evict(window + [event])
  {
    assert Trim(Evict(window + [event])) == Evict(window + [event]);
  }

  lemma PushFits(window: seq<GameEvent>, event: GameEvent)
    requires |window| < EVENT_WINDOW
    ensures Push(window, event) == window + [event]
  {
  }

  lemma EvictOldest(window: seq<GameEvent>, event: GameEvent)
    requires window != [] && Answers(window) == 0 && event.kind != Answer
    ensures Evict(window + [event]) == window[1..] + [event]
  {
    AppendCounts(window, event);
    NoAnswersMeansNoVictim(window + [event]);
  }

  /** A push into a full selection displaces its oldest answer. */
  lemma PushOverAnswer(history: seq<GameEvent>, others: nat, answers: nat, event: GameEvent)
    requires 0 < answers <= Answers(history)
    requires |Latest(history, others, answers)| == EVENT_WINDOW
    ensures Push(Latest(history, others, answers), event) == Latest(history, others, answers - 1) + [event]
  {
    LatestLength(history, others, answers);
    PushFull(Latest(history, others, answers), event);
    EvictPrefix(Latest(history, others, answers), event);
    EvictAnswer(history, others, answers);
  }

  /** A push into a full selection without answers displaces an arriving
    answer at once, and otherwise the oldest event.
  */
  lemma PushOverOthers(history: seq<GameEvent>, others: nat, event: GameEvent)
    requires 0 < others <= Others(history)
    requires |Latest(history, others, 0)| == EVENT_WINDOW
    ensures Push(Latest(history, others, 0), event)
         == if event.kind == Answer then Latest(history, others, 0) else Latest(history, others - 1, 0) + [event]
  {
    var window := Latest(history, others, 0);
    LatestLength(history, others, 0);
    PushFull(window, event);
    if event.kind == Answer {
      EvictLast(window, event);
    } else {
      EvictOldest(window, event);
      DropOldest(history, others);
    }
  }

  /** How a selection of `o` non-answers and `a` answers moves on a push. */
  predicate RoomsMove(kind: EventKind, o: nat, a: nat, o': nat, a': nat) {
    if o + a < EVENT_WINDOW then
      if kind == Answer then o' == o && a' == a + 1 else o' == o + 1 && a' == a
    else if a > 0 then
      if kind == Answer then o' == o && a' == a else o' == o + 1 && a' == a - 1
    else
      o' == o && a' == 0
  }

  lemma RoomsAppend(history: seq<GameEvent>, event: GameEvent)
    ensures RoomsMove(event.kind, OtherRoom(history), AnswerRoom(history),
                      OtherRoom(history + [event]), AnswerRoom(history + [event]))
  {
    AppendCounts(history, event);
  }

  /** One push on a selection: the event fits, or it displaces an answer, or
    it meets a window full of non-answers.
  */
  lemma PushSelection(history: seq<GameEvent>, event: GameEvent, o: nat, a: nat, o': nat, a': nat)
    requires o <= Others(history) && a <= Answers(history) && o + a <= EVENT_WINDOW
    requires RoomsMove(event.kind, o, a, o', a')
    ensures Push(Latest(history, o, a), event) == Latest(history + [event], o', a')
  {
    LatestLength(history, o, a);
    if o + a < EVENT_WINDOW {
      PushFits(Latest(history, o, a), event);
    } else if a > 0 {
      PushOverAnswer(history, o, a, event);
    } else {
      PushOverOthers(history, o, event);
    }
    SelectionAppends(history, event, o, a, o', a', Push(Latest(history, o, a), event));
  }

  lemma SelectionAppends(history: seq<GameEvent>, event: GameEvent, o: nat, a: nat, o': nat, a': nat, pushed: seq<GameEvent>)
    requires RoomsMove(event.kind, o, a, o', a')
    requires o + a < EVENT_WINDOW ==> pushed == Latest(history, o, a) + [event]
    requires o + a >= EVENT_WINDOW && a > 0 ==> pushed == Latest(history, o, a - 1) + [event]
    requires o + a >= EVENT_WINDOW && a == 0 ==>
      o > 0 && pushed == if event.kind == Answer then Latest(history, o, 0) else Latest(history, o - 1, 0) + [event]
    ensures pushed == Latest(history + [event], o', a')
  {
    LatestAppend(history, event, o', a');
  }

  lemma {:induction false} FirstAnswerIs(events: seq<GameEvent>, i: nat)
    requires i < |events| && events[i].kind == Answer
    requires forall j :: 0 <= j < i ==> events[j].kind != Answer
    ensures FirstAnswer(events) == i
  {
    var f := FirstAnswer(events);
    assert !(i < f);
  }

  /** After any history the window is: the last min(24, n) of its n
    non-answers, and of its answers the last that still fit beside them.
  */
  lemma {:induction false} ClosedForm(history: seq<GameEvent>)
    ensures Window(history) == Latest(history, OtherRoom(history), AnswerRoom(history))
  {
    if history != [] {
      var earlier := history[..|history| - 1];
      ClosedForm(earlier);
      var last := history[|history| - 1];
      assert earlier + [last] == history;
      RoomsAppend(earlier, last);
      PushSelection(earlier, last, OtherRoom(earlier), AnswerRoom(earlier), OtherRoom(history), AnswerRoom(history));
    }
  }

  /** No non-answer is lost until 24 newer non-answers exist, however many
    answers arrive.
  */
  lemma {:induction false} AnswersNeverEvictTheStory(history: seq<GameEvent>, i: nat)
    requires i < |history| && history[i].kind != Answer
    requires Others(history[i + 1..]) < EVENT_WINDOW
    ensures history[i] in Window(history)
  {
    ClosedForm(history);
    SplitOthers(history, i);
    LatestHolds(history, OtherRoom(history), AnswerRoom(history), i);
  }

  lemma SliceInit(history: seq<GameEvent>, i: nat)
    requires i < |history|
    ensures history[i..][..|history| - i - 1] == history[..|history| - 1][i..]
    ensures history[i..][|history| - i - 1] == history[|history| - 1]
  {
  }

  lemma {:induction false} SplitOthers(history: seq<GameEvent>, i: nat)
    requires i < |history|
    ensures Others(history) == Others(history[..i + 1]) + Others(history[i + 1..])
    ensures Answers(history) == Answers(history[..i + 1]) + Answers(history[i + 1..])
    ensures Answers(history[..i + 1]) == Answers(history[..i]) + if history[i].kind == Answer then 1 else 0
    decreases |history|
  {
    assert history[..i + 1][..i] == history[..i];
    if i + 1 < |history| {
      var earlier := history[..|history| - 1];
      SplitOthers(earlier, i);
      assert earlier[..i + 1] == history[..i + 1];
      SliceInit(history, i + 1);
    } else {
      assert history[..i + 1] == history;
    }
  }

  lemma {:induction false} LatestHolds(history: seq<GameEvent>, others: nat, answers: nat, i: nat)
    requires i < |history| && history[i].kind != Answer
    requires Others(history[i + 1..]) < others
    ensures history[i] in Latest(history, others, answers)
  {
    var earlier, last := history[..|history| - 1], history[|history| - 1];
    if i + 1 < |history| {
      SliceInit(history, i + 1);
      var o := if last.kind == Answer then others else others - 1;
      var a := if last.kind == Answer && answers > 0 then answers - 1 else answers;
      LatestHolds(earlier, o, a, i);
    }
  }
}
