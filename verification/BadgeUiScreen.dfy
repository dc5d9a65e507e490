/** What the badge shows, and what it still has queued, told from the requests
  sent to its UI thread and the turns that followed.
*/
module BadgeUiScreen {
  import opened Wrappers
  import opened Contract
  import opened BadgeInput
  import opened BadgeUi
  import opened BadgeUiRuns

  // ---------- requests ----------

  /** The requests sent so far. */
  function Sent(events: seq<Event>): seq<UiRequest> {
    if events == [] then []
    else
      var e := events[|events| - 1];
      Sent(events[..|events| - 1]) + if e.Send? then [e.request] else []
  }

  /** How many of them were applied. */
  function AppliedSoFar(events: seq<Event>): (n: nat)
    ensures n <= |Sent(events)|
  {
    if events == [] then 0
    else
      var earlier := events[..|events| - 1];
      var n := AppliedSoFar(earlier);
      if events[|events| - 1].Receive? && n < |Sent(earlier)| then n + 1 else n
  }

  /** Requests are applied in the order they were sent, none is lost. */
  lemma {:induction false} InboxIsFifo(events: seq<Event>)
    ensures Run(events).inbox == Sent(events)[AppliedSoFar(events)..]
  {
    if events != [] {
      InboxIsFifo(events[..|events| - 1]);
    }
  }

  /** Event `i` applies this request. */
  predicate AppliesAt(events: seq<Event>, i: nat, request: UiRequest) {
    && i < |events| && events[i].Receive?
    && AppliedSoFar(events[..i]) < |Sent(events[..i])| && Sent(events[..i])[AppliedSoFar(events[..i])] == request
  }

  /** The next event applies this request. */
  predicate Applies(events: seq<Event>, e: Event, request: UiRequest) {
    e.Receive? && AppliedSoFar(events) < |Sent(events)| && Sent(events)[AppliedSoFar(events)] == request
  }

  lemma AppliesGrows(events: seq<Event>, e: Event, i: nat, request: UiRequest)
    ensures AppliesAt(events + [e], i, request)
       <==> AppliesAt(events, i, request) || (i == |events| && Applies(events, e, request))
  {
    assert i <= |events| ==> (events + [e])[..i] == events[..i];
    assert events[..|events|] == events;
  }

  lemma StepApplies(events: seq<Event>, e: Event)
    ensures var l := Run(events);
      && Run(events + [e]) == BadgeUiRuns.Step(l, e, |events|)
      && (e.Receive? && l.inbox != [] ==> Applies(events, e, l.inbox[0]))
      && (forall request :: Applies(events, e, request) ==> e.Receive? && l.inbox != [] && l.inbox[0] == request)
  {
    assert (events + [e])[..|events|] == events;
    InboxIsFifo(events);
  }

  // ---------- the screen ----------

  /** Requests that put something else in a question's place. */
  predicate LeavesQuestion(request: UiRequest) {
    request.ShowStatus? || request.ShowWaiting? || request.ShowFeedback? || request.ShowCrashed? || request.ShowRecovered?
  }

  predicate ChangesScreen(request: UiRequest) {
    request.ShowQuestion? || LeavesQuestion(request)
  }

  /** The question applied at `o` was not replaced since. */
  ghost predicate StillShown(events: seq<Event>, o: nat, task: QuestionTask) {
    && AppliesAt(events, o, ShowQuestion(task))
    && forall j: nat, request :: o < j && AppliesAt(events, j, request) ==> !ChangesScreen(request)
  }

  lemma ShownGrows(events: seq<Event>, e: Event, o: nat, task: QuestionTask)
    ensures StillShown(events + [e], o, task) <==>
      if o < |events| then
        StillShown(events, o, task) && forall request :: Applies(events, e, request) ==> !ChangesScreen(request)
      else o == |events| && Applies(events, e, ShowQuestion(task))
  {
    forall j: nat, request ensures AppliesAt(events + [e], j, request)
      <==> AppliesAt(events, j, request) || (j == |events| && Applies(events, e, request))
    {
      AppliesGrows(events, e, j, request);
    }
    if o < |events| && StillShown(events + [e], o, task) {
      forall request | Applies(events, e, request) ensures !ChangesScreen(request) {
        assert AppliesAt(events + [e], |events|, request);
      }
      forall j: nat, request | o < j && AppliesAt(events, j, request) ensures !ChangesScreen(request) {
        assert AppliesAt(events + [e], j, request);
      }
    }
  }

  /** In every interleaving a question is on the screen exactly if it was
    applied and no other question, status, feedback, crash or recovery was
    applied after it; overlays and results leave it there.
  */
  lemma {:induction false} ScreenExactly(events: seq<Event>, task: QuestionTask)
    ensures Run(events).ui.screen == OnQuestion(task) <==> exists o: nat :: StillShown(events, o, task)
  {
    if events != [] {
      var earlier, e := events[..|events| - 1], events[|events| - 1];
      assert events == earlier + [e];
      ScreenExactly(earlier, task);
      StepApplies(earlier, e);
      forall o: nat ensures StillShown(events, o, task) <==>
        if o < |earlier| then
          StillShown(earlier, o, task) && forall request :: Applies(earlier, e, request) ==> !ChangesScreen(request)
        else o == |earlier| && Applies(earlier, e, ShowQuestion(task))
      {
        ShownGrows(earlier, e, o, task);
      }
      if Run(events).ui.screen == OnQuestion(task) {
        if Applies(earlier, e, ShowQuestion(task)) {
          assert StillShown(events, |earlier|, task);
        } else {
          var o: nat :| StillShown(earlier, o, task);
          assert StillShown(events, o, task);
        }
      }
    }
  }

  // ---------- the overlay ----------

  /** The power-up applied at `p` is the last one, and no turn saw its end. */
  ghost predicate StillOver(events: seq<Event>, p: nat, end: nat) {
    && AppliesAt(events, p, ShowPowerup) && events[p].now + 1_500 == end
    && (forall j: nat :: p < j ==> !AppliesAt(events, j, ShowPowerup))
    && (forall j :: p < j < |events| && events[j].Turn? ==> events[j].now < end)
  }

  lemma OverGrows(events: seq<Event>, e: Event, p: nat, end: nat)
    ensures StillOver(events + [e], p, end) <==>
      if p < |events| then
        StillOver(events, p, end) && !Applies(events, e, ShowPowerup) && (e.Turn? ==> e.now < end)
      else p == |events| && Applies(events, e, ShowPowerup) && e.now + 1_500 == end
  {
    var longer := events + [e];
    forall j: nat ensures AppliesAt(longer, j, ShowPowerup)
      <==> AppliesAt(events, j, ShowPowerup) || (j == |events| && Applies(events, e, ShowPowerup))
    {
      AppliesGrows(events, e, j, ShowPowerup);
    }
    assert longer[|events|] == e;
    assert forall j :: 0 <= j < |events| ==> longer[j] == events[j];
    if p < |events| {
      if StillOver(longer, p, end) {
        assert !AppliesAt(longer, |events|, ShowPowerup);
        forall j: nat | p < j ensures !AppliesAt(events, j, ShowPowerup) {
          assert !AppliesAt(longer, j, ShowPowerup);
        }
        forall j | p < j < |events| && events[j].Turn? ensures events[j].now < end {
          assert longer[j].Turn?;
        }
      }
    }
  }

  /** In every interleaving an overlay is up until a time exactly if the last
    power-up was applied 1.5 s before it and no turn came at or after it.
  */
  lemma {:induction false} OverlayExactly(events: seq<Event>, end: nat)
    ensures Run(events).ui.overlayUntil == Some(end) <==> exists p: nat :: StillOver(events, p, end)
  {
    if events != [] {
      var earlier, e := events[..|events| - 1], events[|events| - 1];
      assert events == earlier + [e];
      OverlayExactly(earlier, end);
      StepApplies(earlier, e);
      forall p: nat ensures StillOver(events, p, end) <==>
        if p < |earlier| then
          StillOver(earlier, p, end) && !Applies(earlier, e, ShowPowerup) && (e.Turn? ==> e.now < end)
        else p == |earlier| && Applies(earlier, e, ShowPowerup) && e.now + 1_500 == end
      {
        OverGrows(earlier, e, p, end);
      }
      if Run(events).ui.overlayUntil == Some(end) {
        if Applies(earlier, e, ShowPowerup) {
          assert StillOver(events, |earlier|, end);
        } else {
          var p: nat :| StillOver(earlier, p, end);
          assert StillOver(events, p, end);
        }
      }
    }
  }

  // ---------- the queue ----------

  /** The choices recognised since the last question was applied, taken or not. */
  function Recognised(events: seq<Event>): seq<Choice> {
    if events == [] then []
    else
      var earlier, e := events[..|events| - 1], events[|events| - 1];
      if e.Receive? && Run(earlier).inbox != [] && Run(earlier).inbox[0].ShowQuestion? then []
      else if e.Turn? && ChoiceOf(Run(earlier).ui, e.buttons, e.now).Some? then
        Recognised(earlier) + [ChoiceOf(Run(earlier).ui, e.buttons, e.now).value]
      else Recognised(earlier)
  }

  /** Whether the Temporal side took anything since then. */
  predicate Disturbed(events: seq<Event>) {
    events != []
    && var earlier, e := events[..|events| - 1], events[|events| - 1];
       if e.Receive? && Run(earlier).inbox != [] && Run(earlier).inbox[0].ShowQuestion? then false
       else e.Take? || Disturbed(earlier)
  }

  predicate IsTail(queue: seq<Choice>, all: seq<Choice>) {
    |queue| <= |all| && queue == all[|all| - |queue|..]
  }

  lemma TailTaken(queue: seq<Choice>, all: seq<Choice>)
    requires IsTail(queue, all) && queue != []
    ensures IsTail(queue[1..], all)
  {
  }

  lemma TailGrows(queue: seq<Choice>, all: seq<Choice>, choice: Choice)
    requires IsTail(queue, all)
    ensures IsTail(queue + [choice], all + [choice])
  {
  }

  /** What an event does to the queue, but for a question that clears it. */
  lemma QueueChange(l: Logged, e: Event, index: nat)
    requires !(e.Receive? && l.inbox != [] && l.inbox[0].ShowQuestion?)
    ensures var queue, queue' := l.ui.choices, BadgeUiRuns.Step(l, e, index).ui.choices;
      if e.Turn? && ChoiceOf(l.ui, e.buttons, e.now).Some? then
        queue' == (if |queue| >= 8 then queue[1..] else queue) + [ChoiceOf(l.ui, e.buttons, e.now).value]
      else if e.Take? && queue != [] then queue' == queue[1..]
      else queue' == queue
  {
  }

  ghost predicate HoldsTheLatest(queue: seq<Choice>, all: seq<Choice>, disturbed: bool) {
    IsTail(queue, all) && |queue| <= 8 && (!disturbed ==> |queue| == if |all| <= 8 then |all| else 8)
  }

  lemma QueueStays(queue: seq<Choice>, all: seq<Choice>, disturbed: bool, added: Option<Choice>, taken: bool)
    requires HoldsTheLatest(queue, all, disturbed)
    ensures added.Some? ==>
      HoldsTheLatest((if |queue| >= 8 then queue[1..] else queue) + [added.value], all + [added.value], disturbed)
    ensures taken && queue != [] ==> HoldsTheLatest(queue[1..], all, true)
    ensures HoldsTheLatest(queue, all, disturbed || taken)
  {
    if added.Some? {
      if |queue| >= 8 {
        TailTaken(queue, all);
        TailGrows(queue[1..], all, added.value);
      } else {
        TailGrows(queue, all, added.value);
      }
    }
    if queue != [] {
      TailTaken(queue, all);
    }
  }

  lemma RecognisedStep(events: seq<Event>, e: Event)
    requires !(e.Receive? && Run(events).inbox != [] && Run(events).inbox[0].ShowQuestion?)
    ensures Recognised(events + [e])
         == Recognised(events) + (if e.Turn? && ChoiceOf(Run(events).ui, e.buttons, e.now).Some?
                                  then [ChoiceOf(Run(events).ui, e.buttons, e.now).value] else [])
    ensures Disturbed(events + [e]) == (e.Take? || Disturbed(events))
  {
    assert (events + [e])[..|events|] == events;
  }

  lemma QueueOpens(events: seq<Event>, e: Event)
    requires e.Receive? && Run(events).inbox != [] && Run(events).inbox[0].ShowQuestion?
    ensures Run(events + [e]).ui.choices == [] == Recognised(events + [e])
  {
    assert (events + [e])[..|events|] == events;
  }

  /** In every interleaving the queue holds the latest of the choices recognised
    on the question; while none was taken, all of them or the last eight.
  */
  lemma {:induction false} QueueIsTheLatest(events: seq<Event>)
    ensures HoldsTheLatest(Run(events).ui.choices, Recognised(events), Disturbed(events))
  {
    if events != [] {
      var earlier, e := events[..|events| - 1], events[|events| - 1];
      assert events == earlier + [e];
      QueueIsTheLatest(earlier);
      if e.Receive? && Run(earlier).inbox != [] && Run(earlier).inbox[0].ShowQuestion? {
        QueueOpens(earlier, e);
      } else {
        QueueGoesOn(earlier, e);
      }
    }
  }

  lemma QueueGoesOn(events: seq<Event>, e: Event)
    requires HoldsTheLatest(Run(events).ui.choices, Recognised(events), Disturbed(events))
    requires !(e.Receive? && Run(events).inbox != [] && Run(events).inbox[0].ShowQuestion?)
    ensures HoldsTheLatest(Run(events + [e]).ui.choices, Recognised(events + [e]), Disturbed(events + [e]))
  {
    var l := Run(events);
    assert Run(events + [e]) == BadgeUiRuns.Step(l, e, |events|) by {
      StepApplies(events, e);
    }
    var added := if e.Turn? then ChoiceOf(l.ui, e.buttons, e.now) else None;
    QueueChange(l, e, |events|);
    RecognisedStep(events, e);
    QueueStays(l.ui.choices, Recognised(events), Disturbed(events), added, e.Take?);
    assert Recognised(events) + [] == Recognised(events);
  }
}
