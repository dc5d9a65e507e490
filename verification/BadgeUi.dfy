/** The badge's UI thread (firmware/src/ui.rs): the screen in force, the
  power-up overlay, the queue of recognised choices and the sleep gesture.

  The class is the thread's own state; drawing, haptics and the power-down
  itself are device calls and left out. Its methods are proved against the
  functions beside it, and module BadgeUiRuns says what every run keeps.
*/
module BadgeUi {
  import opened Wrappers
  import opened Contract
  import opened BadgeInput

  const MAX_QUEUED_CHOICES: nat := 8
  const POWERUP_OVERLAY_MS: nat := 1_500
  const SLEEP_HOLD_MS: nat := 3_000

  datatype Screen = IdleScreen | OnQuestion(task: QuestionTask)

  datatype UiRequest =
    | ShowStatus | ShowWaiting | ShowQuestion(task: QuestionTask) | ShowFeedback | ShowCrashed
    | ShowRecovered | ShowResults | ShowResultPending | ShowPowerup

  /** `choices` and `answering` are shared with the Temporal side. */
  datatype UiState = UiState(
    screen: Screen, buttons: ButtonState, overlayUntil: Option<nat>, downSince: Option<nat>, choices: seq<Choice>,
    answering: bool)

  const BOOTED := UiState(IdleScreen, Idle, None, None, [], false)

  function Applied(ui: UiState, request: UiRequest, pins: Buttons, now: nat): UiState {
    match request
    case ShowQuestion(task) =>
      ui.(choices := [], buttons := if pins.Any() then SuppressedUntilRelease else Idle, screen := OnQuestion(task),
          answering := true)
    case ShowPowerup => ui.(overlayUntil := Some(now + POWERUP_OVERLAY_MS), answering := ui.screen.OnQuestion?)
    case ShowResults => if ui.screen.OnQuestion? then ui else ui.(answering := false)
    case ShowResultPending => if ui.screen.OnQuestion? then ui else ui.(answering := false)
    case _ => ui.(screen := IdleScreen, answering := false)
  }

  function OverlayExpired(ui: UiState, now: nat): UiState {
    if ui.overlayUntil.Some? && now >= ui.overlayUntil.value then ui.(overlayUntil := None) else ui
  }

  function Enqueued(choices: seq<Choice>, choice: Choice): seq<Choice> {
    (if |choices| >= MAX_QUEUED_CHOICES then choices[1..] else choices) + [choice]
  }

  function ButtonsAdvanced(ui: UiState, buttons: Buttons, now: nat): UiState {
    if ui.screen.IdleScreen? then ui.(buttons := Idle)
    else
      var a := Advance(ui.buttons, buttons, ui.overlayUntil.Some?, now, PANIC_HOLD_MS);
      ui.(buttons := a.state, choices := if a.choice.Some? then Enqueued(ui.choices, a.choice.value) else ui.choices)
  }

  /** A sample that counts towards sleep. */
  predicate SleepArmed(ui: UiState, buttons: Buttons) {
    ui.screen.IdleScreen? && ui.overlayUntil.None? && buttons.down
  }

  function DownSince(ui: UiState, buttons: Buttons, now: nat): Option<nat> {
    if !SleepArmed(ui, buttons) then None
    else if ui.downSince.Some? then ui.downSince else Some(now)
  }

  /** `clock` is the later reading the hold is measured with. */
  predicate Sleeps(ui: UiState, buttons: Buttons, now: nat, clock: nat) {
    var since := DownSince(ui, buttons, now);
    since.Some? && Elapsed(clock, since.value) >= SLEEP_HOLD_MS
  }

  /** One turn after the inbox is drained: overlay, buttons, sleep. */
  function AfterTurn(ui: UiState, buttons: Buttons, now: nat): UiState {
    var pressed := ButtonsAdvanced(OverlayExpired(ui, now), buttons, now);
    pressed.(downSince := DownSince(pressed, buttons, now))
  }

  class UiThread {
    var screen: Screen
    var buttons: ButtonState
    var overlayUntil: Option<nat>
    var downSince: Option<nat>
    var choices: seq<Choice>
    var answering: bool

    ghost function Value(): UiState
      reads this
    {
      UiState(screen, buttons, overlayUntil, downSince, choices, answering)
    }

    constructor ()
      ensures Value() == BOOTED
    {
      screen, buttons, overlayUntil, downSince, choices, answering := IdleScreen, Idle, None, None, [], false;
    }

    method Apply(request: UiRequest, pins: Buttons, now: nat)
      modifies this
      ensures Value() == Applied(old(Value()), request, pins, now)
    {
      match request {
        case ShowQuestion(task) =>
          choices := [];
          buttons := if pins.Any() then SuppressedUntilRelease else Idle;
          screen := OnQuestion(task);
        case ShowPowerup => overlayUntil := Some(now + POWERUP_OVERLAY_MS);
        case ShowResults => if screen.OnQuestion? { return; }
        case ShowResultPending => if screen.OnQuestion? { return; }
        case ShowStatus => screen := IdleScreen;
        case ShowWaiting => screen := IdleScreen;
        case ShowFeedback => screen := IdleScreen;
        case ShowCrashed => screen := IdleScreen;
        case ShowRecovered => screen := IdleScreen;
      }
      answering := screen.OnQuestion?;
    }

    method ExpireOverlay(now: nat)
      modifies this
      ensures Value() == OverlayExpired(old(Value()), now)
    {
      if overlayUntil.Some? && now >= overlayUntil.value { overlayUntil := None; }
    }

    method AdvanceButtons(sample: Buttons, now: nat)
      modifies this
      ensures Value() == ButtonsAdvanced(old(Value()), sample, now)
    {
      if screen.IdleScreen? {
        buttons := Idle;
        return;
      }
      var a := Advance(buttons, sample, overlayUntil.Some?, now, PANIC_HOLD_MS);
      buttons := a.state;
      if a.choice.Some? {
        if |choices| >= MAX_QUEUED_CHOICES { choices := choices[1..]; }
        choices := choices + [a.choice.value];
      }
    }

    method AdvanceSleep(sample: Buttons, now: nat, clock: nat) returns (sleeps: bool)
      modifies this
      ensures Value() == old(Value()).(downSince := DownSince(old(Value()), sample, now))
      ensures sleeps <==> Sleeps(old(Value()), sample, now, clock)
    {
      sleeps := false;
      if !screen.IdleScreen? || overlayUntil.Some? || !sample.down {
        downSince := None;
        return;
      }
      if downSince.None? { downSince := Some(now); }
      sleeps := Elapsed(clock, downSince.value) >= SLEEP_HOLD_MS;
    }

    /** The turn of `run` after its inbox is drained. */
    method Turn(sample: Buttons, now: nat, clock: nat) returns (sleeps: bool)
      modifies this
      ensures Value() == AfterTurn(old(Value()), sample, now)
      ensures sleeps <==> Sleeps(ButtonsAdvanced(OverlayExpired(old(Value()), now), sample, now), sample, now, clock)
    {
      ExpireOverlay(now);
      AdvanceButtons(sample, now);
      sleeps := AdvanceSleep(sample, now, clock);
    }

    /** The oldest choice still queued, if any, which leaves the queue. */
    method NextChoice() returns (choice: Option<Choice>)
      modifies this`choices
      ensures choice == if old(choices) == [] then None else Some(old(choices)[0])
      ensures choices == if old(choices) == [] then [] else old(choices)[1..]
    {
      if choices == [] { return None; }
      choice := Some(choices[0]);
      choices := choices[1..];
    }
  }
}

/** What every interleaving of requests, samples and takes keeps. */
module BadgeUiRuns {
  import opened Wrappers
  import opened Contract
  import opened BadgeInput
  import opened BadgeUi

  /** `Send` and `Take` come from the Temporal side at any moment; `Receive`
    applies the oldest request; `Turn` is one sample of the buttons.
  */
  datatype Event =
    | Send(request: UiRequest)
    | Receive(pins: Buttons, now: nat)
    | Turn(buttons: Buttons, now: nat, clock: nat)
    | Take

  /** `born` records at which event each queued choice was recognised; `asked`
    and `shown` the question last sent and last applied.
  */
  datatype Logged = Logged(ui: UiState, inbox: seq<UiRequest>, born: seq<nat>, asked: Option<QuestionTask>, shown: Option<QuestionTask>)

  function Step(l: Logged, e: Event, index: nat): Logged {
    match e
    case Send(request) =>
      l.(inbox := l.inbox + [request], asked := if request.ShowQuestion? then Some(request.task) else l.asked)
    case Receive(pins, now) =>
      if l.inbox == [] then l
      else if l.inbox[0].ShowQuestion? then
        l.(ui := Applied(l.ui, l.inbox[0], pins, now), inbox := l.inbox[1..], born := [], shown := Some(l.inbox[0].task))
      else l.(ui := Applied(l.ui, l.inbox[0], pins, now), inbox := l.inbox[1..])
    case Turn(buttons, now, _) =>
      var ui := AfterTurn(l.ui, buttons, now);
      l.(ui := ui, born := if Recognises(l.ui, buttons, now) then (if |l.born| >= MAX_QUEUED_CHOICES then l.born[1..] else l.born) + [index] else l.born)
    case Take =>
      if l.ui.choices == [] then l
      else l.(ui := l.ui.(choices := l.ui.choices[1..]), born := if l.born == [] then [] else l.born[1..])
  }

  /** The choice this sample adds to the queue, if any. */
  function ChoiceOf(ui: UiState, buttons: Buttons, now: nat): Option<Choice> {
    if ui.screen.IdleScreen? then None
    else Advance(ui.buttons, buttons, OverlayExpired(ui, now).overlayUntil.Some?, now, PANIC_HOLD_MS).choice
  }

  predicate Recognises(ui: UiState, buttons: Buttons, now: nat) {
    ChoiceOf(ui, buttons, now).Some?
  }

  function Run(events: seq<Event>): Logged {
    if events == [] then Logged(BOOTED, [], [], None, None)
    else Step(Run(events[..|events| - 1]), events[|events| - 1], |events| - 1)
  }

  /** Event `i` applies a question. */
  predicate Opens(events: seq<Event>, i: nat)
    requires i < |events|
  {
    events[i].Receive? && Run(events[..i]).inbox != [] && Run(events[..i]).inbox[0].ShowQuestion?
  }

  /** Event `i` saw every button up, with no overlay if it was a turn. */
  predicate SawAllUp(events: seq<Event>, i: nat)
    requires i < |events|
  {
    if events[i].Turn? then !events[i].buttons.Any() && OverlayExpired(Run(events[..i]).ui, events[i].now).overlayUntil.None?
    else Opens(events, i) && !events[i].pins.Any()
  }

  /** Event `i` recognised `choice`, with no overlay in force. */
  predicate RecognisedAt(events: seq<Event>, i: nat, choice: Choice)
    requires i < |events|
  {
    && events[i].Turn?
    && ChoiceOf(Run(events[..i]).ui, events[i].buttons, events[i].now) == Some(choice)
    && OverlayExpired(Run(events[..i]).ui, events[i].now).overlayUntil.None?
  }

  predicate LastOpened(events: seq<Event>, o: nat)
    requires o < |events|
  {
    Opens(events, o) && forall j :: o < j < |events| ==> !Opens(events, j)
  }

  function TaskOpened(events: seq<Event>, o: nat): QuestionTask
    requires o < |events| && Opens(events, o)
  {
    Run(events[..o]).inbox[0].task
  }

  /** Since the last question was applied, at `o`, every button was up at `u`. */
  predicate ReleasedSince(events: seq<Event>, o: nat, u: nat) {
    o <= u < |events| && LastOpened(events, o) && SawAllUp(events, u)
  }

  /** Where a choice comes from: recognised at `i` on the question applied
    last, after every button had been up under that question.
  */
  ghost predicate Provenance(events: seq<Event>, i: nat, choice: Choice) {
    && i < |events|
    && RecognisedAt(events, i, choice)
    && exists o, u :: 0 <= o <= u < i && ReleasedSince(events, o, u)
         && Run(events[..i]).ui.screen == OnQuestion(TaskOpened(events, o))
  }

  /** The screen shows the question applied last, and a machine that is not
    suppressed has seen every button up since.
  */
  ghost predicate ScreenCurrent(events: seq<Event>) {
    var l := Run(events);
    l.ui.screen.OnQuestion? ==>
      exists o :: 0 <= o < |events| && LastOpened(events, o) && l.ui.screen.task == TaskOpened(events, o)
        && (l.ui.buttons == SuppressedUntilRelease || exists u :: ReleasedSince(events, o, u))
  }

  ghost predicate Accounted(events: seq<Event>, born: seq<nat>, choices: seq<Choice>) {
    && |born| == |choices| <= MAX_QUEUED_CHOICES
    && forall k :: 0 <= k < |born| ==> Provenance(events, born[k], choices[k])
  }

  ghost predicate QueueSound(events: seq<Event>) {
    Accounted(events, Run(events).born, Run(events).ui.choices)
  }

  /** Facts about past events do not change as the run goes on. */
  lemma PastStays(events: seq<Event>, e: Event)
    ensures var longer := events + [e];
      && Run(longer) == Step(Run(events), e, |events|)
      && (forall i :: 0 <= i <= |events| ==> longer[..i] == events[..i])
      && (forall i :: 0 <= i < |events| ==> longer[i] == events[i])
      && (forall i :: 0 <= i < |events| ==> Opens(longer, i) == Opens(events, i))
      && (forall i :: 0 <= i < |events| ==> SawAllUp(longer, i) == SawAllUp(events, i))
  {
    var longer := events + [e];
    assert longer[..|events|] == events;
    forall i | 0 <= i <= |events| ensures longer[..i] == events[..i] {
    }
  }

  lemma ReleasedStays(events: seq<Event>, e: Event, o: nat, u: nat)
    requires ReleasedSince(events, o, u) && !Opens(events + [e], |events|)
    ensures ReleasedSince(events + [e], o, u) && TaskOpened(events + [e], o) == TaskOpened(events, o)
  {
    PastStays(events, e);
  }

  lemma ProvenanceStays(events: seq<Event>, e: Event, i: nat, choice: Choice)
    requires Provenance(events, i, choice) && !Opens(events + [e], |events|)
    ensures Provenance(events + [e], i, choice)
  {
    var o, u :| 0 <= o <= u < i && ReleasedSince(events, o, u) && Run(events[..i]).ui.screen == OnQuestion(TaskOpened(events, o));
    PastStays(events, e);
    ReleasedStays(events, e, o, u);
  }

  lemma LastOpenedStays(events: seq<Event>, e: Event, o: nat)
    requires o < |events| && LastOpened(events, o) && !Opens(events + [e], |events|)
    ensures LastOpened(events + [e], o) && TaskOpened(events + [e], o) == TaskOpened(events, o)
  {
    PastStays(events, e);
  }

  /** Opening a question makes it current. */
  lemma OpeningIsCurrent(events: seq<Event>, e: Event)
    requires Opens(events + [e], |events|)
    ensures ScreenCurrent(events + [e]) && QueueSound(events + [e])
  {
    var longer := events + [e];
    PastStays(events, e);
    assert LastOpened(longer, |events|);
    if !e.pins.Any() {
      assert ReleasedSince(longer, |events|, |events|);
    }
  }

  /** A step that opens no question keeps a question's screen, and frees the
    button machine only at a sample with every button up.
  */
  lemma ScreenStep(l: Logged, e: Event, index: nat)
    requires !(e.Receive? && l.inbox != [] && l.inbox[0].ShowQuestion?)
    ensures var ui := Step(l, e, index).ui;
      ui.screen.OnQuestion? ==>
        && ui.screen == l.ui.screen
        && (l.ui.buttons == SuppressedUntilRelease && ui.buttons != SuppressedUntilRelease ==>
              e.Turn? && !e.buttons.Any() && OverlayExpired(l.ui, e.now).overlayUntil.None?)
  {
  }

  lemma ScreenStaysCurrent(events: seq<Event>, e: Event)
    requires ScreenCurrent(events) && !Opens(events + [e], |events|)
    ensures ScreenCurrent(events + [e])
  {
    var longer, l := events + [e], Run(events);
    PastStays(events, e);
    ScreenStep(l, e, |events|);
    if Run(longer).ui.screen.OnQuestion? {
      var o :| 0 <= o < |events| && LastOpened(events, o) && l.ui.screen.task == TaskOpened(events, o)
        && (l.ui.buttons == SuppressedUntilRelease || exists u :: ReleasedSince(events, o, u));
      LastOpenedStays(events, e, o);
      if u :| ReleasedSince(events, o, u) {
        ReleasedStays(events, e, o, u);
      } else if Run(longer).ui.buttons != SuppressedUntilRelease {
        assert SawAllUp(longer, |events|);
        assert ReleasedSince(longer, o, |events|);
      }
    }
  }

  /** A recognised choice has its provenance. */
  lemma NewChoiceSound(events: seq<Event>, e: Event)
    requires ScreenCurrent(events) && e.Turn? && Recognises(Run(events).ui, e.buttons, e.now)
    ensures Provenance(events + [e], |events|, ChoiceOf(Run(events).ui, e.buttons, e.now).value)
  {
    var longer, l := events + [e], Run(events);
    PastStays(events, e);
    var o :| 0 <= o < |events| && LastOpened(events, o) && l.ui.screen.task == TaskOpened(events, o)
      && (l.ui.buttons == SuppressedUntilRelease || exists u :: ReleasedSince(events, o, u));
    var u :| ReleasedSince(events, o, u);
    ReleasedStays(events, e, o, u);
    assert longer[..|events|] == events;
  }

  /** How many of the oldest choices a step takes off the queue. */
  function Drops(l: Logged, e: Event): nat {
    if e.Take? || (e.Turn? && Recognises(l.ui, e.buttons, e.now) && |l.ui.choices| >= MAX_QUEUED_CHOICES) then
      Min(1, |l.ui.choices|)
    else 0
  }

  lemma QueueStep(l: Logged, e: Event, index: nat)
    requires |l.born| == |l.ui.choices| <= MAX_QUEUED_CHOICES
    requires !(e.Receive? && l.inbox != [] && l.inbox[0].ShowQuestion?)
    ensures var next, d, added := Step(l, e, index), Drops(l, e), Added(l, e);
      && d <= |l.born|
      && (added.Some? ==> |l.born| - d < MAX_QUEUED_CHOICES)
      && next.born == l.born[d..] + (if added.Some? then [index] else [])
      && next.ui.choices == l.ui.choices[d..] + (if added.Some? then [added.value] else [])
  {
  }

  function Added(l: Logged, e: Event): Option<Choice> {
    if e.Turn? then ChoiceOf(l.ui, e.buttons, e.now) else None
  }

  /** A queue made of survivors and perhaps a newcomer is accounted for. */
  lemma QueueOf(events: seq<Event>, e: Event, born: seq<nat>, choices: seq<Choice>, d: nat, added: Option<Choice>)
    requires !Opens(events + [e], |events|) && Accounted(events, born, choices) && d <= |born|
    requires added.Some? ==> |born| - d < MAX_QUEUED_CHOICES && Provenance(events + [e], |events|, added.value)
    ensures Accounted(events + [e], born[d..] + (if added.Some? then [|events|] else []),
              choices[d..] + (if added.Some? then [added.value] else []))
  {
    forall k | 0 <= k < |born| ensures Provenance(events + [e], born[k], choices[k]) {
      ProvenanceStays(events, e, born[k], choices[k]);
    }
  }

  lemma QueueStaysSound(events: seq<Event>, e: Event)
    requires ScreenCurrent(events) && QueueSound(events) && !Opens(events + [e], |events|)
    ensures QueueSound(events + [e])
  {
    var l, next := Run(events), Run(events + [e]);
    assert next == Step(l, e, |events|) && !(e.Receive? && l.inbox != [] && l.inbox[0].ShowQuestion?) by {
      PastStays(events, e);
    }
    var d, added := Drops(l, e), Added(l, e);
    QueueStep(l, e, |events|);
    if added.Some? {
      NewChoiceSound(events, e);
    }
    QueueOf(events, e, l.born, l.ui.choices, d, added);
  }

  /** In every interleaving the queue holds at most eight choices, each
    recognised under the question applied last, with no overlay, after every
    button had been up under that question.
  */
  lemma {:induction false} QueuedChoicesAreCurrent(events: seq<Event>)
    ensures ScreenCurrent(events) && QueueSound(events)
  {
    if events != [] {
      var earlier, e := events[..|events| - 1], events[|events| - 1];
      assert events == earlier + [e];
      QueuedChoicesAreCurrent(earlier);
      if Opens(earlier + [e], |earlier|) {
        OpeningIsCurrent(earlier, e);
      } else {
        ScreenStaysCurrent(earlier, e);
        QueueStaysSound(earlier, e);
      }
    }
  }

  // ---------- which question a taken choice answers ----------

  /** The question the last request in the inbox asks for. */
  function LastAsked(inbox: seq<UiRequest>): Option<QuestionTask> {
    if inbox == [] then None
    else if inbox[|inbox| - 1].ShowQuestion? then Some(inbox[|inbox| - 1].task)
    else LastAsked(inbox[..|inbox| - 1])
  }

  lemma {:induction false} LastAskedTail(inbox: seq<UiRequest>)
    requires inbox != []
    ensures LastAsked(inbox) == if LastAsked(inbox[1..]).Some? then LastAsked(inbox[1..])
                                else if inbox[0].ShowQuestion? then Some(inbox[0].task) else None
  {
    if |inbox| > 1 {
      LastAskedTail(inbox[..|inbox| - 1]);
      assert inbox[1..][..|inbox| - 2] == inbox[..|inbox| - 1][1..];
    }
  }

  lemma {:induction false} AskedIsOpenedOrWaiting(events: seq<Event>)
    ensures var l := Run(events);
      l.asked == if LastAsked(l.inbox).Some? then LastAsked(l.inbox) else l.shown
  {
    if events != [] {
      var l, e := Run(events[..|events| - 1]), events[|events| - 1];
      AskedIsOpenedOrWaiting(events[..|events| - 1]);
      if e.Send? {
        assert (l.inbox + [e.request])[..|l.inbox|] == l.inbox;
      } else if e.Receive? && l.inbox != [] {
        LastAskedTail(l.inbox);
      }
    }
  }

  lemma {:induction false} OpenedIsLast(events: seq<Event>, o: nat)
    requires o < |events| && LastOpened(events, o)
    ensures Run(events).shown == Some(TaskOpened(events, o))
  {
    var earlier, e := events[..|events| - 1], events[|events| - 1];
    assert events == earlier + [e];
    PastStays(earlier, e);
    if o < |earlier| {
      OpenedIsLast(earlier, o);
      assert !Opens(events, |earlier|);
      assert events[..|earlier|] == earlier;
    } else {
      assert events[..o] == earlier;
    }
  }

  /** Which question was on the screen when the oldest queued choice was made. */
  function OldestChoiceScreen(events: seq<Event>): Screen
    requires Run(events).born != [] && Run(events).born[0] < |events|
  {
    Run(events[..Run(events).born[0]]).ui.screen
  }

  /** The choice a take would return was made on the question last asked for
    exactly when no other question is still waiting to be applied.
  */
  lemma TakenChoiceAnswersTheAsked(events: seq<Event>)
    requires Run(events).ui.choices != []
    ensures var l := Run(events);
      && l.born != [] && l.born[0] < |events| && l.asked.Some?
      && (OldestChoiceScreen(events) == OnQuestion(l.asked.value)
          <==> LastAsked(l.inbox).None? || LastAsked(l.inbox) == l.shown)
  {
    var l := Run(events);
    QueuedChoicesAreCurrent(events);
    AskedIsOpenedOrWaiting(events);
    var i := l.born[0];
    assert Provenance(events, i, l.ui.choices[0]);
    var o, u :| 0 <= o <= u < i && ReleasedSince(events, o, u) && Run(events[..i]).ui.screen == OnQuestion(TaskOpened(events, o));
    OpenedIsLast(events, o);
  }

  /** And it can happen: a press left over from one question is taken for the
    next when the take comes before the UI thread applies it.
  */
  lemma LeftoverPressIsTaken(a: QuestionTask, b: QuestionTask) returns (events: seq<Event>)
    requires a != b
    ensures |events| == 4
    ensures var l := Run(events);
      l.asked == Some(b) && l.ui.choices == [Choice.Answer(0)] && l.born == [2] && OldestChoiceScreen(events) == OnQuestion(a)
  {
    var e0 := [] + [Send(ShowQuestion(a))];
    var e1 := e0 + [Receive(RELEASED, 0)];
    var e2 := e1 + [Turn(RELEASED.(up := true), 0, 0)];
    events := e2 + [Send(ShowQuestion(b))];
    PastStays([], Send(ShowQuestion(a)));
    PastStays(e0, Receive(RELEASED, 0));
    PastStays(e1, Turn(RELEASED.(up := true), 0, 0));
    PastStays(e2, Send(ShowQuestion(b)));
    assert events[..2] == e1;
  }

  /** In every interleaving the shared flag tells whether a question is on the
    screen.
  */
  lemma {:induction false} AnsweringIsTheScreen(events: seq<Event>)
    ensures Run(events).ui.answering <==> Run(events).ui.screen.OnQuestion?
  {
    if events != [] {
      AnsweringIsTheScreen(events[..|events| - 1]);
    }
  }

  // ---------- sleep ----------

  predicate HeldIdle(events: seq<Event>, i: nat)
    requires i < |events|
  {
    events[i].Turn? && SleepArmed(OverlayExpired(Run(events[..i]).ui, events[i].now), events[i].buttons)
  }

  predicate SleepsAt(events: seq<Event>, i: nat)
    requires i < |events|
  {
    && events[i].Turn?
    && var ui := ButtonsAdvanced(OverlayExpired(Run(events[..i]).ui, events[i].now), events[i].buttons, events[i].now);
       Sleeps(ui, events[i].buttons, events[i].now, events[i].clock)
  }

  /** The turn that began the idle DOWN hold still unbroken before event `n`. */
  function HoldBegan(events: seq<Event>, n: nat): (m: Option<nat>)
    requires n <= |events|
    ensures m.Some? ==> m.value < n && HeldIdle(events, m.value)
    ensures m.Some? ==> forall i :: m.value <= i < n && events[i].Turn? ==> HeldIdle(events, i)
  {
    if n == 0 then None
    else if !events[n - 1].Turn? then HoldBegan(events, n - 1)
    else if !HeldIdle(events, n - 1) then None
    else if HoldBegan(events, n - 1).Some? then HoldBegan(events, n - 1)
    else Some(n - 1)
  }

  lemma DownSinceStep(l: Logged, e: Event, index: nat)
    ensures Step(l, e, index).ui.downSince ==
      if !e.Turn? then l.ui.downSince
      else if !SleepArmed(OverlayExpired(l.ui, e.now), e.buttons) then None
      else if l.ui.downSince.Some? then l.ui.downSince
      else Some(e.now)
  {
  }

  /** The thread's timestamp is that turn's. */
  lemma {:induction false} DownSinceIsHold(events: seq<Event>, n: nat)
    requires n <= |events|
    ensures Run(events[..n]).ui.downSince
         == if HoldBegan(events, n).Some? then Some(events[HoldBegan(events, n).value].now) else None
  {
    if n > 0 {
      DownSinceIsHold(events, n - 1);
      DownSinceStep(Run(events[..n - 1]), events[n - 1], n - 1);
      assert events[..n][..n - 1] == events[..n - 1];
    }
  }

  predicate TurnsInOrder(events: seq<Event>) {
    && (forall i, j :: 0 <= i <= j < |events| && events[i].Turn? && events[j].Turn? ==> events[i].now <= events[j].now)
    && (forall i :: 0 <= i < |events| && events[i].Turn? ==> events[i].now <= events[i].clock)
  }

  /** An idle DOWN hold that includes turn `m` goes back at least to it. */
  lemma {:induction false} HoldReachesBack(events: seq<Event>, m: nat, n: nat)
    requires m < n <= |events| && events[m].Turn?
    requires forall i :: m <= i < n && events[i].Turn? ==> HeldIdle(events, i)
    ensures HoldBegan(events, n).Some? && HoldBegan(events, n).value <= m
  {
    if m < n - 1 {
      HoldReachesBack(events, m, n - 1);
    }
  }

  /** Deep sleep is entered exactly at a turn that ends at least three seconds
    of turns that were all idle, overlay-free and with DOWN held.
  */
  lemma SleepsExactly(events: seq<Event>, n: nat)
    requires n < |events| && TurnsInOrder(events)
    ensures SleepsAt(events, n) <==>
      && events[n].Turn?
      && (exists m :: 0 <= m <= n && HeldThroughout(events, m, n) && events[n].clock - events[m].now >= SLEEP_HOLD_MS)
  {
    DownSinceIsHold(events, n);
    if SleepsAt(events, n) {
      var m := HoldBegan(events, n + 1).value;
      assert HeldThroughout(events, m, n);
    }
    if events[n].Turn? {
      if m :| 0 <= m <= n && HeldThroughout(events, m, n) && events[n].clock - events[m].now >= SLEEP_HOLD_MS {
        HoldReachesBack(events, m, n + 1);
        var first := HoldBegan(events, n + 1).value;
        assert events[first].now <= events[m].now;
      }
    }
  }

  ghost predicate HeldThroughout(events: seq<Event>, m: nat, n: nat)
    requires m <= n < |events|
  {
    events[m].Turn? && forall i :: m <= i <= n && events[i].Turn? ==> HeldIdle(events, i)
  }
}
