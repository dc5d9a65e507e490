/** The badge's memory of the game it plays and of the questions it crashed on
  (firmware/src/session.rs), and what that memory makes of its answers
  (firmware/src/main.rs, `answer_question`).

  The store keeps a working copy and a copy in flash (NVS). A save can fail;
  a failed save leaves the flash as it was. A reboot reloads the flash copy.
*/
module Session {
  import opened Wrappers

  datatype PersistedSession = PersistedSession(gameId: string, deadlineMs: nat, abandoned: seq<string>)

  const DEFAULT_SESSION := PersistedSession("", 0, [])

  datatype Store = Store(ram: PersistedSession, nvs: PersistedSession)

  /** What a call changes, and whether it reports success. */
  datatype Saved = Saved(store: Store, ok: bool)

  function SaveTo(store: Store, next: PersistedSession, saves: bool): Saved {
    if saves then Saved(Store(next, next), true) else Saved(store, false)
  }

  function GameBegun(store: Store, gameId: string, deadlineMs: nat, saves: bool): Saved {
    var s := store.ram;
    if s.gameId != gameId then SaveTo(store, PersistedSession(gameId, deadlineMs, []), saves)
    else if s.deadlineMs < deadlineMs then SaveTo(store, s.(deadlineMs := deadlineMs), saves)
    else Saved(store, true)
  }

  predicate Abandoned(store: Store, gameId: string, questionId: string) {
    store.ram.gameId == gameId && questionId in store.ram.abandoned
  }

  function QuestionAbandoned(store: Store, gameId: string, questionId: string, saves: bool): Saved {
    var s := store.ram;
    if s.gameId == gameId && questionId !in s.abandoned then
      SaveTo(store, s.(abandoned := s.abandoned + [questionId]), saves)
    else Saved(store, true)
  }

  /** The store as it is written: flash first, then the working copy. */
  class SessionStore {
    var ram: PersistedSession
    var nvs: PersistedSession

    ghost function Value(): Store
      reads this
    {
      Store(ram, nvs)
    }

    /** A boot: whatever the flash holds, or the default. */
    constructor (flash: Option<PersistedSession>)
      ensures Value() == (match flash case Some(s) => Store(s, s) case None => Store(DEFAULT_SESSION, DEFAULT_SESSION))
    {
      var loaded := match flash case Some(s) => s case None => DEFAULT_SESSION;
      ram, nvs := loaded, loaded;
    }

    method Save(next: PersistedSession, saves: bool) returns (ok: bool)
      modifies this`nvs
      ensures ok == saves && nvs == if saves then next else old(nvs)
    {
      if saves { nvs := next; }
      ok := saves;
    }

    method BeginGame(gameId: string, deadlineMs: nat, saves: bool) returns (ok: bool)
      modifies this
      ensures Saved(Value(), ok) == GameBegun(old(Value()), gameId, deadlineMs, saves)
    {
      var isNew := ram.gameId != gameId;
      if isNew || ram.deadlineMs < deadlineMs {
        var next := if isNew then PersistedSession(gameId, deadlineMs, []) else ram.(deadlineMs := deadlineMs);
        ok := Save(next, saves);
        if !ok { return; }
        ram := next;
      }
      ok := true;
    }

    method IsAbandoned(gameId: string, questionId: string) returns (yes: bool)
      ensures yes <==> Abandoned(Value(), gameId, questionId)
    {
      yes := ram.gameId == gameId && questionId in ram.abandoned;
    }

    method Abandon(gameId: string, questionId: string, saves: bool) returns (ok: bool)
      modifies this
      ensures Saved(Value(), ok) == QuestionAbandoned(old(Value()), gameId, questionId, saves)
    {
      if ram.gameId == gameId && questionId !in ram.abandoned {
        var next := ram.(abandoned := ram.abandoned + [questionId]);
        ok := Save(next, saves);
        if !ok { return; }
        ram := next;
      }
      ok := true;
    }

    method Reboot()
      modifies this
      ensures Value() == Store(old(nvs), old(nvs))
    {
      ram := nvs;
    }
  }

  /** A successful `abandon` took effect exactly if the session is on that
    game; for any other game it reports success and records nothing.
  */
  lemma AbandonRecordsExactly(store: Store, gameId: string, questionId: string, saves: bool)
    requires QuestionAbandoned(store, gameId, questionId, saves).ok
    ensures Abandoned(QuestionAbandoned(store, gameId, questionId, saves).store, gameId, questionId)
       <==> store.ram.gameId == gameId
  {
  }

  // ---------- a badge over any run ----------

  datatype Held = Held(gameId: string, questionId: string)

  /** One Activity slot: at most one question in hand. `answers` is history. */
  datatype BadgeState = BadgeState(store: Store, holding: Option<Held>, answers: seq<Held>)

  datatype Event =
    | Assigned(gameId: string, questionId: string, deadlineMs: nat, saves: bool)
    | AnswerGiven
    | PanicHeld(saves: bool)
    | LetGo
    | Reboot

  /** `answer_question` from its start to the wait: refusal first, then the
    session; a session that cannot be saved fails the Activity.
  */
  function Taken(b: BadgeState, gameId: string, questionId: string, deadlineMs: nat, saves: bool): BadgeState {
    if Abandoned(b.store, gameId, questionId) then b
    else
      var begun := GameBegun(b.store, gameId, deadlineMs, saves);
      b.(store := begun.store, holding := if begun.ok then Some(Held(gameId, questionId)) else None)
  }

  function Step(b: BadgeState, e: Event): BadgeState {
    match e
    case Assigned(gameId, questionId, deadlineMs, saves) =>
      if b.holding.Some? then b else Taken(b, gameId, questionId, deadlineMs, saves)
    case AnswerGiven =>
      if b.holding.None? then b else b.(holding := None, answers := b.answers + [b.holding.value])
    case PanicHeld(saves) =>
      if b.holding.None? then b
      else b.(holding := None, store := QuestionAbandoned(b.store, b.holding.value.gameId, b.holding.value.questionId, saves).store)
    case LetGo => b.(holding := None)
    case Reboot => b.(holding := None, store := Store(b.store.nvs, b.store.nvs))
  }

  function Run(flash: PersistedSession, events: seq<Event>): BadgeState {
    if events == [] then BadgeState(Store(flash, flash), None, [])
    else Step(Run(flash, events[..|events| - 1]), events[|events| - 1])
  }

  predicate Consistent(b: BadgeState) {
    && b.store.ram == b.store.nvs
    && (b.holding.Some? ==>
          b.store.ram.gameId == b.holding.value.gameId && b.holding.value.questionId !in b.store.ram.abandoned)
  }

  /** After every operation, failed saves included, flash and working copy
    agree; and a question in hand is of the session's game and not abandoned.
  */
  lemma {:induction false} CopiesAgree(flash: PersistedSession, events: seq<Event>)
    ensures Consistent(Run(flash, events))
  {
    if events != [] {
      CopiesAgree(flash, events[..|events| - 1]);
    }
  }

  /** A panic whose save succeeds abandons the question it was made on. */
  lemma PanicAbandons(flash: PersistedSession, events: seq<Event>)
    requires Run(flash, events).holding.Some?
    ensures var held := Run(flash, events).holding.value;
      Abandoned(Step(Run(flash, events), PanicHeld(true)).store, held.gameId, held.questionId)
  {
    CopiesAgree(flash, events);
  }

  /** The session stays on this game from `from` events on. */
  ghost predicate StaysOn(flash: PersistedSession, events: seq<Event>, from: nat, gameId: string) {
    forall k :: from <= k <= |events| ==> Run(flash, events[..k]).store.ram.gameId == gameId
  }

  /** The record of an abandoned question is lost in one way only: with no
    question in hand the badge is assigned another game, and the new session
    is saved.
  */
  lemma RecordLostExactly(b: BadgeState, e: Event, gameId: string, questionId: string)
    requires Consistent(b) && Abandoned(b.store, gameId, questionId)
    ensures !Abandoned(Step(b, e).store, gameId, questionId)
       <==> e.Assigned? && b.holding.None? && e.gameId != gameId && e.saves
  {
    if e.PanicHeld? && b.holding.Some? {
      assert b.holding.value.gameId == gameId;
    }
  }

  /** Within one game the list of abandoned questions only grows. */
  lemma StepKeepsAbandoned(b: BadgeState, e: Event, gameId: string, questionId: string)
    requires Consistent(b) && Abandoned(b.store, gameId, questionId)
    ensures Step(b, e).store.ram.gameId == gameId ==> Abandoned(Step(b, e).store, gameId, questionId)
    ensures Held(gameId, questionId) in Step(b, e).answers ==> Held(gameId, questionId) in b.answers
  {
  }

  /** Once abandoned, always refused: while the session stays on the game, no
    further answer to that question leaves the badge, through reboots, failed
    saves and deadline extensions.
  */
  lemma {:induction false} AbandonedMeansRefused(flash: PersistedSession, events: seq<Event>, from: nat, gameId: string, questionId: string)
    requires from <= |events| && StaysOn(flash, events, from, gameId)
    requires Abandoned(Run(flash, events[..from]).store, gameId, questionId)
    ensures Abandoned(Run(flash, events).store, gameId, questionId)
    ensures AnswersTo(Run(flash, events).answers, gameId, questionId) == AnswersTo(Run(flash, events[..from]).answers, gameId, questionId)
    decreases |events|
  {
    if from == |events| {
      assert events[..from] == events;
    } else {
      var earlier := events[..|events| - 1];
      assert earlier[..from] == events[..from];
      forall k | from <= k <= |earlier| ensures Run(flash, earlier[..k]).store.ram.gameId == gameId {
        assert earlier[..k] == events[..k];
      }
      AbandonedMeansRefused(flash, earlier, from, gameId, questionId);
      CopiesAgree(flash, earlier);
      assert events[..|events|] == events;
      StepKeepsAbandoned(Run(flash, earlier), events[|events| - 1], gameId, questionId);
      StepKeepsAnswerCount(Run(flash, earlier), events[|events| - 1], gameId, questionId);
    }
  }

  /** How many answers to this question the badge has returned. */
  function AnswersTo(answers: seq<Held>, gameId: string, questionId: string): nat {
    if answers == [] then 0
    else
      var last := if answers[|answers| - 1] == Held(gameId, questionId) then 1 else 0;
      AnswersTo(answers[..|answers| - 1], gameId, questionId) + last
  }

  lemma StepKeepsAnswerCount(b: BadgeState, e: Event, gameId: string, questionId: string)
    requires Consistent(b) && Abandoned(b.store, gameId, questionId)
    ensures AnswersTo(Step(b, e).answers, gameId, questionId) == AnswersTo(b.answers, gameId, questionId)
  {
    if e.AnswerGiven? && b.holding.Some? {
      assert (b.answers + [b.holding.value])[..|b.answers|] == b.answers;
    }
  }

  /** Why "while the session stays on that game": another game in between
    erases the list, and the question is taken again.
  */
  lemma AnotherGameForgets(b: BadgeState, gameId: string, other: string, questionId: string, otherQuestion: string)
    requires other != gameId && b.holding.None? && Abandoned(b.store, gameId, questionId)
    ensures var there := Step(Step(b, Assigned(other, otherQuestion, 0, true)), LetGo);
      Step(there, Assigned(gameId, questionId, 0, true)).holding == Some(Held(gameId, questionId))
  {
  }

  /** The stored deadline of a game is only ever extended. */
  lemma DeadlineOnlyExtends(store: Store, gameId: string, deadlineMs: nat, saves: bool)
    requires store.ram.gameId == gameId
    ensures var begun := GameBegun(store, gameId, deadlineMs, saves);
      && begun.store.ram.abandoned == store.ram.abandoned
      && begun.store.ram.deadlineMs >= store.ram.deadlineMs
      && (begun.ok ==> begun.store.ram.deadlineMs >= deadlineMs)
  {
  }
}
