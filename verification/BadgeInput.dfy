/** The state machine that reads the badge's buttons (badge-input/src/lib.rs), and
  what its outputs mean in terms of the samples alone.
*/
module BadgeInput {
  import opened Wrappers

  const PANIC_HOLD_MS: nat := 500

  datatype Buttons = Buttons(up: bool, right: bool, down: bool, left: bool)
  {
    predicate Any() { up || right || down || left }
  }

  const RELEASED := Buttons(false, false, false, false)

  datatype Choice = Answer(index: nat) | Panic

  datatype Side = Left | Right

  datatype ButtonState = Idle | Armed(side: Side) | Combo(since: nat) | SuppressedUntilRelease

  function SideAnswer(side: Side): nat {
    match side case Left => 2 case Right => 1
  }

  /** `duration_since` saturates. */
  function Elapsed(now: nat, since: nat): nat {
    if now >= since then now - since else 0
  }

  datatype Advanced = Advanced(state: ButtonState, choice: Option<Choice>)

  /** One poll tick. */
  function Advance(state: ButtonState, buttons: Buttons, overlay: bool, now: nat, hold: nat): Advanced {
    if overlay then Advanced(SuppressedUntilRelease, None)
    else if state == SuppressedUntilRelease then
      Advanced(if buttons.Any() then SuppressedUntilRelease else Idle, None)
    else if buttons.left && buttons.right then
      var since := if state.Combo? then state.since else now;
      if Elapsed(now, since) >= hold then Advanced(SuppressedUntilRelease, Some(Panic))
      else Advanced(Combo(since), None)
    else if buttons.up then Advanced(Idle, Some(Answer(0)))
    else if buttons.down then Advanced(Idle, Some(Answer(3)))
    else if buttons.left then Advanced(Armed(Left), None)
    else if buttons.right then Advanced(Armed(Right), None)
    else if state.Armed? then Advanced(Idle, Some(Answer(SideAnswer(state.side))))
    else Advanced(Idle, None)
  }

  // ---------- runs ----------

  datatype Sample = Sample(buttons: Buttons, overlay: bool, now: nat)

  /** The state after the first `n` samples, and the choice at sample `n`. */
  function After(start: ButtonState, trace: seq<Sample>, n: nat, hold: nat): ButtonState
    requires n <= |trace|
  {
    if n == 0 then start
    else var s := trace[n - 1]; Advance(After(start, trace, n - 1, hold), s.buttons, s.overlay, s.now, hold).state
  }

  function Output(start: ButtonState, trace: seq<Sample>, n: nat, hold: nat): Option<Choice>
    requires n < |trace|
  {
    var s := trace[n];
    Advance(After(start, trace, n, hold), s.buttons, s.overlay, s.now, hold).choice
  }

  // ---------- what an output means ----------

  predicate AllUp(s: Sample) {
    !s.overlay && !s.buttons.Any()
  }

  predicate BothHeld(s: Sample) {
    !s.overlay && s.buttons.left && s.buttons.right
  }

  /** A lone side button. */
  predicate LoneSide(s: Sample) {
    !s.overlay && !s.buttons.up && !s.buttons.down && (s.buttons.left != s.buttons.right)
  }

  function LoneAnswer(s: Sample): nat {
    if s.buttons.left then 2 else 1
  }

  /** Where the unbroken left+right hold that ends before `n` began. */
  function HoldStart(trace: seq<Sample>, n: nat): (m: nat)
    requires n <= |trace|
    ensures m <= n
    ensures forall k :: m <= k < n ==> BothHeld(trace[k])
    ensures m > 0 ==> !BothHeld(trace[m - 1])
  {
    if n == 0 || !BothHeld(trace[n - 1]) then n else HoldStart(trace, n - 1)
  }

  /** The hold that includes this sample spans the threshold. */
  predicate Spans(trace: seq<Sample>, j: nat, hold: nat)
    requires j < |trace|
  {
    BothHeld(trace[j]) && Elapsed(trace[j].now, trace[HoldStart(trace, j + 1)].now) >= hold
  }

  /** An overlay, or a live hold that came to span the threshold, after which
    no sample was all up yet: told from the samples alone.
  */
  predicate Suppressed(trace: seq<Sample>, n: nat, hold: nat)
    requires n <= |trace|
  {
    n > 0
    && (trace[n - 1].overlay
        || (if Suppressed(trace, n - 1, hold) then !AllUp(trace[n - 1]) else Spans(trace, n - 1, hold)))
  }

  predicate Suppressor(trace: seq<Sample>, j: nat, hold: nat)
    requires j < |trace|
  {
    trace[j].overlay || (Spans(trace, j, hold) && !Suppressed(trace, j, hold))
  }

  /** Suppression lasts until an all-up sample. */
  lemma {:induction false} SuppressionLasts(trace: seq<Sample>, m: nat, n: nat, hold: nat)
    requires m <= n <= |trace| && (forall k :: m <= k < n ==> !AllUp(trace[k]))
    requires Suppressed(trace, m, hold)
    ensures Suppressed(trace, n, hold)
  {
    if m < n {
      SuppressionLasts(trace, m, n - 1, hold);
    }
  }

  /** Put at once: suppressed is to have been suppressed at some sample, with
    no all-up sample since.
  */
  lemma {:induction false} SuppressedSince(trace: seq<Sample>, n: nat, hold: nat)
    requires n <= |trace|
    ensures Suppressed(trace, n, hold)
       <==> exists j :: 0 <= j < n && Suppressor(trace, j, hold) && forall k :: j < k < n ==> !AllUp(trace[k])
  {
    if n > 0 {
      SuppressedSince(trace, n - 1, hold);
      if Suppressed(trace, n, hold) {
        if !Suppressor(trace, n - 1, hold) {
          var j :| 0 <= j < n - 1 && Suppressor(trace, j, hold) && forall k :: j < k < n - 1 ==> !AllUp(trace[k]);
          assert forall k :: j < k < n ==> !AllUp(trace[k]);
        }
      }
      if j :| 0 <= j < n && Suppressor(trace, j, hold) && forall k :: j < k < n ==> !AllUp(trace[k]) {
        assert Suppressed(trace, j + 1, hold);
        SuppressionLasts(trace, j + 1, n, hold);
      }
    }
  }

  /** The state, read off the samples. */
  ghost predicate StateMeans(trace: seq<Sample>, n: nat, hold: nat)
    requires n <= |trace|
  {
    var state := After(Idle, trace, n, hold);
    && (state.SuppressedUntilRelease? <==> Suppressed(trace, n, hold))
    && (state.Combo? <==> !Suppressed(trace, n, hold) && HoldStart(trace, n) < n)
    && (state.Combo? ==> state.since == trace[HoldStart(trace, n)].now)
    && (state.Armed? <==> !Suppressed(trace, n, hold) && n > 0 && LoneSide(trace[n - 1]) && !Suppressed(trace, n - 1, hold))
    && (state.Armed? ==> SideAnswer(state.side) == LoneAnswer(trace[n - 1]))
  }

  lemma {:induction false} StateRead(trace: seq<Sample>, n: nat, hold: nat)
    requires n <= |trace|
    ensures StateMeans(trace, n, hold)
  {
    if n > 0 {
      StateRead(trace, n - 1, hold);
    }
  }

  /** The choice a sample makes, said without the machine's state. */
  ghost function Meaning(trace: seq<Sample>, n: nat, hold: nat): Option<Choice>
    requires n < |trace|
  {
    var s := trace[n];
    if s.overlay || Suppressed(trace, n, hold) then None
    else if s.buttons.left && s.buttons.right then
      if Elapsed(s.now, trace[HoldStart(trace, n + 1)].now) >= hold then Some(Panic) else None
    else if s.buttons.up then Some(Answer(0))
    else if s.buttons.down then Some(Answer(3))
    else if s.buttons.left || s.buttons.right then None
    else if n > 0 && LoneSide(trace[n - 1]) && !Suppressed(trace, n - 1, hold) then Some(Answer(LoneAnswer(trace[n - 1])))
    else None
  }

  /** Every output over every sample sequence is what the samples mean. */
  lemma OutputMeans(trace: seq<Sample>, n: nat, hold: nat)
    requires n < |trace|
    ensures Output(Idle, trace, n, hold) == Meaning(trace, n, hold)
  {
    StateRead(trace, n, hold);
  }

  predicate ClockAdvances(trace: seq<Sample>) {
    forall i, j :: 0 <= i <= j < |trace| ==> trace[i].now <= trace[j].now
  }

  /** `n` is the first sample at which the unsuppressed hold begun at `m` spans
    the threshold.
  */
  ghost predicate FirstSpan(trace: seq<Sample>, m: nat, n: nat, hold: nat)
    requires n < |trace|
  {
    && m <= n
    && (forall k :: m <= k <= n ==> BothHeld(trace[k]))
    && (m > 0 ==> !BothHeld(trace[m - 1]))
    && !Suppressed(trace, m, hold)
    && trace[n].now - trace[m].now >= hold
    && (forall k :: m <= k < n ==> trace[k].now - trace[m].now < hold)
  }

  lemma {:induction false} HoldStartIs(trace: seq<Sample>, m: nat, n: nat)
    requires m < n <= |trace| && (forall k :: m <= k < n ==> BothHeld(trace[k]))
    requires m > 0 ==> !BothHeld(trace[m - 1])
    ensures HoldStart(trace, n) == m
  {
    if n > m + 1 {
      HoldStartIs(trace, m, n - 1);
    }
  }

  /** A hold that is live at its end was live throughout. */
  lemma HoldWasLive(trace: seq<Sample>, m: nat, n: nat, hold: nat)
    requires m <= n <= |trace| && (forall k :: m <= k < n ==> BothHeld(trace[k]))
    requires !Suppressed(trace, n, hold)
    ensures forall k :: m <= k <= n ==> !Suppressed(trace, k, hold)
  {
    forall k | m <= k <= n ensures !Suppressed(trace, k, hold) {
      if Suppressed(trace, k, hold) {
        SuppressionLasts(trace, k, n, hold);
      }
    }
  }

  /** Unsuppressed at its start, a hold that never spans the threshold is
    unsuppressed throughout.
  */
  lemma {:induction false} ShortHoldStaysLive(trace: seq<Sample>, m: nat, n: nat, hold: nat)
    requires m <= n <= |trace| && (forall k :: m <= k < n ==> BothHeld(trace[k]))
    requires m > 0 ==> !BothHeld(trace[m - 1])
    requires !Suppressed(trace, m, hold) && (forall k :: m <= k < n ==> Elapsed(trace[k].now, trace[m].now) < hold)
    ensures !Suppressed(trace, n, hold)
  {
    if m < n {
      ShortHoldStaysLive(trace, m, n - 1, hold);
      HoldStartIs(trace, m, n);
    }
  }

  /** With a clock that never goes back, a crash is emitted exactly at the
    first sample at which an unbroken, unsuppressed left+right hold spans the
    threshold.
  */
  lemma PanicExactly(trace: seq<Sample>, n: nat, hold: nat)
    requires n < |trace| && ClockAdvances(trace)
    ensures Output(Idle, trace, n, hold) == Some(Panic) <==> exists m :: 0 <= m <= n && FirstSpan(trace, m, n, hold)
  {
    OutputMeans(trace, n, hold);
    if Output(Idle, trace, n, hold) == Some(Panic) {
      var m := HoldStart(trace, n + 1);
      HoldWasLive(trace, m, n, hold);
      forall k | m <= k < n ensures trace[k].now - trace[m].now < hold {
        HoldStartIs(trace, m, k + 1);
        assert !Suppressed(trace, k, hold) && !Suppressed(trace, k + 1, hold);
      }
      assert FirstSpan(trace, m, n, hold);
    }
    if m :| 0 <= m <= n && FirstSpan(trace, m, n, hold) {
      ShortHoldStaysLive(trace, m, n, hold);
      HoldStartIs(trace, m, n + 1);
    }
  }

  /** A hold crashes once, however long: between any two crashes every button
    was up, with no overlay.
  */
  lemma PanicsAreSeparated(trace: seq<Sample>, i: nat, n: nat, hold: nat)
    requires i < n < |trace|
    requires Output(Idle, trace, i, hold) == Some(Panic) && Output(Idle, trace, n, hold) == Some(Panic)
    ensures exists k :: i < k < n && AllUp(trace[k])
  {
    OutputMeans(trace, i, hold);
    OutputMeans(trace, n, hold);
    assert Suppressed(trace, i + 1, hold);
    if forall k :: i < k < n ==> !AllUp(trace[k]) {
      SuppressionLasts(trace, i + 1, n, hold);
    }
  }

  // ---------- gestures ----------

  function AnswerGesture(index: nat): Option<seq<Buttons>> {
    match index
    case 0 => Some([RELEASED.(up := true), RELEASED])
    case 1 => Some([RELEASED.(right := true), RELEASED])
    case 2 => Some([RELEASED.(left := true), RELEASED])
    case 3 => Some([RELEASED.(down := true), RELEASED])
    case _ => None
  }

  /** From any state, once every button was up with no overlay, the gesture for
    an answer makes exactly that one choice and leaves the machine idle.
  */
  lemma AnswerGestureAnswers(state: ButtonState, index: nat, t0: nat, t1: nat, t2: nat, hold: nat)
    requires index <= 3
    ensures var g := AnswerGesture(index).value;
      var rest := Advance(state, RELEASED, false, t0, hold).state;
      var first := Advance(rest, g[0], false, t1, hold);
      var second := Advance(first.state, g[1], false, t2, hold);
      && second.state == Idle
      && (if index == 0 || index == 3
          then first.choice == Some(Answer(index)) && second.choice == None
          else first.choice == None && second.choice == Some(Answer(index)))
  {
  }

  function CrashGesture(holdFrames: nat): seq<Buttons> {
    seq(holdFrames, _ => Buttons(false, true, false, true)) + [RELEASED]
  }

  /** The gesture sampled at a steady period. */
  function Sampled(gesture: seq<Buttons>, t0: nat, period: nat): seq<Sample> {
    seq(|gesture|, i requires 0 <= i < |gesture| => Sample(gesture[i], false, t0 + i * period))
  }

  lemma SampledClock(holdFrames: nat, t0: nat, period: nat, k: nat)
    requires k < holdFrames
    ensures var trace := Sampled(CrashGesture(holdFrames), t0, period);
      BothHeld(trace[k]) && trace[k].now - trace[0].now == k * period
  {
  }

  /** While the buttons are down: counting the hold, until it is spent. */
  lemma {:induction false} CrashHold(holdFrames: nat, t0: nat, period: nat, n: nat, hold: nat)
    requires n <= holdFrames && hold > 0
    ensures var trace := Sampled(CrashGesture(holdFrames), t0, period);
      After(Idle, trace, n, hold) ==
        if n == 0 then Idle
        else if (n - 1) * period >= hold then SuppressedUntilRelease
        else Combo(t0)
  {
    if n > 0 {
      CrashHold(holdFrames, t0, period, n - 1, hold);
      SampledClock(holdFrames, t0, period, n - 1);
      if n > 1 {
        OneMorePeriod(n - 1, period);
      }
    }
  }

  lemma OneMorePeriod(k: nat, period: nat)
    requires k > 0
    ensures k * period == (k - 1) * period + period
  {
  }

  /** The injected crash gesture reads as a crash exactly when its frames span
    the threshold at the caller's sampling period; it never reads as an answer.
  */
  lemma CrashGestureExactly(holdFrames: nat, t0: nat, period: nat, n: nat, hold: nat)
    requires hold > 0 && n < holdFrames + 1
    ensures var trace := Sampled(CrashGesture(holdFrames), t0, period);
      Output(Idle, trace, n, hold) ==
        if n < holdFrames && n > 0 && n * period >= hold && (n - 1) * period < hold then Some(Panic) else None
  {
    CrashHold(holdFrames, t0, period, n, hold);
    if n < holdFrames {
      SampledClock(holdFrames, t0, period, n);
    }
  }
}
