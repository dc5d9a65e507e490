/** What a round makes of its Signals, in terms of the Signals alone: which
  reports move a question to another badge, and what the board shows of the
  last move and the last crash.
*/
module RoundSignals {
  import opened Wrappers
  import opened Contract
  import opened GameSnapshots
  import opened Deck
  import opened Round
  import opened RoundFrames
  import opened RoundHandoffs

  /** The events of the Signals a running round took, oldest first. */
  ghost function Started(config: Config, inputs: seq<Input>): seq<BadgeEvent> {
    if inputs == [] then []
    else
      var earlier, last := inputs[..|inputs| - 1], inputs[|inputs| - 1];
      Started(config, earlier)
      + if last.BadgeStarted? && Run(config, earlier).snap.status == Running then [last.event] else []
  }

  ghost function Panicked(config: Config, inputs: seq<Input>): seq<BadgeEvent> {
    if inputs == [] then []
    else
      var earlier, last := inputs[..|inputs| - 1], inputs[|inputs| - 1];
      Panicked(config, earlier)
      + if last.PanicEvent? && Run(config, earlier).snap.status == Running then [last.event] else []
  }

  /** How many reports moved their question. */
  function Moves(reported: seq<BadgeEvent>): nat {
    if reported == [] then 0
    else
      var earlier, last := reported[..|reported| - 1], reported[|reported| - 1];
      Moves(earlier) + if IsMove(earlier, last) then 1 else 0
  }

  /** What the last move looks like. */
  function LastMove(reported: seq<BadgeEvent>): Option<Reassignment> {
    if reported == [] then None
    else
      var earlier, last := reported[..|reported| - 1], reported[|reported| - 1];
      if IsMove(earlier, last) then
        Some(Reassignment(last.questionId, LastReport(earlier, last.questionId).value.callsign, last.callsign,
                          "heartbeat timeout", last.attempt))
      else LastMove(earlier)
  }

  ghost predicate SignalBooks(config: Config, inputs: seq<Input>) {
    var r := Run(config, inputs);
    && r.reported == Started(config, inputs)
    && r.snap.reassignments == Moves(r.reported)
    && r.snap.latestReassignment == LastMove(r.reported)
    && (forall q :: q in r.retryReasons ==> r.retryReasons[q] == "heartbeat timeout")
  }

  lemma StartedStep(r: Round, event: BadgeEvent)
    requires r.snap.status == Running && AssignmentsCurrent(LedgerOf(r))
    requires forall q :: q in r.retryReasons ==> r.retryReasons[q] == "heartbeat timeout"
    ensures var s := Step(r, Input.BadgeStarted(event));
      && s.reported == r.reported + [event]
      && s.snap.reassignments == r.snap.reassignments + (if IsMove(r.reported, event) then 1 else 0)
      && s.snap.latestReassignment
         == (if IsMove(r.reported, event) then
               Some(Reassignment(event.questionId, LastReport(r.reported, event.questionId).value.callsign, event.callsign,
                                 "heartbeat timeout", event.attempt))
             else r.snap.latestReassignment)
      && (forall q :: q in s.retryReasons ==> s.retryReasons[q] == "heartbeat timeout")
  {
    var q := event.questionId;
    assert LastReport(r.reported, q) == if q in r.assignments then Some(r.assignments[q]) else None by {
      assert LedgerOf(r).reported == r.reported && LedgerOf(r).assignments == r.assignments;
    }
  }

  /** No other input touches these books, except that a panic leaves a reason. */
  lemma OtherStep(r: Round, input: Input)
    requires !(input.BadgeStarted? && r.snap.status == Running)
    requires forall q :: q in r.retryReasons ==> r.retryReasons[q] == "heartbeat timeout"
    ensures var s := Step(r, input);
      && s.reported == r.reported && s.snap.reassignments == r.snap.reassignments
      && s.snap.latestReassignment == r.snap.latestReassignment
      && (forall q :: q in s.retryReasons ==> s.retryReasons[q] == "heartbeat timeout")
  {
    if Enabled(r, input) && Accepted(r, input) {
      match input
      case Tick(now) => LoopTurnFrame(r, now);
      case Completes(index, outcome, now) => LoopTurnFrame(OutcomeRecorded(r, index, outcome, now).(clock := now), now);
      case _ =>
    }
  }

  lemma {:induction false} SignalsKept(config: Config, inputs: seq<Input>)
    ensures SignalBooks(config, inputs)
  {
    if inputs == [] {
      LoopTurnFrame(Opening(config), config.startedMs);
    } else {
      var earlier, last := inputs[..|inputs| - 1], inputs[|inputs| - 1];
      var r := Run(config, earlier);
      SignalsKept(config, earlier);
      if last.BadgeStarted? && r.snap.status == Running {
        LedgerHolds(config, earlier);
        StartedStep(r, last.event);
        assert (r.reported + [last.event])[..|r.reported|] == r.reported;
      } else {
        OtherStep(r, last);
      }
    }
  }

  /** In every run the handoffs counted are the reports that name another badge
    and a later attempt than the last report on their question; the board shows
    the last of them; and the reason it gives is always the same one, whether
    or not a badge announced its crash.
  */
  lemma HandoffsAreMoves(config: Config, inputs: seq<Input>)
    ensures var snap, reported := Run(config, inputs).snap, Started(config, inputs);
      && snap.reassignments == snap.heartbeatTimeouts == Moves(reported)
      && snap.latestReassignment == LastMove(reported)
      && (snap.latestReassignment.Some? ==> snap.latestReassignment.value.reason == "heartbeat timeout")
      && (snap.latestReassignment.None? <==> snap.reassignments == 0)
  {
    SignalsKept(config, inputs);
    HandoffsAddUp(config, inputs);
    MovesShow(Started(config, inputs));
  }

  lemma {:induction false} MovesShow(reported: seq<BadgeEvent>)
    ensures LastMove(reported).None? <==> Moves(reported) == 0
    ensures LastMove(reported).Some? ==> LastMove(reported).value.reason == "heartbeat timeout"
  {
    if reported != [] {
      MovesShow(reported[..|reported| - 1]);
    }
  }

  lemma FailureStep(r: Round, input: Input)
    ensures Step(r, input).snap.latestFailure
         == if input.PanicEvent? && r.snap.status == Running
            then Some(BadgeFailure(input.event.questionId, input.event.callsign, input.event.attempt))
            else r.snap.latestFailure
  {
    if Enabled(r, input) && Accepted(r, input) {
      match input
      case Tick(now) => LoopTurnFrame(r, now);
      case Completes(index, outcome, now) => LoopTurnFrame(OutcomeRecorded(r, index, outcome, now).(clock := now), now);
      case _ =>
    }
  }

  /** The board shows the crash that was signalled last. */
  lemma {:induction false} FailureIsTheLastPanic(config: Config, inputs: seq<Input>)
    ensures var failure, panics := Run(config, inputs).snap.latestFailure, Panicked(config, inputs);
      if panics == [] then failure == None
      else var last := panics[|panics| - 1]; failure == Some(BadgeFailure(last.questionId, last.callsign, last.attempt))
  {
    if inputs == [] {
      LoopTurnFrame(Opening(config), config.startedMs);
    } else {
      FailureIsTheLastPanic(config, inputs[..|inputs| - 1]);
      FailureStep(Run(config, inputs[..|inputs| - 1]), inputs[|inputs| - 1]);
    }
  }

  /** A crash on this question still waits for the handoff it is the reason of. */
  ghost predicate ReasonWaits(config: Config, inputs: seq<Input>, q: string) {
    inputs != []
    && var earlier, last := inputs[..|inputs| - 1], inputs[|inputs| - 1];
       var r := Run(config, earlier);
       if r.snap.status == Running && last.PanicEvent? && last.event.questionId == q then true
       else if r.snap.status == Running && last.BadgeStarted? && last.event.questionId == q && IsMove(Started(config, earlier), last.event) then false
       else ReasonWaits(config, earlier, q)
  }

  lemma ReasonStep(r: Round, input: Input, q: string)
    requires AssignmentsCurrent(LedgerOf(r))
    ensures q in Step(r, input).retryReasons <==>
      if r.snap.status == Running && input.PanicEvent? && input.event.questionId == q then true
      else if r.snap.status == Running && input.BadgeStarted? && input.event.questionId == q && IsMove(r.reported, input.event) then false
      else q in r.retryReasons
  {
    if Enabled(r, input) && Accepted(r, input) {
      match input
      case Tick(now) => LoopTurnFrame(r, now);
      case Completes(index, outcome, now) => LoopTurnFrame(OutcomeRecorded(r, index, outcome, now).(clock := now), now);
      case BadgeStarted(event) =>
        assert LastReport(r.reported, event.questionId)
            == if event.questionId in r.assignments then Some(r.assignments[event.questionId]) else None by {
          assert LedgerOf(r).reported == r.reported && LedgerOf(r).assignments == r.assignments;
        }
      case _ =>
    }
  }

  /** A reason a panic left is used up by the next handoff of its question. */
  lemma {:induction false} ReasonsAreUsedOnce(config: Config, inputs: seq<Input>, q: string)
    ensures q in Run(config, inputs).retryReasons <==> ReasonWaits(config, inputs, q)
  {
    if inputs == [] {
      LoopTurnFrame(Opening(config), config.startedMs);
    } else {
      var earlier := inputs[..|inputs| - 1];
      ReasonsAreUsedOnce(config, earlier, q);
      SignalsKept(config, earlier);
      LedgerHolds(config, earlier);
      ReasonStep(Run(config, earlier), inputs[|inputs| - 1], q);
    }
  }
}
