/** Who may hold a question: the heartbeat, crash and reassignment protocol of
  one Activity (firmware/src/main.rs; constants in shared/src/contract.rs).

  Any number of badges and the server interleave over one clock. The server
  hands the question out one attempt at a time, and takes it back when it is
  told to or when no heartbeat arrived for 15 s. A badge inside
  `wait_for_choice` gives up at the first poll that finds 10 s without an
  acknowledgement. The main result, SingleHolderExactly, gives the exact bound
  on the network and the poll under which no two badges ever hold the question
  together.
*/
module Heartbeat {
  import opened Contract

  /** The server's pause before a retry (web/src/workflow.rs, `RetryPolicy`). */
  const RETRY_BACKOFF_MS: nat := 250

  /** `latency`: a task or an acknowledgement that takes longer is lost.
    `beatLatency`: the same for a heartbeat request. `pollGap`: the longest
    pause between two polls of the input loop.
  */
  datatype Net = Net(latency: nat, beatLatency: nat, pollGap: nat)

  datatype Server = Queued(notBefore: nat) | InFlight(lastBeat: nat) | Closed

  /** Where a badge is with this question. `Feedback` still heartbeats. */
  datatype Badge =
    | Waiting(attempt: nat, lastAck: nat, lastPoll: nat, stopped: bool)
    | Feedback(attempt: nat)
    | Blackout(attempt: nat, since: nat)

  datatype Message =
    | Task(badge: string, attempt: nat, sentAt: nat)
    | Beat(attempt: nat, sentAt: nat)
    | Ack(attempt: nat, receivedAt: nat)
    | Stop(attempt: nat)
    | FailedAttempt(attempt: nat)
    | DoneAttempt(attempt: nat)

  datatype Protocol = Protocol(
    now: nat, issued: nat, server: Server, mail: set<Message>, badges: map<string, Badge>, abandoned: set<string>)

  const START := Protocol(0, 0, Queued(0), {}, map[], {})

  datatype Press = NoPress | AnswerPress | PanicPress | Interrupted

  datatype Event =
    | Elapse
    | Dispatch(badge: string)
    | DeliverTask(task: Message)
    | SendBeat(badge: string)
    | ReceiveBeat(beat: Message)
    | DeliverAck(badge: string, ack: Message)
    | DeliverStop(badge: string, stop: Message)
    | Poll(badge: string, press: Press)
    | EndFeedback(badge: string)
    | EndBlackout(badge: string)
    | ReceiveFailure(failure: Message)
    | ReceiveDone(done: Message)
    | HeartbeatTimeout
    | CloseActivity

  predicate IsWaiting(s: Protocol, badge: string) {
    badge in s.badges && s.badges[badge].Waiting?
  }

  /** No poll is overdue a millisecond from now. */
  predicate MayElapse(net: Net, s: Protocol) {
    forall badge :: badge in s.badges && s.badges[badge].Waiting? ==> s.now + 1 <= s.badges[badge].lastPoll + net.pollGap
  }

  predicate Enabled(net: Net, s: Protocol, e: Event) {
    match e
    case Elapse => MayElapse(net, s)
    case Dispatch(_) => s.server.Queued? && s.now >= s.server.notBefore
    case DeliverTask(task) => task in s.mail && task.Task? && s.now <= task.sentAt + net.latency && task.badge !in s.badges
    case SendBeat(badge) => badge in s.badges && !s.badges[badge].Blackout?
    case ReceiveBeat(beat) => beat in s.mail && beat.Beat? && s.now <= beat.sentAt + net.beatLatency
    case DeliverAck(badge, ack) =>
      ack in s.mail && ack.Ack? && s.now <= ack.receivedAt + net.latency && IsWaiting(s, badge) && s.badges[badge].attempt == ack.attempt
    case DeliverStop(badge, stop) =>
      stop in s.mail && stop.Stop? && IsWaiting(s, badge) && s.badges[badge].attempt == stop.attempt
    case Poll(badge, _) => IsWaiting(s, badge)
    case EndFeedback(badge) => badge in s.badges && s.badges[badge].Feedback?
    case EndBlackout(badge) => badge in s.badges && s.badges[badge].Blackout? && s.now >= s.badges[badge].since + CRASH_BLACKOUT_MS
    case ReceiveFailure(failure) => failure in s.mail && failure.FailedAttempt?
    case ReceiveDone(done) => done in s.mail && done.DoneAttempt?
    case HeartbeatTimeout => s.server.InFlight? && s.now >= s.server.lastBeat + HEARTBEAT_TIMEOUT_MS
    case CloseActivity => true
  }

  /** `silent_ms`: the subtraction saturates. */
  function SilentMs(s: Protocol, lastAck: nat): nat {
    if s.now >= lastAck then s.now - lastAck else 0
  }

  function Requeued(s: Protocol): Protocol {
    s.(server := Queued(s.now + RETRY_BACKOFF_MS))
  }

  /** The badge lets go of the question and reports `message`. */
  function Leaves(s: Protocol, badge: string, message: Message): Protocol {
    s.(badges := s.badges - {badge}, mail := s.mail + {message})
  }

  /** One turn of the input loop: interruption, stop and an exhausted budget
    come before any press.
  */
  function Polled(s: Protocol, badge: string, press: Press): Protocol
    requires IsWaiting(s, badge)
  {
    var b := s.badges[badge];
    if press == Interrupted || b.stopped || HeartbeatBudgetExhausted(SilentMs(s, b.lastAck)) then
      Leaves(s, badge, FailedAttempt(b.attempt))
    else if press == AnswerPress then s.(badges := s.badges[badge := Feedback(b.attempt)])
    else if press == PanicPress then
      s.(badges := s.badges[badge := Blackout(b.attempt, s.now)], abandoned := s.abandoned + {badge})
    else s.(badges := s.badges[badge := b.(lastPoll := s.now)])
  }

  /** An abandoned question is refused before anything is drawn or awaited. */
  function TaskDelivered(s: Protocol, task: Message): Protocol
    requires task.Task?
  {
    var rest := s.mail - {task};
    if task.badge in s.abandoned then s.(mail := rest + {FailedAttempt(task.attempt)})
    else s.(mail := rest, badges := s.badges[task.badge := Badge.Waiting(task.attempt, s.now, s.now, false)])
  }

  function Step(net: Net, s: Protocol, e: Event): Protocol {
    if !Enabled(net, s, e) then s
    else match e
      case Elapse => s.(now := s.now + 1)
      case Dispatch(badge) =>
        s.(issued := s.issued + 1, server := InFlight(s.now), mail := s.mail + {Task(badge, s.issued + 1, s.now)})
      case DeliverTask(task) => TaskDelivered(s, task)
      case SendBeat(badge) => s.(mail := s.mail + {Beat(s.badges[badge].attempt, s.now)})
      case ReceiveBeat(beat) =>
        if s.server.InFlight? && beat.attempt == s.issued then
          s.(server := InFlight(s.now), mail := s.mail - {beat} + {Ack(beat.attempt, s.now)})
        else
          s.(mail := s.mail - {beat} + {Stop(beat.attempt)})
      case DeliverAck(badge, ack) =>
        s.(mail := s.mail - {ack}, badges := s.badges[badge := s.badges[badge].(lastAck := s.now)])
      case DeliverStop(badge, stop) =>
        s.(mail := s.mail - {stop}, badges := s.badges[badge := s.badges[badge].(stopped := true)])
      case Poll(badge, press) => Polled(s, badge, press)
      case EndFeedback(badge) => Leaves(s, badge, DoneAttempt(s.badges[badge].attempt))
      case EndBlackout(badge) => Leaves(s, badge, FailedAttempt(s.badges[badge].attempt))
      case ReceiveFailure(failure) =>
        var rest := s.(mail := s.mail - {failure});
        if s.server.InFlight? && failure.attempt == s.issued then Requeued(rest) else rest
      case ReceiveDone(done) =>
        var rest := s.(mail := s.mail - {done});
        if s.server.InFlight? && done.attempt == s.issued then rest.(server := Closed) else rest
      case HeartbeatTimeout => Requeued(s)
      case CloseActivity => s.(server := Closed)
  }

  function Run(net: Net, events: seq<Event>): Protocol {
    if events == [] then START else Step(net, Run(net, events[..|events| - 1]), events[|events| - 1])
  }

  lemma RunAppends(net: Net, events: seq<Event>, e: Event)
    ensures Run(net, events + [e]) == Step(net, Run(net, events), e)
  {
    assert (events + [e])[..|events|] == events;
  }

  // ---------- safety ----------

  /** The delays fit between the badge's budget and the server's timeout. */
  predicate Safe(net: Net) {
    net.latency + net.pollGap <= HEARTBEAT_TIMEOUT_MS - HEARTBEAT_BUDGET_MS + RETRY_BACKOFF_MS
  }

  ghost predicate AtMostOneHolder(s: Protocol) {
    forall a, b :: IsWaiting(s, a) && IsWaiting(s, b) ==> a == b
  }

  /** How long after an acknowledgement a badge can still be waiting. */
  function Grace(net: Net): nat {
    HEARTBEAT_BUDGET_MS - 1 + net.pollGap
  }

  /** Polls are on time, and the last one found the budget unspent. */
  ghost predicate PollsOnTime(net: Net, s: Protocol) {
    forall badge :: IsWaiting(s, badge) ==>
      var b := s.badges[badge];
      && b.lastAck <= s.now && b.lastPoll <= s.now <= b.lastPoll + net.pollGap
      && b.lastPoll < b.lastAck + HEARTBEAT_BUDGET_MS
  }

  ghost predicate OnlyIssued(s: Protocol) {
    && (forall badge :: badge in s.badges ==> s.badges[badge].attempt <= s.issued)
    && (forall m :: m in s.mail ==> m.attempt <= s.issued)
  }

  /** An attempt is in one place: under way, with one badge, or reported. */
  ghost predicate OnePlace(s: Protocol) {
    && (forall a, b :: a in s.badges && b in s.badges && s.badges[a].attempt == s.badges[b].attempt ==> a == b)
    && (forall m :: m in s.mail && (m.FailedAttempt? || m.DoneAttempt?) ==>
          forall b :: b in s.badges ==> s.badges[b].attempt != m.attempt)
    && (forall t, m :: t in s.mail && t.Task? && m in s.mail && m.attempt == t.attempt ==> m == t)
    && (forall t, b :: t in s.mail && t.Task? && b in s.badges ==> s.badges[b].attempt != t.attempt)
  }

  /** Only the current attempt can be held, now or when its task arrives. */
  ghost predicate OnlyCurrentHeld(net: Net, s: Protocol) {
    && (forall badge :: IsWaiting(s, badge) ==> s.badges[badge].attempt == s.issued)
    && (forall t :: t in s.mail && t.Task? && t.attempt < s.issued ==> t.sentAt + net.latency < s.now)
  }

  ghost predicate InFlightTimes(net: Net, s: Protocol, lastBeat: nat) {
    && lastBeat <= s.now
    && (forall badge :: IsWaiting(s, badge) ==> s.badges[badge].lastAck <= lastBeat + net.latency)
    && (forall m :: m in s.mail && m.attempt == s.issued && m.Ack? ==> m.receivedAt <= lastBeat)
    && (forall m :: m in s.mail && m.attempt == s.issued && m.Task? ==> m.sentAt <= lastBeat)
  }

  ghost predicate QueuedTimes(net: Net, s: Protocol, notBefore: nat) {
    && (forall badge :: IsWaiting(s, badge) ==>
          && s.badges[badge].lastAck + Grace(net) < notBefore
          && forall m :: m in s.mail && m.attempt == s.issued && m.Ack? ==> m.receivedAt + net.latency + Grace(net) < notBefore)
    && (forall m :: m in s.mail && m.attempt == s.issued && m.Task? ==> m.sentAt + net.latency + Grace(net) < notBefore)
  }

  /** The server's view of the current attempt runs ahead of its holder. */
  ghost predicate ServerTimes(net: Net, s: Protocol) {
    match s.server
    case InFlight(lastBeat) => InFlightTimes(net, s, lastBeat)
    case Queued(notBefore) => QueuedTimes(net, s, notBefore)
    case Closed => true
  }

  ghost predicate Placed(s: Protocol) {
    OnlyIssued(s) && OnePlace(s)
  }

  ghost predicate Timed(net: Net, s: Protocol) {
    PollsOnTime(net, s) && OnlyCurrentHeld(net, s) && ServerTimes(net, s)
  }

  ghost predicate SameHolders(s: Protocol, s': Protocol) {
    forall badge :: IsWaiting(s', badge) <==> IsWaiting(s, badge)
  }

  // One place per attempt, whatever the network does.

  lemma DispatchPlace(net: Net, s: Protocol, badge: string)
    requires Placed(s)
    ensures Placed(Step(net, s, Dispatch(badge)))
  {
  }

  lemma TaskAcceptedPlace(s: Protocol, task: Message)
    requires Placed(s) && task in s.mail && task.Task? && task.badge !in s.badges
    ensures Placed(s.(mail := s.mail - {task}, badges := s.badges[task.badge := Badge.Waiting(task.attempt, s.now, s.now, false)]))
  {
  }

  lemma TaskRefusedPlace(s: Protocol, task: Message)
    requires Placed(s) && task in s.mail && task.Task?
    ensures Placed(s.(mail := s.mail - {task} + {FailedAttempt(task.attempt)}))
  {
  }

  lemma DeliverTaskPlace(net: Net, s: Protocol, task: Message)
    requires Placed(s) && Enabled(net, s, DeliverTask(task))
    ensures Placed(TaskDelivered(s, task))
  {
    if task.badge in s.abandoned {
      TaskRefusedPlace(s, task);
    } else {
      TaskAcceptedPlace(s, task);
    }
  }

  lemma SendBeatPlace(net: Net, s: Protocol, e: Event)
    requires Placed(s) && Enabled(net, s, e) && e.SendBeat?
    ensures Placed(Step(net, s, e))
  {
  }

  lemma ReceiveBeatPlace(net: Net, s: Protocol, e: Event)
    requires Placed(s) && Enabled(net, s, e) && e.ReceiveBeat?
    ensures Placed(Step(net, s, e))
  {
  }

  lemma DeliverPlace(net: Net, s: Protocol, e: Event)
    requires Placed(s) && Enabled(net, s, e) && (e.DeliverAck? || e.DeliverStop?)
    ensures Placed(Step(net, s, e))
  {
  }

  lemma LeavesPlace(s: Protocol, badge: string, message: Message)
    requires Placed(s) && badge in s.badges && message.attempt == s.badges[badge].attempt
    requires message.FailedAttempt? || message.DoneAttempt?
    ensures Placed(Leaves(s, badge, message))
  {
  }

  lemma MovesPlace(s: Protocol, badge: string, next: Badge, abandoned: set<string>)
    requires Placed(s) && badge in s.badges && next.attempt == s.badges[badge].attempt
    ensures Placed(s.(badges := s.badges[badge := next], abandoned := abandoned))
  {
  }

  lemma PollPlace(s: Protocol, badge: string, press: Press)
    requires Placed(s) && IsWaiting(s, badge)
    ensures Placed(Polled(s, badge, press))
  {
    var s', b := Polled(s, badge, press), s.badges[badge];
    if badge in s'.badges {
      MovesPlace(s, badge, s'.badges[badge], s'.abandoned);
    } else {
      LeavesPlace(s, badge, FailedAttempt(b.attempt));
    }
  }

  lemma ReportPlace(net: Net, s: Protocol, e: Event)
    requires Placed(s) && Enabled(net, s, e) && (e.ReceiveFailure? || e.ReceiveDone? || e.CloseActivity?)
    ensures Placed(Step(net, s, e))
  {
  }

  lemma StepPlace(net: Net, s: Protocol, e: Event)
    requires Placed(s)
    ensures Placed(Step(net, s, e))
  {
    if Enabled(net, s, e) {
      match e
      case Elapse =>
      case Dispatch(badge) => DispatchPlace(net, s, badge);
      case DeliverTask(task) => DeliverTaskPlace(net, s, task);
      case SendBeat(_) => SendBeatPlace(net, s, e);
      case ReceiveBeat(_) => ReceiveBeatPlace(net, s, e);
      case DeliverAck(_, _) => DeliverPlace(net, s, e);
      case DeliverStop(_, _) => DeliverPlace(net, s, e);
      case Poll(badge, press) => PollPlace(s, badge, press);
      case EndFeedback(badge) => LeavesPlace(s, badge, DoneAttempt(s.badges[badge].attempt));
      case EndBlackout(badge) => LeavesPlace(s, badge, FailedAttempt(s.badges[badge].attempt));
      case ReceiveFailure(_) => ReportPlace(net, s, e);
      case ReceiveDone(_) => ReportPlace(net, s, e);
      case HeartbeatTimeout =>
      case CloseActivity => ReportPlace(net, s, e);
    }
  }

  // The clocks.

  lemma ElapseKeeps(net: Net, s: Protocol)
    requires Timed(net, s) && MayElapse(net, s)
    ensures Timed(net, Step(net, s, Elapse))
  {
    assert SameHolders(s, Step(net, s, Elapse));
  }

  /** By the time the server may dispatch again the old holder is gone. */
  lemma NobodyWaitsAtDispatch(net: Net, s: Protocol)
    requires PollsOnTime(net, s) && ServerTimes(net, s) && s.server.Queued? && s.now >= s.server.notBefore
    ensures forall badge :: !IsWaiting(s, badge)
    ensures forall m :: m in s.mail && m.attempt == s.issued && m.Task? ==> m.sentAt + net.latency < s.now
  {
  }

  lemma DispatchKeeps(net: Net, s: Protocol, badge: string)
    requires Placed(s) && Timed(net, s) && Enabled(net, s, Dispatch(badge))
    ensures Timed(net, Step(net, s, Dispatch(badge)))
  {
    NobodyWaitsAtDispatch(net, s);
    assert SameHolders(s, Step(net, s, Dispatch(badge)));
  }

  lemma NobodyWaitsAtDelivery(s: Protocol, task: Message)
    requires OnePlace(s) && task in s.mail && task.Task? && task.attempt == s.issued
    requires forall badge :: IsWaiting(s, badge) ==> s.badges[badge].attempt == s.issued
    ensures forall badge :: !IsWaiting(s, badge)
  {
  }

  lemma DeliverTaskTimes(net: Net, s: Protocol, task: Message)
    requires ServerTimes(net, s) && OnePlace(s) && Enabled(net, s, DeliverTask(task)) && task.attempt == s.issued
    requires forall badge :: !IsWaiting(s, badge)
    ensures ServerTimes(net, TaskDelivered(s, task))
  {
    var s' := TaskDelivered(s, task);
    forall b | b != task.badge ensures !IsWaiting(s', b) {
      assert !IsWaiting(s, b);
    }
    assert forall m :: m in s.mail && m.attempt == s.issued ==> m == task;
  }

  lemma DeliverTaskKeeps(net: Net, s: Protocol, task: Message)
    requires Placed(s) && Timed(net, s) && Enabled(net, s, DeliverTask(task))
    ensures Timed(net, TaskDelivered(s, task))
  {
    var s' := TaskDelivered(s, task);
    assert task.attempt == s.issued;
    NobodyWaitsAtDelivery(s, task);
    DeliverTaskTimes(net, s, task);
    forall b | b != task.badge ensures !IsWaiting(s', b) {
      assert !IsWaiting(s, b);
    }
  }

  lemma BeatKeeps(net: Net, s: Protocol, e: Event)
    requires Timed(net, s) && Enabled(net, s, e) && (e.SendBeat? || e.ReceiveBeat?)
    ensures Timed(net, Step(net, s, e))
  {
    assert SameHolders(s, Step(net, s, e));
  }

  lemma DeliverKeeps(net: Net, s: Protocol, e: Event)
    requires Timed(net, s) && Enabled(net, s, e) && (e.DeliverAck? || e.DeliverStop?)
    ensures Timed(net, Step(net, s, e))
  {
    assert SameHolders(s, Step(net, s, e));
  }

  lemma LeavesKeeps(net: Net, s: Protocol, badge: string, message: Message)
    requires Timed(net, s) && badge in s.badges && (message.FailedAttempt? || message.DoneAttempt?)
    ensures Timed(net, Leaves(s, badge, message))
  {
    assert forall b :: IsWaiting(Leaves(s, badge, message), b) ==> IsWaiting(s, b);
  }

  lemma PollKeeps(net: Net, s: Protocol, badge: string, press: Press)
    requires Timed(net, s) && IsWaiting(s, badge)
    ensures Timed(net, Polled(s, badge, press))
  {
    var s', b := Polled(s, badge, press), s.badges[badge];
    if badge in s'.badges {
      assert forall other :: IsWaiting(s', other) ==> IsWaiting(s, other);
    } else {
      LeavesKeeps(net, s, badge, FailedAttempt(b.attempt));
    }
  }

  /** Nobody holds an attempt that was reported. */
  lemma ReportKeeps(net: Net, s: Protocol, e: Event)
    requires Placed(s) && Timed(net, s) && Enabled(net, s, e) && (e.ReceiveFailure? || e.ReceiveDone? || e.CloseActivity?)
    ensures Timed(net, Step(net, s, e))
  {
    assert SameHolders(s, Step(net, s, e));
    if e.ReceiveFailure? && e.failure.attempt == s.issued {
      assert forall badge :: !IsWaiting(s, badge);
      assert forall m :: m in s.mail && m.attempt == s.issued && m.Task? ==> m == e.failure;
    }
  }

  /** The one place the bound is needed: the timer fires with the old holder's
    last possible moment still before the next dispatch.
  */
  lemma TimeoutKeeps(net: Net, s: Protocol)
    requires Safe(net) && Timed(net, s) && Enabled(net, s, HeartbeatTimeout)
    ensures Timed(net, Step(net, s, HeartbeatTimeout))
  {
    assert SameHolders(s, Step(net, s, HeartbeatTimeout));
  }

  lemma StepKeeps(net: Net, s: Protocol, e: Event)
    requires Safe(net) && Placed(s) && Timed(net, s)
    ensures Timed(net, Step(net, s, e))
  {
    if Enabled(net, s, e) {
      match e
      case Elapse => ElapseKeeps(net, s);
      case Dispatch(badge) => DispatchKeeps(net, s, badge);
      case DeliverTask(task) => DeliverTaskKeeps(net, s, task);
      case SendBeat(_) => BeatKeeps(net, s, e);
      case ReceiveBeat(_) => BeatKeeps(net, s, e);
      case DeliverAck(_, _) => DeliverKeeps(net, s, e);
      case DeliverStop(_, _) => DeliverKeeps(net, s, e);
      case Poll(badge, press) => PollKeeps(net, s, badge, press);
      case EndFeedback(badge) => LeavesKeeps(net, s, badge, DoneAttempt(s.badges[badge].attempt));
      case EndBlackout(badge) => LeavesKeeps(net, s, badge, FailedAttempt(s.badges[badge].attempt));
      case ReceiveFailure(_) => ReportKeeps(net, s, e);
      case ReceiveDone(_) => ReportKeeps(net, s, e);
      case HeartbeatTimeout => TimeoutKeeps(net, s);
      case CloseActivity => ReportKeeps(net, s, e);
    }
  }

  lemma {:induction false} RunPlaced(net: Net, events: seq<Event>)
    ensures Placed(Run(net, events))
  {
    if events != [] {
      RunPlaced(net, events[..|events| - 1]);
      StepPlace(net, Run(net, events[..|events| - 1]), events[|events| - 1]);
    }
  }

  lemma {:induction false} RunTimed(net: Net, events: seq<Event>)
    requires Safe(net)
    ensures Timed(net, Run(net, events))
  {
    if events != [] {
      RunTimed(net, events[..|events| - 1]);
      RunPlaced(net, events[..|events| - 1]);
      StepKeeps(net, Run(net, events[..|events| - 1]), events[|events| - 1]);
    }
  }

  /** In every interleaving at most one badge is inside `wait_for_choice`. */
  lemma SingleHolder(net: Net, events: seq<Event>)
    requires Safe(net)
    ensures AtMostOneHolder(Run(net, events))
  {
    RunTimed(net, events);
    RunPlaced(net, events);
  }

  // ---------- the bound is tight ----------

  /** A is waiting on attempt 1 and the server is as given: A polls every
    millisecond while its budget lasts, and then at the very end of its gap.
  */
  function WaitingSince(delivered: nat, now: nat, server: Server): Protocol
    requires delivered <= now
  {
    var lastPoll := if now < delivered + HEARTBEAT_BUDGET_MS then now else delivered + HEARTBEAT_BUDGET_MS - 1;
    Protocol(now, 1, server, {}, map["A" := Badge.Waiting(1, delivered, lastPoll, false)], {})
  }

  lemma {:induction false} WaitsUntil(net: Net, events: seq<Event>, delivered: nat, from: nat, until: nat, server: Server)
    returns (longer: seq<Event>)
    requires net.pollGap >= 1 && delivered <= from <= until <= delivered + Grace(net)
    requires Run(net, events) == WaitingSince(delivered, from, server)
    ensures Run(net, longer) == WaitingSince(delivered, until, server)
    decreases until - from
  {
    if from == until {
      longer := events;
    } else {
      RunAppends(net, events, Elapse);
      var next := events + [Elapse];
      if from + 1 < delivered + HEARTBEAT_BUDGET_MS {
        RunAppends(net, next, Poll("A", NoPress));
        next := next + [Poll("A", NoPress)];
        var polled := Badge.Waiting(1, delivered, from + 1, false);
        assert map["A" := Badge.Waiting(1, delivered, from, false)]["A" := polled] == map["A" := polled];
      }
      longer := WaitsUntil(net, next, delivered, from + 1, until, server);
    }
  }

  /** Without holders time just passes. */
  lemma {:induction false} IdlesUntil(net: Net, events: seq<Event>, until: nat) returns (longer: seq<Event>)
    requires Run(net, events).now <= until
    requires forall badge :: !IsWaiting(Run(net, events), badge)
    ensures Run(net, longer) == Run(net, events).(now := until)
    decreases until - Run(net, events).now
  {
    var s := Run(net, events);
    if s.now == until {
      longer := events;
    } else {
      RunAppends(net, events, Elapse);
      assert forall badge :: badge in s.badges && s.badges[badge].Waiting? ==> IsWaiting(s, badge);
      assert Run(net, events + [Elapse]) == s.(now := s.now + 1);
      forall badge ensures !IsWaiting(Run(net, events + [Elapse]), badge) {
        assert !IsWaiting(s, badge);
      }
      longer := IdlesUntil(net, events + [Elapse], until);
    }
  }

  /** A gets the question as late as the network allows. */
  lemma LateDelivery(net: Net, delivered: nat) returns (events: seq<Event>)
    requires delivered <= net.latency
    ensures Run(net, events) == WaitingSince(delivered, delivered, InFlight(0))
  {
    RunAppends(net, [], Dispatch("A"));
    assert Run(net, []) == START;
    var task := Task("A", 1, 0);
    var s := Run(net, [] + [Dispatch("A")]);
    assert s == Protocol(0, 1, InFlight(0), {task}, map[], {});
    events := IdlesUntil(net, [] + [Dispatch("A")], delivered);
    RunAppends(net, events, DeliverTask(task));
    events := events + [DeliverTask(task)];
    assert {task} - {task} == {};
    assert map[]["A" := Badge.Waiting(1, delivered, delivered, false)] == map["A" := Badge.Waiting(1, delivered, delivered, false)];
  }

  /** B gets the question at once. */
  lemma SecondDelivery(net: Net, events: seq<Event>, s: Protocol) returns (longer: seq<Event>)
    requires Run(net, events) == s && IsWaiting(s, "A") && "B" !in s.badges && s.abandoned == {}
    requires s.server.Queued? && s.now >= s.server.notBefore
    ensures IsWaiting(Run(net, longer), "A") && IsWaiting(Run(net, longer), "B")
  {
    var task := Task("B", s.issued + 1, s.now);
    RunAppends(net, events, Dispatch("B"));
    RunAppends(net, events + [Dispatch("B")], DeliverTask(task));
    longer := events + [Dispatch("B")] + [DeliverTask(task)];
  }

  /** Beyond the bound two badges can show the same live question. */
  lemma TwoHolders(net: Net) returns (events: seq<Event>)
    requires !Safe(net) && net.pollGap >= 1
    ensures !AtMostOneHolder(Run(net, events))
  {
    var delivered := if net.latency < HEARTBEAT_TIMEOUT_MS then net.latency else HEARTBEAT_TIMEOUT_MS;
    var retry := HEARTBEAT_TIMEOUT_MS + RETRY_BACKOFF_MS;
    events := LateDelivery(net, delivered);
    events := WaitsUntil(net, events, delivered, delivered, HEARTBEAT_TIMEOUT_MS, InFlight(0));
    RunAppends(net, events, HeartbeatTimeout);
    events := events + [HeartbeatTimeout];
    events := WaitsUntil(net, events, delivered, HEARTBEAT_TIMEOUT_MS, retry, Queued(retry));
    var s := WaitingSince(delivered, retry, Queued(retry));
    assert IsWaiting(s, "A");
    events := SecondDelivery(net, events, s);
    assert IsWaiting(Run(net, events), "A") && IsWaiting(Run(net, events), "B") && "A" != "B";
  }

  /** At most one badge holds the question in every interleaving, exactly when
    delivery delay plus poll gap is at most timeout - budget + retry backoff.
  */
  lemma SingleHolderExactly(net: Net)
    requires net.pollGap >= 1
    ensures Safe(net) <==> forall events :: AtMostOneHolder(Run(net, events))
  {
    if Safe(net) {
      forall events ensures AtMostOneHolder(Run(net, events)) {
        SingleHolder(net, events);
      }
    } else {
      var events := TwoHolders(net);
    }
  }

  /** The badge's own numbers: with polls 20 ms apart any delay below
    timeout - budget - 20 ms is safe, whatever the retry policy.
  */
  lemma TwentyMillisecondPollIsSafe(net: Net)
    requires net.pollGap == 20 && net.latency < HEARTBEAT_TIMEOUT_MS - HEARTBEAT_BUDGET_MS - 20
    ensures forall events :: AtMostOneHolder(Run(net, events))
  {
    SingleHolderExactly(net);
  }

  // ---------- the deliberate crash ----------

  /** A badge that abandoned the question never waits on it again. */
  lemma {:induction false} AbandonedNeverWaits(net: Net, events: seq<Event>, badge: string)
    ensures badge in Run(net, events).abandoned ==> !IsWaiting(Run(net, events), badge)
  {
    if events != [] {
      AbandonedNeverWaits(net, events[..|events| - 1], badge);
    }
  }

  /** What the server sees last of a blacked-out attempt was sent before. */
  ghost predicate SilentBlackouts(net: Net, s: Protocol) {
    && (forall m :: m in s.mail && m.Beat? ==> m.sentAt <= s.now)
    && (s.server.InFlight? ==> s.server.lastBeat <= s.now)
    && (forall badge :: badge in s.badges && s.badges[badge].Blackout? ==> SilentSince(net, s, s.badges[badge]))
  }

  ghost predicate SilentSince(net: Net, s: Protocol, b: Badge)
    requires b.Blackout?
  {
    && b.since <= s.now
    && (forall m :: m in s.mail && m.Beat? && m.attempt == b.attempt ==> m.sentAt <= b.since)
    && (s.server.InFlight? && b.attempt == s.issued ==> s.server.lastBeat <= b.since + net.beatLatency)
  }

  /** Only its own badge could beat for a blacked-out attempt, and it does not. */
  lemma SilenceKept(net: Net, s: Protocol, e: Event, badge: string)
    requires Placed(s) && SilentBlackouts(net, s)
    requires badge in s.badges && s.badges[badge].Blackout?
    ensures SilentSince(net, Step(net, s, e), s.badges[badge])
  {
    assert SilentSince(net, s, s.badges[badge]);
    if e.SendBeat? && Enabled(net, s, e) {
      assert s.badges[e.badge].attempt != s.badges[badge].attempt;
    }
  }

  /** When a blackout starts every heartbeat of that attempt was already sent. */
  lemma SilenceStarts(net: Net, s: Protocol, badge: string)
    requires SilentBlackouts(net, s) && IsWaiting(s, badge)
    ensures SilentSince(net, Polled(s, badge, PanicPress), Blackout(s.badges[badge].attempt, s.now))
  {
  }

  lemma MailStaysSent(net: Net, s: Protocol, e: Event)
    requires SilentBlackouts(net, s)
    ensures var s' := Step(net, s, e);
      && (forall m :: m in s'.mail && m.Beat? ==> m.sentAt <= s'.now)
      && (s'.server.InFlight? ==> s'.server.lastBeat <= s'.now)
  {
  }

  lemma StepKeepsSilence(net: Net, s: Protocol, e: Event)
    requires Placed(s) && SilentBlackouts(net, s)
    ensures SilentBlackouts(net, Step(net, s, e))
  {
    var s' := Step(net, s, e);
    MailStaysSent(net, s, e);
    forall badge | badge in s'.badges && s'.badges[badge].Blackout? ensures SilentSince(net, s', s'.badges[badge]) {
      if badge in s.badges && s.badges[badge].Blackout? {
        SilenceKept(net, s, e, badge);
      } else {
        SilenceStarts(net, s, badge);
      }
    }
  }

  lemma {:induction false} RunSilent(net: Net, events: seq<Event>)
    ensures SilentBlackouts(net, Run(net, events))
  {
    if events != [] {
      RunSilent(net, events[..|events| - 1]);
      RunPlaced(net, events[..|events| - 1]);
      StepKeepsSilence(net, Run(net, events[..|events| - 1]), events[|events| - 1]);
    }
  }

  /** A badge back from its blackout finds the server's timer run out on the
    attempt it crashed on, if the server still has that attempt at all.
  */
  ghost predicate BlackoutsOutlast(s: Protocol) {
    forall badge :: badge in s.badges && s.badges[badge].Blackout?
      && s.now >= s.badges[badge].since + CRASH_BLACKOUT_MS
      && s.server.InFlight? && s.badges[badge].attempt == s.issued
      ==> s.now >= s.server.lastBeat + HEARTBEAT_TIMEOUT_MS
  }

  /** The other half: a heartbeat still on the wire can outlive the silence. */
  lemma SlowBeatDefeatsBlackout(net: Net) returns (events: seq<Event>)
    requires net.beatLatency > CRASH_BLACKOUT_MS - HEARTBEAT_TIMEOUT_MS
    ensures !BlackoutsOutlast(Run(net, events))
  {
    var beat := Beat(1, 0);
    events := LateDelivery(net, 0);
    RunAppends(net, events, SendBeat("A"));
    events := events + [SendBeat("A")];
    RunAppends(net, events, Poll("A", PanicPress));
    events := events + [Poll("A", PanicPress)];
    var s := Run(net, events);
    assert s.badges == map["A" := Blackout(1, 0)] && s.mail == {beat} && s.server == InFlight(0);
    events := IdlesUntil(net, events, CRASH_BLACKOUT_MS - HEARTBEAT_TIMEOUT_MS + 1);
    RunAppends(net, events, ReceiveBeat(beat));
    events := events + [ReceiveBeat(beat)];
    var t := Run(net, events);
    assert t.badges == s.badges && t.server == InFlight(t.now) && t.issued == 1;
    events := IdlesUntil(net, events, CRASH_BLACKOUT_MS);
    assert "A" in Run(net, events).badges;
  }

  /** The 16 s blackout outlasts the 15 s timeout in every interleaving exactly
    when a heartbeat request takes at most their difference.
  */
  lemma BlackoutOutlastsTimeoutExactly(net: Net)
    ensures net.beatLatency <= CRASH_BLACKOUT_MS - HEARTBEAT_TIMEOUT_MS
       <==> forall events :: BlackoutsOutlast(Run(net, events))
  {
    if net.beatLatency <= CRASH_BLACKOUT_MS - HEARTBEAT_TIMEOUT_MS {
      forall events ensures BlackoutsOutlast(Run(net, events)) {
        RunSilent(net, events);
      }
    } else {
      var events := SlowBeatDefeatsBlackout(net);
    }
  }
}
