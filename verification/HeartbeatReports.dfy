/** What becomes of an attempt: answered, given up or crashed, told from the
  events alone, and what the server makes of its report.
*/
module HeartbeatReports {
  import opened Contract
  import opened Heartbeat

  // ---------- what a badge was told ----------

  /** This event brings the badge its question, or an acknowledgement. */
  predicate Hears(net: Net, s: Protocol, e: Event, badge: string) {
    && ((e.DeliverTask? && e.task.Task? && e.task.badge == badge) || (e.DeliverAck? && e.badge == badge))
    && Enabled(net, s, e)
  }

  /** When the badge last heard from the server. */
  function LastHeard(net: Net, events: seq<Event>, badge: string): nat {
    if events == [] then 0
    else
      var earlier := events[..|events| - 1];
      if Hears(net, Run(net, earlier), events[|events| - 1], badge) then Run(net, earlier).now
      else LastHeard(net, earlier, badge)
  }

  /** Whether the badge was told to stop since it last got the question. */
  predicate ToldToStop(net: Net, events: seq<Event>, badge: string) {
    events != []
    && var earlier, e := events[..|events| - 1], events[|events| - 1];
       if e.DeliverTask? && Hears(net, Run(net, earlier), e, badge) then false
       else (e.DeliverStop? && e.badge == badge && Enabled(net, Run(net, earlier), e)) || ToldToStop(net, earlier, badge)
  }

  ghost predicate KnowsWhatItHeard(net: Net, events: seq<Event>, badge: string) {
    var s := Run(net, events);
    IsWaiting(s, badge) ==>
      s.badges[badge].lastAck == LastHeard(net, events, badge) && s.badges[badge].stopped == ToldToStop(net, events, badge)
  }

  /** A waiting badge knows when it last heard and whether to stop. */
  lemma {:induction false} WaitingKnows(net: Net, events: seq<Event>, badge: string)
    ensures KnowsWhatItHeard(net, events, badge)
  {
    if events != [] {
      WaitingKnows(net, events[..|events| - 1], badge);
    }
  }

  // ---------- presses ----------

  /** Event `k` is a press the badge still has the right to make on attempt
    `n`: not told to stop, and silent for less than ten seconds.
  */
  predicate PressesAt(net: Net, events: seq<Event>, k: nat, press: Press, badge: string, n: nat) {
    && k < |events| && events[k] == Poll(badge, press)
    && var s := Run(net, events[..k]);
       && badge in s.badges && s.badges[badge].Waiting? && s.badges[badge].attempt == n
       && !ToldToStop(net, events[..k], badge) && s.now < LastHeard(net, events[..k], badge) + 10_000
  }

  ghost predicate Answered(net: Net, events: seq<Event>, n: nat) {
    exists k: nat, badge :: PressesAt(net, events, k, AnswerPress, badge, n)
  }

  ghost predicate Crashed(net: Net, events: seq<Event>, n: nat) {
    exists k: nat, badge :: PressesAt(net, events, k, PanicPress, badge, n)
  }

  /** The last event is such a press. */
  predicate Presses(net: Net, events: seq<Event>, e: Event, press: Press, badge: string, n: nat) {
    && e == Poll(badge, press)
    && var s := Run(net, events);
       && badge in s.badges && s.badges[badge].Waiting? && s.badges[badge].attempt == n
       && !ToldToStop(net, events, badge) && s.now < LastHeard(net, events, badge) + 10_000
  }

  lemma PressesGrow(net: Net, events: seq<Event>, e: Event, k: nat, press: Press, badge: string, n: nat)
    ensures PressesAt(net, events + [e], k, press, badge, n)
       <==> PressesAt(net, events, k, press, badge, n) || (k == |events| && Presses(net, events, e, press, badge, n))
  {
    var longer := events + [e];
    assert k <= |events| ==> longer[..k] == events[..k];
    assert events[..|events|] == events;
  }

  /** An attempt is answered, or crashed, from such a press on. */
  lemma AnsweredGrows(net: Net, events: seq<Event>, e: Event, n: nat)
    ensures Answered(net, events + [e], n)
       <==> Answered(net, events, n) || exists badge :: Presses(net, events, e, AnswerPress, badge, n)
    ensures Crashed(net, events + [e], n)
       <==> Crashed(net, events, n) || exists badge :: Presses(net, events, e, PanicPress, badge, n)
  {
    forall k: nat, badge, press
      ensures PressesAt(net, events + [e], k, press, badge, n)
         <==> PressesAt(net, events, k, press, badge, n) || (k == |events| && Presses(net, events, e, press, badge, n))
    {
      PressesGrow(net, events, e, k, press, badge, n);
    }
    if badge :| Presses(net, events, e, AnswerPress, badge, n) {
      assert PressesAt(net, events + [e], |events|, AnswerPress, badge, n);
    }
    if badge :| Presses(net, events, e, PanicPress, badge, n) {
      assert PressesAt(net, events + [e], |events|, PanicPress, badge, n);
    }
  }

  // ---------- one event ----------

  /** Only three things move a badge: its task arrives, it presses, it leaves. */
  lemma BadgeStep(net: Net, s: Protocol, e: Event, badge: string)
    requires badge in Step(net, s, e).badges
    ensures var b' := Step(net, s, e).badges[badge];
      if badge !in s.badges then
        e.DeliverTask? && Enabled(net, s, e) && e.task.badge == badge && b'.Waiting? && b'.attempt == e.task.attempt
      else
        var b := s.badges[badge];
        && b'.attempt == b.attempt
        && (b'.Waiting? ==> b.Waiting?)
        && (b'.Feedback? ==> b.Feedback? || (b.Waiting? && e == Poll(badge, AnswerPress)))
        && (b'.Blackout? ==> b == b' || (b.Waiting? && e == Poll(badge, PanicPress) && b'.since == s.now))
  {
  }

  /** Where a report in the mail comes from. */
  lemma ReportStep(net: Net, s: Protocol, e: Event, m: Message)
    requires m in Step(net, s, e).mail && m !in s.mail && (m.DoneAttempt? || m.FailedAttempt?)
    ensures Enabled(net, s, e)
    ensures m.DoneAttempt? ==> e.EndFeedback? && s.badges[e.badge].Feedback? && s.badges[e.badge].attempt == m.attempt
    ensures m.FailedAttempt? ==>
      || (e.EndBlackout? && s.badges[e.badge].attempt == m.attempt)
      || (e.Poll? && s.badges[e.badge].attempt == m.attempt && e.badge !in Step(net, s, e).badges)
      || (e.DeliverTask? && e.task.attempt == m.attempt)
  {
  }

  lemma TaskStep(net: Net, s: Protocol, e: Event, m: Message)
    requires m in Step(net, s, e).mail && m !in s.mail && m.Task?
    ensures m.attempt == s.issued + 1 && Step(net, s, e).issued == s.issued + 1
  {
  }

  lemma IssuedGrows(net: Net, s: Protocol, e: Event)
    ensures s.issued <= Step(net, s, e).issued <= s.issued + 1
  {
  }

  /** A press counts exactly when the badge had the right to make it. */
  lemma PressCounts(net: Net, events: seq<Event>, badge: string, press: Press)
    requires IsWaiting(Run(net, events), badge)
    ensures var s, e := Run(net, events), Poll(badge, press);
      var s', n := Step(net, s, e), s.badges[badge].attempt;
      && ((badge in s'.badges && s'.badges[badge].Feedback?) <==> Presses(net, events, e, AnswerPress, badge, n))
      && ((badge in s'.badges && s'.badges[badge].Blackout?) <==> Presses(net, events, e, PanicPress, badge, n))
      && (badge !in s'.badges && press != Interrupted ==> !Presses(net, events, e, press, badge, n))
  {
    WaitingKnows(net, events, badge);
  }

  // ---------- the fate of an attempt ----------

  ghost predicate NotOnTheWay(s: Protocol, n: nat) {
    forall m :: m in s.mail && m.Task? ==> m.attempt != n
  }

  /** What may still be seen of an attempt after its answer, or its crash. */
  ghost predicate AfterAnswer(s: Protocol, n: nat) {
    && n <= s.issued && NotOnTheWay(s, n) && FailedAttempt(n) !in s.mail
    && forall badge :: badge in s.badges && s.badges[badge].attempt == n ==> s.badges[badge].Feedback?
  }

  ghost predicate AfterCrash(s: Protocol, n: nat) {
    && n <= s.issued && NotOnTheWay(s, n) && DoneAttempt(n) !in s.mail
    && forall badge :: badge in s.badges && s.badges[badge].attempt == n ==> s.badges[badge].Blackout?
  }

  ghost predicate Fates(net: Net, events: seq<Event>, n: nat) {
    var s := Run(net, events);
    && (Answered(net, events, n) ==> AfterAnswer(s, n))
    && (Crashed(net, events, n) ==> AfterCrash(s, n))
    && (DoneAttempt(n) in s.mail ==> Answered(net, events, n))
    && (forall badge :: badge in s.badges && s.badges[badge].attempt == n && s.badges[badge].Feedback? ==> Answered(net, events, n))
    && (forall badge :: badge in s.badges && s.badges[badge].attempt == n && s.badges[badge].Blackout? ==> Crashed(net, events, n))
  }

  lemma AfterAnswerStays(net: Net, s: Protocol, e: Event, n: nat)
    requires Placed(s) && AfterAnswer(s, n)
    ensures AfterAnswer(Step(net, s, e), n)
  {
    var s' := Step(net, s, e);
    IssuedGrows(net, s, e);
    forall m | m in s'.mail && m.Task? ensures m.attempt != n {
      if m !in s.mail { TaskStep(net, s, e, m); }
    }
    forall badge | badge in s'.badges && s'.badges[badge].attempt == n ensures s'.badges[badge].Feedback? {
      BadgeStep(net, s, e, badge);
    }
    if FailedAttempt(n) in s'.mail {
      ReportStep(net, s, e, FailedAttempt(n));
    }
  }

  lemma AfterCrashStays(net: Net, s: Protocol, e: Event, n: nat)
    requires Placed(s) && AfterCrash(s, n)
    ensures AfterCrash(Step(net, s, e), n)
  {
    var s' := Step(net, s, e);
    IssuedGrows(net, s, e);
    forall m | m in s'.mail && m.Task? ensures m.attempt != n {
      if m !in s.mail { TaskStep(net, s, e, m); }
    }
    forall badge | badge in s'.badges && s'.badges[badge].attempt == n ensures s'.badges[badge].Blackout? {
      BadgeStep(net, s, e, badge);
    }
    if DoneAttempt(n) in s'.mail {
      ReportStep(net, s, e, DoneAttempt(n));
    }
  }

  /** The press itself: the attempt was with this badge and nowhere else. */
  lemma PressSettles(net: Net, events: seq<Event>, e: Event, badge: string, n: nat)
    requires Placed(Run(net, events))
    ensures Presses(net, events, e, AnswerPress, badge, n) ==> AfterAnswer(Step(net, Run(net, events), e), n)
    ensures Presses(net, events, e, PanicPress, badge, n) ==>
      (DoneAttempt(n) !in Run(net, events).mail ==> AfterCrash(Step(net, Run(net, events), e), n))
  {
    var s := Run(net, events);
    if IsWaiting(s, badge) && s.badges[badge].attempt == n {
      WaitingKnows(net, events, badge);
    }
  }

  lemma FatesStay(net: Net, events: seq<Event>, e: Event, n: nat)
    requires Placed(Run(net, events)) && Fates(net, events, n)
    ensures Fates(net, events + [e], n)
  {
    var s, s' := Run(net, events), Run(net, events + [e]);
    RunAppends(net, events, e);
    AnsweredGrows(net, events, e, n);
    if Answered(net, events, n) {
      AfterAnswerStays(net, s, e, n);
    } else if badge :| Presses(net, events, e, AnswerPress, badge, n) {
      PressSettles(net, events, e, badge, n);
    }
    if Crashed(net, events, n) {
      AfterCrashStays(net, s, e, n);
    } else if badge :| Presses(net, events, e, PanicPress, badge, n) {
      PressSettles(net, events, e, badge, n);
    }
    forall badge | badge in s'.badges && s'.badges[badge].attempt == n
      ensures s'.badges[badge].Feedback? ==> Answered(net, events + [e], n)
      ensures s'.badges[badge].Blackout? ==> Crashed(net, events + [e], n)
    {
      BadgeStep(net, s, e, badge);
      if IsWaiting(s, badge) && e.Poll? && e.badge == badge {
        PressCounts(net, events, badge, e.press);
      }
    }
    if DoneAttempt(n) in s'.mail && DoneAttempt(n) !in s.mail {
      ReportStep(net, s, e, DoneAttempt(n));
    }
  }

  lemma {:induction false} FatesHold(net: Net, events: seq<Event>, n: nat)
    ensures Fates(net, events, n)
  {
    if events != [] {
      var earlier, e := events[..|events| - 1], events[|events| - 1];
      assert events == earlier + [e];
      FatesHold(net, earlier, n);
      RunPlaced(net, earlier);
      FatesStay(net, earlier, e, n);
    }
  }

  /** In every interleaving: an attempt that was answered is never reported as
    failed, one that crashed never as done, and only an answered one is
    reported as done.
  */
  lemma ReportsTellTheTruth(net: Net, events: seq<Event>, n: nat)
    ensures Answered(net, events, n) ==> FailedAttempt(n) !in Run(net, events).mail
    ensures Crashed(net, events, n) ==> DoneAttempt(n) !in Run(net, events).mail
    ensures DoneAttempt(n) in Run(net, events).mail ==> Answered(net, events, n)
  {
    FatesHold(net, events, n);
  }

  // ---------- no attempt is lost ----------

  /** A report the server has taken from its mail. */
  ghost predicate Received(net: Net, events: seq<Event>, m: Message) {
    exists k: nat :: ReceivedAt(net, events, k, m)
  }

  predicate ReceivedAt(net: Net, events: seq<Event>, k: nat, m: Message) {
    k < |events| && m in Run(net, events[..k]).mail
    && ((m.DoneAttempt? && events[k] == ReceiveDone(m)) || (m.FailedAttempt? && events[k] == ReceiveFailure(m)))
  }

  lemma ReceivedGrows(net: Net, events: seq<Event>, e: Event, m: Message)
    ensures Received(net, events + [e], m)
       <==> Received(net, events, m)
            || (m in Run(net, events).mail && ((m.DoneAttempt? && e == ReceiveDone(m)) || (m.FailedAttempt? && e == ReceiveFailure(m))))
  {
    var longer := events + [e];
    assert longer[..|events|] == events;
    if k: nat :| ReceivedAt(net, events, k, m) {
      assert longer[..k] == events[..k];
      assert ReceivedAt(net, longer, k, m);
    }
    if k: nat :| ReceivedAt(net, longer, k, m) {
      if k < |events| {
        assert longer[..k] == events[..k];
        assert ReceivedAt(net, events, k, m);
      }
    }
    if m in Run(net, events).mail && ((m.DoneAttempt? && e == ReceiveDone(m)) || (m.FailedAttempt? && e == ReceiveFailure(m))) {
      assert ReceivedAt(net, longer, |events|, m);
    }
  }

  ghost predicate UnderWay(s: Protocol, n: nat) {
    exists m :: m in s.mail && m.Task? && m.attempt == n
  }

  ghost predicate WithABadge(s: Protocol, n: nat) {
    exists badge :: badge in s.badges && s.badges[badge].attempt == n
  }

  ghost predicate Tracked(net: Net, events: seq<Event>, n: nat) {
    var s := Run(net, events);
    || UnderWay(s, n) || WithABadge(s, n)
    || DoneAttempt(n) in s.mail || FailedAttempt(n) in s.mail
    || Received(net, events, DoneAttempt(n)) || Received(net, events, FailedAttempt(n))
  }

  /** One event never loses an attempt that is under way, held or reported. */
  lemma TaskKept(net: Net, s: Protocol, e: Event, m: Message)
    requires m in s.mail && m.Task?
    ensures var s' := Step(net, s, e);
      UnderWay(s', m.attempt) || WithABadge(s', m.attempt) || FailedAttempt(m.attempt) in s'.mail
  {
    var s' := Step(net, s, e);
    if m in s'.mail {
      assert UnderWay(s', m.attempt);
    } else if m.badge in s'.badges && s'.badges[m.badge].attempt == m.attempt {
      assert WithABadge(s', m.attempt);
    }
  }

  lemma HoldKept(net: Net, s: Protocol, e: Event, badge: string)
    requires badge in s.badges
    ensures var s', n := Step(net, s, e), s.badges[badge].attempt;
      WithABadge(s', n) || DoneAttempt(n) in s'.mail || FailedAttempt(n) in s'.mail
  {
    var s', n := Step(net, s, e), s.badges[badge].attempt;
    if badge in s'.badges {
      assert s'.badges[badge].attempt == n;
    }
  }

  lemma ReportKept(net: Net, s: Protocol, e: Event, m: Message)
    requires m in s.mail && (m.DoneAttempt? || m.FailedAttempt?)
    ensures m in Step(net, s, e).mail
      || (m.DoneAttempt? && e == ReceiveDone(m)) || (m.FailedAttempt? && e == ReceiveFailure(m))
  {
  }

  lemma TrackedStays(net: Net, events: seq<Event>, e: Event, n: nat)
    requires Tracked(net, events, n)
    ensures Tracked(net, events + [e], n)
  {
    var s := Run(net, events);
    RunAppends(net, events, e);
    ReceivedGrows(net, events, e, DoneAttempt(n));
    ReceivedGrows(net, events, e, FailedAttempt(n));
    if m :| m in s.mail && m.Task? && m.attempt == n {
      TaskKept(net, s, e, m);
    } else if badge :| badge in s.badges && s.badges[badge].attempt == n {
      HoldKept(net, s, e, badge);
    } else if DoneAttempt(n) in s.mail {
      ReportKept(net, s, e, DoneAttempt(n));
    } else if FailedAttempt(n) in s.mail {
      ReportKept(net, s, e, FailedAttempt(n));
    }
  }

  /** In every interleaving each attempt handed out is on its way, with a badge,
    or reported; what the network loses stays on its way for good.
  */
  lemma {:induction false} NoAttemptIsLost(net: Net, events: seq<Event>, n: nat)
    requires 1 <= n <= Run(net, events).issued
    ensures Tracked(net, events, n)
  {
    var earlier, e := events[..|events| - 1], events[|events| - 1];
    assert events == earlier + [e];
    if n <= Run(net, earlier).issued {
      NoAttemptIsLost(net, earlier, n);
      TrackedStays(net, earlier, e, n);
    } else {
      var task := Task(e.badge, n, Run(net, earlier).now);
      assert task in Run(net, events).mail && task.Task? && task.attempt == n;
    }
  }

  /** Nothing is left of an attempt whose report was received. */
  ghost predicate Gone(s: Protocol, n: nat) {
    && n <= s.issued && NotOnTheWay(s, n) && DoneAttempt(n) !in s.mail && FailedAttempt(n) !in s.mail
    && forall badge :: badge in s.badges ==> s.badges[badge].attempt != n
  }

  lemma GoneStays(net: Net, s: Protocol, e: Event, n: nat)
    requires Gone(s, n)
    ensures Gone(Step(net, s, e), n)
  {
    var s' := Step(net, s, e);
    IssuedGrows(net, s, e);
    forall m | m in s'.mail && m.attempt == n ensures !m.Task? && !m.DoneAttempt? && !m.FailedAttempt? {
      if m !in s.mail {
        if m.Task? { TaskStep(net, s, e, m); }
        if m.DoneAttempt? || m.FailedAttempt? { ReportStep(net, s, e, m); }
      }
    }
    forall badge | badge in s'.badges ensures s'.badges[badge].attempt != n {
      BadgeStep(net, s, e, badge);
    }
  }

  /** A report leaves the mail with the last of its attempt. */
  lemma ReceiptClears(net: Net, s: Protocol, m: Message)
    requires Placed(s) && m in s.mail && OneReport(s, m.attempt)
    ensures m.DoneAttempt? ==> Gone(Step(net, s, ReceiveDone(m)), m.attempt)
    ensures m.FailedAttempt? ==> Gone(Step(net, s, ReceiveFailure(m)), m.attempt)
  {
  }

  predicate OneReport(s: Protocol, n: nat) {
    !(DoneAttempt(n) in s.mail && FailedAttempt(n) in s.mail)
  }

  lemma {:induction false} ReceivedIsGone(net: Net, events: seq<Event>, n: nat)
    ensures Received(net, events, DoneAttempt(n)) || Received(net, events, FailedAttempt(n)) ==> Gone(Run(net, events), n)
  {
    if events != [] {
      var earlier, e := events[..|events| - 1], events[|events| - 1];
      assert events == earlier + [e];
      var s := Run(net, earlier);
      ReceivedIsGone(net, earlier, n);
      RunPlaced(net, earlier);
      FatesHold(net, earlier, n);
      ReceivedGrows(net, earlier, e, DoneAttempt(n));
      ReceivedGrows(net, earlier, e, FailedAttempt(n));
      if Received(net, earlier, DoneAttempt(n)) || Received(net, earlier, FailedAttempt(n)) {
        GoneStays(net, s, e, n);
      } else if DoneAttempt(n) in s.mail && e == ReceiveDone(DoneAttempt(n)) {
        ReceiptClears(net, s, DoneAttempt(n));
      } else if FailedAttempt(n) in s.mail && e == ReceiveFailure(FailedAttempt(n)) {
        ReceiptClears(net, s, FailedAttempt(n));
      }
    }
  }

  /** An answer always gets through, if anything does: an answered attempt is in
    its feedback, reported as done, or was received as done.
  */
  lemma AnswerIsOnItsWay(net: Net, events: seq<Event>, n: nat)
    requires Answered(net, events, n) && n >= 1
    ensures var s := Run(net, events);
      || (exists badge :: badge in s.badges && s.badges[badge] == Feedback(n))
      || DoneAttempt(n) in s.mail
      || Received(net, events, DoneAttempt(n))
    ensures !Received(net, events, FailedAttempt(n))
  {
    FatesHold(net, events, n);
    NoAttemptIsLost(net, events, n);
    AnsweredNotFailed(net, events, n);
    var s := Run(net, events);
    if badge :| badge in s.badges && s.badges[badge].attempt == n {
      assert s.badges[badge] == Feedback(n);
    }
  }

  lemma {:induction false} AnsweredNotFailed(net: Net, events: seq<Event>, n: nat)
    ensures Answered(net, events, n) ==> !Received(net, events, FailedAttempt(n))
  {
    if events != [] {
      var earlier, e := events[..|events| - 1], events[|events| - 1];
      assert events == earlier + [e];
      AnsweredNotFailed(net, earlier, n);
      FatesHold(net, earlier, n);
      ReceivedIsGone(net, earlier, n);
      AnsweredGrows(net, earlier, e, n);
      ReceivedGrows(net, earlier, e, FailedAttempt(n));
    }
  }

  // ---------- what the server does ----------

  /** A closed question is never handed out again. */
  lemma {:induction false} ClosedForGood(net: Net, events: seq<Event>, more: seq<Event>)
    requires Run(net, events).server.Closed?
    ensures Run(net, events + more).server.Closed? && Run(net, events + more).issued == Run(net, events).issued
  {
    if more == [] {
      assert events + more == events;
    } else {
      var earlier, e := more[..|more| - 1], more[|more| - 1];
      ClosedForGood(net, events, earlier);
      assert events + more == events + earlier + [e];
      RunAppends(net, events + earlier, e);
    }
  }

  /** One answer is the end of a question: once the report of an answered
    attempt reaches a server that still has that attempt in flight, the
    question is closed and never handed out again.
  */
  lemma AnswerClosesTheQuestion(net: Net, events: seq<Event>, n: nat, more: seq<Event>)
    requires var s := Run(net, events); DoneAttempt(n) in s.mail && s.server.InFlight? && s.issued == n
    ensures Answered(net, events, n)
    ensures var later := Run(net, events + [ReceiveDone(DoneAttempt(n))] + more);
      later.server.Closed? && later.issued == n
  {
    FatesHold(net, events, n);
    RunAppends(net, events, ReceiveDone(DoneAttempt(n)));
    ClosedForGood(net, events + [ReceiveDone(DoneAttempt(n))], more);
  }

  /** Event `k` closes the question: the Workflow lets it go, or the report of
    the attempt in flight is a done one.
  */
  predicate ClosesAt(net: Net, events: seq<Event>, k: nat) {
    k < |events|
    && (events[k] == CloseActivity
        || (events[k].ReceiveDone? && ReceivedAt(net, events, k, events[k].done)
            && Run(net, events[..k]).server.InFlight? && events[k].done.attempt == Run(net, events[..k]).issued))
  }

  /** In every interleaving the question is closed exactly if some event closed
    it; so only an answer closes it that the Workflow did not let go.
  */
  lemma {:induction false} ClosedExactly(net: Net, events: seq<Event>)
    ensures Run(net, events).server.Closed? <==> exists k: nat :: ClosesAt(net, events, k)
  {
    if events != [] {
      var earlier, e := events[..|events| - 1], events[|events| - 1];
      assert events == earlier + [e];
      ClosedExactly(net, earlier);
      assert forall k: nat :: k < |earlier| ==> events[..k] == earlier[..k];
      if k: nat :| ClosesAt(net, earlier, k) {
        ClosedForGood(net, earlier, [e]);
        assert ClosesAt(net, events, k);
      } else if Run(net, events).server.Closed? {
        assert ClosesAt(net, events, |earlier|);
      }
      if k: nat :| ClosesAt(net, events, k) {
        assert k < |earlier| ==> ClosesAt(net, earlier, k);
      }
    }
  }

  /** The server loses the attempt in flight: its badge reports a failure, or
    its heartbeats stayed out.
  */
  predicate TakesBack(net: Net, s: Protocol, e: Event) {
    s.server.InFlight? && Enabled(net, s, e)
    && (e == HeartbeatTimeout || (e.ReceiveFailure? && e.failure.attempt == s.issued))
  }

  predicate Quiet(events: seq<Event>) {
    forall k :: 0 <= k < |events| ==> !events[k].Dispatch? && events[k] != CloseActivity
  }

  lemma QueuedStep(net: Net, s: Protocol, e: Event)
    requires s.server.Queued? && !e.Dispatch? && e != CloseActivity
    ensures Step(net, s, e).server == s.server && Step(net, s, e).issued == s.issued
  {
  }

  lemma {:induction false} RetryWaits(net: Net, events: seq<Event>, e: Event, more: seq<Event>)
    requires TakesBack(net, Run(net, events), e) && Quiet(more)
    ensures var s, later := Run(net, events), Run(net, events + [e] + more);
      later.server == Queued(s.now + 250) && later.issued == s.issued
  {
    if more == [] {
      assert events + [e] + more == events + [e];
      RunAppends(net, events, e);
    } else {
      var earlier, last := more[..|more| - 1], more[|more| - 1];
      RetryWaits(net, events, e, earlier);
      assert events + [e] + more == events + [e] + earlier + [last];
      RunAppends(net, events + [e] + earlier, last);
      QueuedStep(net, Run(net, events + [e] + earlier), last);
    }
  }

  /** An attempt that was lost is handed out again as the next attempt, to any
    badge, exactly when 250 ms have gone by.
  */
  lemma LostAttemptIsRetried(net: Net, events: seq<Event>, e: Event, more: seq<Event>, badge: string)
    requires TakesBack(net, Run(net, events), e) && Quiet(more)
    ensures var s, later := Run(net, events), Run(net, events + [e] + more);
      var next := Run(net, events + [e] + more + [Dispatch(badge)]);
      if later.now >= s.now + 250 then
        next.issued == s.issued + 1 && next.server == InFlight(later.now) && Task(badge, s.issued + 1, later.now) in next.mail
      else next == later
  {
    RetryWaits(net, events, e, more);
    RunAppends(net, events + [e] + more, Dispatch(badge));
  }

  /** Event `j` shows the server the attempt in flight is alive. */
  predicate AliveAt(net: Net, events: seq<Event>, j: nat) {
    j < |events|
    && var s := Run(net, events[..j]);
       && Enabled(net, s, events[j])
       && (events[j].Dispatch?
           || (events[j].ReceiveBeat? && s.server.InFlight? && events[j].beat.attempt == s.issued))
  }

  /** The server's last beat never goes back, and a sign of life sets it. */
  lemma LastBeatStep(net: Net, s: Protocol, e: Event)
    requires s.server.InFlight? ==> s.server.lastBeat <= s.now
    ensures var s' := Step(net, s, e);
      && s.now <= s'.now
      && (s'.server.InFlight? ==> s'.server.lastBeat <= s'.now && s'.server.lastBeat >= if s.server.InFlight? then s.server.lastBeat else s.now)
      && (Enabled(net, s, e) && (e.Dispatch? || (e.ReceiveBeat? && s.server.InFlight? && e.beat.attempt == s.issued)) ==>
            s'.server == InFlight(s.now))
  {
  }

  lemma {:induction false} LastBeatIsLast(net: Net, events: seq<Event>, j: nat)
    requires AliveAt(net, events, j) && Run(net, events).server.InFlight?
    ensures Run(net, events[..j]).now <= Run(net, events).server.lastBeat <= Run(net, events).now
  {
    var earlier, e := events[..|events| - 1], events[|events| - 1];
    NeverAhead(net, earlier);
    LastBeatStep(net, Run(net, earlier), e);
    if j < |earlier| {
      assert events[..j] == earlier[..j];
      TimeGoesOn(net, earlier, j);
      if Run(net, earlier).server.InFlight? {
        LastBeatIsLast(net, earlier, j);
      }
    } else {
      assert events[..j] == earlier;
    }
  }

  lemma {:induction false} NeverAhead(net: Net, events: seq<Event>)
    ensures Run(net, events).server.InFlight? ==> Run(net, events).server.lastBeat <= Run(net, events).now
  {
    if events != [] {
      NeverAhead(net, events[..|events| - 1]);
      LastBeatStep(net, Run(net, events[..|events| - 1]), events[|events| - 1]);
    }
  }

  lemma {:induction false} TimeGoesOn(net: Net, events: seq<Event>, j: nat)
    requires j <= |events|
    ensures Run(net, events[..j]).now <= Run(net, events).now
  {
    if j == |events| {
      assert events[..j] == events;
    } else {
      TimeGoesOn(net, events[..|events| - 1], j);
      assert events[..|events| - 1][..j] == events[..j];
    }
  }

  /** The heartbeat timer takes an attempt away only after fifteen seconds
    without a sign of life.
  */
  lemma TimeoutMeansSilence(net: Net, events: seq<Event>, j: nat)
    requires Enabled(net, Run(net, events), HeartbeatTimeout) && AliveAt(net, events, j)
    ensures Run(net, events[..j]).now + 15_000 <= Run(net, events).now
  {
    LastBeatIsLast(net, events, j);
  }

  // ---------- what the server replies ----------

  /** The attempt a heartbeat is for is the one in flight. */
  predicate Serves(s: Protocol, n: nat) {
    s.server.InFlight? && s.issued == n
  }

  lemma ServesStep(net: Net, s: Protocol, e: Event, n: nat)
    requires n <= s.issued && !Serves(s, n)
    ensures !Serves(Step(net, s, e), n)
  {
  }

  lemma StopStep(net: Net, s: Protocol, e: Event, n: nat)
    requires Stop(n) in Step(net, s, e).mail && Stop(n) !in s.mail
    ensures e.ReceiveBeat? && e.beat in s.mail && e.beat.attempt == n && !Serves(s, n)
  {
  }

  /** A stop is never out for the attempt in flight. */
  lemma {:induction false} StopsAreStale(net: Net, events: seq<Event>, n: nat)
    ensures Stop(n) in Run(net, events).mail ==> n <= Run(net, events).issued && !Serves(Run(net, events), n)
  {
    if events != [] && Stop(n) in Run(net, events).mail {
      var earlier, e := events[..|events| - 1], events[|events| - 1];
      var s := Run(net, earlier);
      StopsAreStale(net, earlier, n);
      if Stop(n) !in s.mail {
        StopStep(net, s, e, n);
        RunPlaced(net, earlier);
      }
      IssuedGrows(net, s, e);
      ServesStep(net, s, e, n);
    }
  }

  /** A heartbeat is acknowledged exactly while its attempt is in flight, and
    answered with a stop otherwise.
  */
  lemma BeatIsAnswered(net: Net, events: seq<Event>, beat: Message)
    requires Enabled(net, Run(net, events), ReceiveBeat(beat))
    ensures var s, s' := Run(net, events), Run(net, events + [ReceiveBeat(beat)]);
      && (if Serves(s, beat.attempt) then Ack(beat.attempt, s.now) in s'.mail else Stop(beat.attempt) in s'.mail)
      && (Stop(beat.attempt) in s'.mail <==> !Serves(s, beat.attempt))
      && s'.issued == s.issued && s'.badges == s.badges
  {
    RunAppends(net, events, ReceiveBeat(beat));
    StopsAreStale(net, events, beat.attempt);
  }

  // ---------- crashes ----------

  /** A crashed attempt sits out sixteen seconds before anything is reported. */
  ghost predicate SitsOut(s: Protocol, badge: string, n: nat, since: nat) {
    && badge in s.abandoned && since <= s.now
    && ((badge in s.badges && s.badges[badge] == Blackout(n, since)) || s.now >= since + 16_000)
  }

  lemma {:induction false} CrashSitsOut(net: Net, events: seq<Event>, k: nat, badge: string, n: nat)
    requires PressesAt(net, events, k, PanicPress, badge, n)
    ensures SitsOut(Run(net, events), badge, n, Run(net, events[..k]).now)
  {
    var earlier, e := events[..|events| - 1], events[|events| - 1];
    assert events == earlier + [e];
    PressesGrow(net, earlier, e, k, PanicPress, badge, n);
    if k < |earlier| {
      assert events[..k] == earlier[..k];
      CrashSitsOut(net, earlier, k, badge, n);
    } else {
      assert events[..k] == earlier;
      WaitingKnows(net, earlier, badge);
    }
  }

  /** After a badge crashes on the question it never waits for an answer to it
    again, its attempt is never reported as done, and its failure is not
    reported before sixteen seconds have gone by.
  */
  lemma CrashIsHonoured(net: Net, events: seq<Event>, k: nat, badge: string, n: nat)
    requires PressesAt(net, events, k, PanicPress, badge, n)
    ensures var s := Run(net, events);
      && badge in s.abandoned && !IsWaiting(s, badge)
      && DoneAttempt(n) !in s.mail
      && (FailedAttempt(n) in s.mail ==> s.now >= Run(net, events[..k]).now + 16_000)
  {
    CrashSitsOut(net, events, k, badge, n);
    AbandonedNeverWaits(net, events, badge);
    FatesHold(net, events, n);
    RunPlaced(net, events);
  }

  /** Nothing else makes a badge refuse the question. */
  lemma {:induction false} AbandonedOnlyByCrash(net: Net, events: seq<Event>, badge: string)
    ensures badge in Run(net, events).abandoned <==> exists k: nat, n: nat :: PressesAt(net, events, k, PanicPress, badge, n)
  {
    if k: nat, n: nat :| PressesAt(net, events, k, PanicPress, badge, n) {
      CrashSitsOut(net, events, k, badge, n);
    }
    if events != [] && badge in Run(net, events).abandoned {
      var earlier, e := events[..|events| - 1], events[|events| - 1];
      assert events == earlier + [e];
      AbandonedOnlyByCrash(net, earlier, badge);
      if k: nat, n: nat :| PressesAt(net, earlier, k, PanicPress, badge, n) {
        PressesGrow(net, earlier, e, k, PanicPress, badge, n);
      } else {
        var n := Run(net, earlier).badges[badge].attempt;
        WaitingKnows(net, earlier, badge);
        PressesGrow(net, earlier, e, |earlier|, PanicPress, badge, n);
      }
    }
  }
}
