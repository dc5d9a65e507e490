/** Handoff accounting: what the attempt and reassignment counters count. */
module RoundHandoffs {
  import opened Wrappers
  import opened Contract
  import opened Decimal
  import opened GameSnapshots
  import opened Deck
  import opened Round
  import opened RoundFrames

  lemma KeyInjective(q: string, m: nat, q': string, n: nat)
    requires AttemptKey(q, m) == AttemptKey(q', n)
    ensures q == q' && m == n
  {
    GlueInjective(q, m, q', n, ":");
  }

  /** The (question, attempt) pairs that were reported. */
  ghost function Pairs(reported: seq<BadgeEvent>): set<(string, nat)> {
    set i | 0 <= i < |reported| :: (reported[i].questionId, reported[i].attempt)
  }

  ghost function Questions(reported: seq<BadgeEvent>): set<string> {
    set i | 0 <= i < |reported| :: reported[i].questionId
  }

  /** The last report about a question, if any. */
  function LastReport(reported: seq<BadgeEvent>, q: string): Option<BadgeEvent> {
    if reported == [] then None
    else if reported[|reported| - 1].questionId == q then Some(reported[|reported| - 1])
    else LastReport(reported[..|reported| - 1], q)
  }

  /** The part of a round the handoff counters live in. */
  datatype Ledger = Ledger(
    assignments: map<string, BadgeEvent>, seen: set<string>, attempts: nat, reassignments: nat, timeouts: nat,
    reported: seq<BadgeEvent>)

  function LedgerOf(r: Round): Ledger {
    Ledger(r.assignments, r.attemptsSeen, r.snap.attempts, r.snap.reassignments, r.snap.heartbeatTimeouts, r.reported)
  }

  function Report(l: Ledger, event: BadgeEvent): Ledger {
    var key := AttemptKey(event.questionId, event.attempt);
    var moved := if Reassigns(l.assignments, event) then 1 else 0;
    Ledger(l.assignments[event.questionId := event], l.seen + {key},
           l.attempts + (if key in l.seen then 0 else 1),
           l.reassignments + moved, l.timeouts + moved, l.reported + [event])
  }

  lemma ActivityStartedReports(r: Round, event: BadgeEvent)
    ensures LedgerOf(ActivityStarted(r, event)) == Report(LedgerOf(r), event)
  {
  }

  ghost predicate KeysMatch(l: Ledger) {
    forall q, n: nat :: AttemptKey(q, n) in l.seen <==> (q, n) in Pairs(l.reported)
  }

  /** Each question is assigned as it was last reported. */
  ghost predicate AssignmentsCurrent(l: Ledger) {
    forall q :: LastReport(l.reported, q) == if q in l.assignments then Some(l.assignments[q]) else None
  }

  /** The counters mean what they say. */
  ghost predicate Counted(l: Ledger) {
    && l.attempts == |Pairs(l.reported)|
    && l.timeouts == l.reassignments
  }

  lemma PairsGrow(reported: seq<BadgeEvent>, event: BadgeEvent)
    ensures Pairs(reported + [event]) == Pairs(reported) + {(event.questionId, event.attempt)}
    ensures Questions(reported + [event]) == Questions(reported) + {event.questionId}
  {
    var longer := reported + [event];
    assert longer[|reported|] == event;
    forall i | 0 <= i < |reported|
      ensures (reported[i].questionId, reported[i].attempt) in Pairs(longer) && reported[i].questionId in Questions(longer)
    {
      assert longer[i] == reported[i];
    }
    assert (event.questionId, event.attempt) == (longer[|reported|].questionId, longer[|reported|].attempt);
    assert (event.questionId, event.attempt) in Pairs(longer);
    assert Pairs(longer) <= Pairs(reported) + {(event.questionId, event.attempt)};
  }

  lemma ReportKeepsCount(l: Ledger, event: BadgeEvent)
    requires KeysMatch(l) && Counted(l)
    ensures KeysMatch(Report(l, event)) && Counted(Report(l, event))
  {
    var l' := Report(l, event);
    PairsGrow(l.reported, event);
    assert AttemptKey(event.questionId, event.attempt) in l.seen
      <==> (event.questionId, event.attempt) in Pairs(l.reported);
    forall q, n: nat ensures AttemptKey(q, n) in l'.seen <==> (q, n) in Pairs(l'.reported) {
      if AttemptKey(q, n) == AttemptKey(event.questionId, event.attempt) {
        KeyInjective(q, n, event.questionId, event.attempt);
      }
    }
  }

  lemma ReportKeepsAssignments(l: Ledger, event: BadgeEvent)
    requires AssignmentsCurrent(l)
    ensures AssignmentsCurrent(Report(l, event))
  {
    assert (l.reported + [event])[..|l.reported|] == l.reported;
  }

  lemma {:induction false} LastReportExists(reported: seq<BadgeEvent>, q: string)
    ensures LastReport(reported, q).Some? <==> q in Questions(reported)
  {
    if reported != [] {
      var earlier, last := reported[..|reported| - 1], reported[|reported| - 1];
      LastReportExists(earlier, q);
      assert reported == earlier + [last];
      PairsGrow(earlier, last);
    }
  }

  // ---------- reassignments against attempts ----------

  /** A report that moves its question to another badge. */
  predicate IsMove(earlier: seq<BadgeEvent>, event: BadgeEvent) {
    var last := LastReport(earlier, event.questionId);
    last.Some? && last.value.badgeId != event.badgeId && last.value.attempt < event.attempt
  }

  ghost predicate Repeats(earlier: seq<BadgeEvent>, event: BadgeEvent) {
    (event.questionId, event.attempt) in Pairs(earlier)
  }

  /** Moves by a pair that was already reported. */
  ghost function StaleMoves(reported: seq<BadgeEvent>): nat {
    if reported == [] then 0
    else
      var earlier, last := reported[..|reported| - 1], reported[|reported| - 1];
      StaleMoves(earlier) + if IsMove(earlier, last) && Repeats(earlier, last) then 1 else 0
  }

  /** New pairs that are neither a question's first report nor a move. */
  ghost function QuietRetries(reported: seq<BadgeEvent>): nat {
    if reported == [] then 0
    else
      var earlier, last := reported[..|reported| - 1], reported[|reported| - 1];
      QuietRetries(earlier)
      + if !Repeats(earlier, last) && LastReport(earlier, last.questionId).Some? && !IsMove(earlier, last) then 1 else 0
  }

  ghost predicate Accounted(l: Ledger) {
    l.attempts + StaleMoves(l.reported) == l.reassignments + |l.assignments| + QuietRetries(l.reported)
  }

  lemma ReportKeepsAccount(l: Ledger, event: BadgeEvent)
    requires KeysMatch(l) && AssignmentsCurrent(l) && Accounted(l)
    ensures Accounted(Report(l, event))
  {
    var q := event.questionId;
    assert (l.reported + [event])[..|l.reported|] == l.reported;
    assert LastReport(l.reported, q) == if q in l.assignments then Some(l.assignments[q]) else None;
    assert Repeats(l.reported, event) <==> AttemptKey(q, event.attempt) in l.seen;
    if Repeats(l.reported, event) {
      LastReportExists(l.reported, q);
    }
    AssignmentsGrow(l.assignments, event);
  }

  /** Each question's attempts are reported in nondecreasing order. */
  ghost predicate AttemptsInOrder(reported: seq<BadgeEvent>) {
    forall i, j :: 0 <= i < j < |reported| && reported[i].questionId == reported[j].questionId ==>
      reported[i].attempt <= reported[j].attempt
  }

  /** No attempt at a question is reported twice: a badge builds one report for
    an attempt and sends it once.
  */
  ghost predicate ReportedOnce(reported: seq<BadgeEvent>) {
    forall i, j :: 0 <= i < j < |reported| && reported[i].questionId == reported[j].questionId ==>
      reported[i].attempt != reported[j].attempt
  }

  /** In order, no earlier attempt at a question exceeds the last one. */
  lemma {:induction false} LastIsHighest(reported: seq<BadgeEvent>, q: string)
    requires AttemptsInOrder(reported) && LastReport(reported, q).Some?
    ensures forall i :: 0 <= i < |reported| && reported[i].questionId == q ==> reported[i].attempt <= LastReport(reported, q).value.attempt
  {
    var earlier, last := reported[..|reported| - 1], reported[|reported| - 1];
    if last.questionId != q {
      LastIsHighest(earlier, q);
      assert forall i :: 0 <= i < |earlier| ==> reported[i] == earlier[i];
    }
  }

  /** Attempts in order, or each reported once: then nothing moves stale. */
  lemma {:induction false} NoStaleMoves(reported: seq<BadgeEvent>)
    requires AttemptsInOrder(reported) || ReportedOnce(reported)
    ensures StaleMoves(reported) == 0
  {
    if reported != [] {
      var earlier, last := reported[..|reported| - 1], reported[|reported| - 1];
      assert forall i :: 0 <= i < |earlier| ==> earlier[i] == reported[i];
      NoStaleMoves(earlier);
      if IsMove(earlier, last) && AttemptsInOrder(reported) {
        LastIsHighest(earlier, last.questionId);
      }
    }
  }

  lemma AssignmentsGrow(assignments: map<string, BadgeEvent>, event: BadgeEvent)
    ensures |assignments[event.questionId := event]| == |assignments| + if event.questionId in assignments then 0 else 1
  {
    var next := assignments[event.questionId := event];
    assert next.Keys == assignments.Keys + {event.questionId};
    assert |next| == |next.Keys| && |assignments| == |assignments.Keys|;
  }

  ghost predicate LedgerBooks(l: Ledger) {
    KeysMatch(l) && AssignmentsCurrent(l) && Counted(l) && Accounted(l)
  }

  lemma ReportKeepsBooks(l: Ledger, event: BadgeEvent)
    requires LedgerBooks(l)
    ensures LedgerBooks(Report(l, event))
  {
    ReportKeepsCount(l, event);
    ReportKeepsAssignments(l, event);
    ReportKeepsAccount(l, event);
  }

  /** Only a `badge_started` Signal moves the handoff books. */
  lemma StepLedger(r: Round, input: Input)
    ensures LedgerOf(Step(r, input))
         == if Enabled(r, input) && input.BadgeStarted? then Report(LedgerOf(r), input.event) else LedgerOf(r)
  {
    if Enabled(r, input) && Accepted(r, input) {
      match input
      case Tick(now) => LoopTurnFrame(r, now);
      case Completes(index, outcome, now) => CompletionLedger(r, index, outcome, now);
      case BadgeStarted(event) => ActivityStartedReports(r, event);
      case _ =>
    }
  }

  lemma CompletionLedger(r: Round, index: nat, outcome: Outcome, now: nat)
    requires index < |r.pending|
    ensures LedgerOf(Completed(r, index, outcome, now)) == LedgerOf(r)
  {
    LoopTurnFrame(OutcomeRecorded(r, index, outcome, now).(clock := now), now);
  }

  lemma EmptyLedger()
    ensures LedgerBooks(Ledger(map[], {}, 0, 0, 0, []))
  {
    assert Pairs([]) == {};
  }

  lemma {:induction false} LedgerHolds(config: Config, inputs: seq<Input>)
    ensures LedgerBooks(LedgerOf(Run(config, inputs)))
  {
    if inputs == [] {
      LoopTurnFrame(Opening(config), config.startedMs);
      EmptyLedger();
    } else {
      var earlier := Run(config, inputs[..|inputs| - 1]);
      LedgerHolds(config, inputs[..|inputs| - 1]);
      StepLedger(earlier, inputs[|inputs| - 1]);
      if inputs[|inputs| - 1].BadgeStarted? {
        ReportKeepsBooks(LedgerOf(earlier), inputs[|inputs| - 1].event);
      }
    }
  }

  /** What ties the counters together in every run: an attempt is a first
    report, a move or a quiet retry, and a stale move costs none. So the
    attempts cover the handoffs exactly while stale moves stay within quiet
    retries.
  */
  lemma HandoffsCoveredExactly(config: Config, inputs: seq<Input>)
    ensures var r := Run(config, inputs);
      && r.snap.attempts + StaleMoves(r.reported)
         == r.snap.reassignments + |r.assignments| + QuietRetries(r.reported)
      && (r.snap.reassignments + |r.assignments| <= r.snap.attempts <==> StaleMoves(r.reported) <= QuietRetries(r.reported))
  {
    LedgerHolds(config, inputs);
  }

  /** In every reachable state the attempt counter is the number of distinct
    (question, attempt) pairs reported, every reassignment is counted as one
    heartbeat timeout, and the assigned questions are those reported on. When
    attempts arrive in order, and also, in whatever order, when none is
    reported twice, each question and each handoff cost an attempt.
  */
  lemma HandoffsAddUp(config: Config, inputs: seq<Input>)
    ensures var r := Run(config, inputs);
      && r.snap.attempts == |Pairs(r.reported)|
      && r.snap.reassignments == r.snap.heartbeatTimeouts
      && r.assignments.Keys == Questions(r.reported)
      && (AttemptsInOrder(r.reported) || ReportedOnce(r.reported) ==>
            r.snap.reassignments + |r.assignments| <= r.snap.attempts)
  {
    LedgerHolds(config, inputs);
    var l := LedgerOf(Run(config, inputs));
    forall q ensures q in l.assignments <==> q in Questions(l.reported) {
      LastReportExists(l.reported, q);
    }
    if AttemptsInOrder(l.reported) || ReportedOnce(l.reported) {
      NoStaleMoves(l.reported);
    }
  }

  // ---------- repeated reports ----------

  const LATER := BadgeEvent("a", "A", "q", 2)
  const EARLIER := BadgeEvent("b", "B", "q", 1)

  /** Two attempts of one question, reported in turns. */
  function Bounces(n: nat): seq<Input> {
    if n == 0 then [] else Bounces(n - 1) + [Input.BadgeStarted(LATER), Input.BadgeStarted(EARLIER)]
  }

  lemma StartedStep(r: Round, event: BadgeEvent)
    requires r.snap.status == Running
    ensures Step(r, Input.BadgeStarted(event)).snap.status == Running
    ensures LedgerOf(Step(r, Input.BadgeStarted(event))) == Report(LedgerOf(r), event)
  {
    StepLedger(r, Input.BadgeStarted(event));
  }

  ghost predicate Bounced(l: Ledger, n: nat) {
    && l.assignments == map["q" := EARLIER] && l.attempts == 2 && l.reassignments == n
    && AttemptKey("q", 1) in l.seen && AttemptKey("q", 2) in l.seen
  }

  /** One more turn for a question the earlier attempt holds. */
  lemma BounceOnce(l: Ledger, n: nat)
    requires Bounced(l, n)
    ensures Bounced(Report(Report(l, LATER), EARLIER), n + 1)
    ensures Report(l, LATER).reassignments == n + 1 && Report(l, LATER).attempts == 2 && |Report(l, LATER).assignments| == 1
  {
    assert map["q" := EARLIER]["q" := LATER]["q" := EARLIER] == map["q" := EARLIER];
    assert map["q" := EARLIER]["q" := LATER] == map["q" := LATER];
  }

  lemma FirstBounce(l: Ledger)
    requires l.assignments == map[] && l.seen == {} && l.attempts == l.reassignments == 0
    ensures Bounced(Report(Report(l, LATER), EARLIER), 0)
  {
    if AttemptKey("q", 1) == AttemptKey("q", 2) {
      KeyInjective("q", 1, "q", 2);
    }
    assert map["q" := LATER]["q" := EARLIER] == map["q" := EARLIER];
  }

  lemma {:induction false} BouncesHold(config: Config, n: nat)
    requires Run(config, []).snap.status == Running && n > 0
    ensures Run(config, Bounces(n)).snap.status == Running && Bounced(LedgerOf(Run(config, Bounces(n))), n - 1)
  {
    var before := Bounces(n - 1);
    if n > 1 {
      BouncesHold(config, n - 1);
    } else {
      LoopTurnFrame(Opening(config), config.startedMs);
    }
    var r := Run(config, before);
    var half := before + [Input.BadgeStarted(LATER)];
    assert half[..|before|] == before;
    assert Bounces(n) == half + [Input.BadgeStarted(EARLIER)];
    assert Bounces(n)[..|half|] == half;
    StartedStep(r, LATER);
    StartedStep(Run(config, half), EARLIER);
    if n > 1 {
      BounceOnce(LedgerOf(r), n - 2);
    } else {
      FirstBounce(LedgerOf(r));
    }
  }

  /** Reports that repeat can be counted as any number of handoffs on two
    attempts, in a run of any round that is still going after its first turn.
  */
  lemma RepeatedReportsOvercount(config: Config, n: nat)
    requires Run(config, []).snap.status == Running && n > 0
    ensures var r := Run(config, Bounces(n) + [Input.BadgeStarted(LATER)]);
      r.snap.reassignments == n && |r.assignments| == 1 && r.snap.attempts == 2
  {
    BouncesHold(config, n);
    var longer := Bounces(n) + [Input.BadgeStarted(LATER)];
    assert longer[..|Bounces(n)|] == Bounces(n);
    StartedStep(Run(config, Bounces(n)), LATER);
    BounceOnce(LedgerOf(Run(config, Bounces(n))), n - 1);
  }
}
