/** What a turn of the run loop leaves alone.

  `LoopTurn` touches the deck, the slots, the event window, expired modifiers
  and, at the end, the status and the winners. Every invariant below starts
  from these facts instead of from its body.
*/
module RoundFrames {
  import opened Wrappers
  import opened Contract
  import opened GameSnapshots
  import opened Deck
  import opened Round

  /** The score table, the handoff books and the clockwork of two states agree. */
  predicate SameBooks(r: Round, s: Round) {
    && s.config == r.config
    && s.assignments == r.assignments && s.retryReasons == r.retryReasons && s.attemptsSeen == r.attemptsSeen
    && s.reported == r.reported && s.unscored == r.unscored
    && s.snap.startedMs == r.snap.startedMs && s.snap.deadlineMs == r.snap.deadlineMs
    && s.snap.completed == r.snap.completed && s.snap.players == r.snap.players
    && s.snap.detectedBadges == r.snap.detectedBadges
    && s.snap.reassignments == r.snap.reassignments && s.snap.heartbeatTimeouts == r.snap.heartbeatTimeouts
    && s.snap.attempts == r.snap.attempts && s.snap.gameId == r.snap.gameId
    && s.snap.latestAnswer == r.snap.latestAnswer && s.snap.latestReassignment == r.snap.latestReassignment
    && s.snap.latestFailure == r.snap.latestFailure
  }

  /** Scheduled Activities not accounted for: none, by SlotBooks. */
  function Missing(r: Round): int {
    r.snap.scheduled - |r.pending| - r.snap.completed - r.unscored - r.cancelled
  }

  lemma {:induction false} FillFrame(r: Round, target: nat, rustOnly: bool, deadlineMs: nat)
    ensures var f := Fill(r, target, rustOnly, deadlineMs);
      && SameBooks(r, f) && Missing(f) == Missing(r)
      && f.snap.chaos == r.snap.chaos && f.snap.status == r.snap.status
      && f.cancelled == r.cancelled && f.lastSweepMs == r.lastSweepMs && f.clock == r.clock
      && f.pendingActivities - |f.pending| == r.pendingActivities - |r.pending|
      && f.pendingActivities <= Max(target, r.pendingActivities)
    decreases target - r.pendingActivities
  {
    if r.pendingActivities < target {
      var next := FillOne(r, rustOnly, deadlineMs);
      if next.pendingActivities != r.pendingActivities {
        FillFrame(next, target, rustOnly, deadlineMs);
      }
    }
  }

  lemma LoopTurnFrame(r: Round, now: nat)
    ensures var t := LoopTurn(r, now);
      && SameBooks(r, t) && Missing(t) == Missing(r)
      && t.snap.chaos == Expired(r.snap.chaos, now)
      && t.lastSweepMs == now && t.clock == now
      && (t.snap.status == r.snap.status || (t.snap.status == Finished && t.pending == []))
  {
    var swept := Swept(r, now);
    if swept.snap.deadlineMs.Some? && now < swept.snap.deadlineMs.value {
      FillFrame(swept, Target(swept), Live(swept.snap.chaos.rustOnlyUntil, now), swept.snap.deadlineMs.value);
    }
  }

  /** A turn that does not end the round ends its fill pass within the target. */
  lemma LoopTurnSlots(r: Round, now: nat)
    requires r.pendingActivities == |r.pending| <= Target(r)
    ensures var t := LoopTurn(r, now);
      t.snap.status == Running ==> t.pendingActivities == |t.pending| <= Target(t)
  {
    var swept := Swept(r, now);
    if swept.snap.deadlineMs.Some? && now < swept.snap.deadlineMs.value {
      FillFrame(swept, Target(swept), Live(swept.snap.chaos.rustOnlyUntil, now), swept.snap.deadlineMs.value);
    }
  }
}
