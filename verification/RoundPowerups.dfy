/** The operator's power-ups as a record of the run: which are in force, until
  when, and what they do to the deadline, told from the accepted Updates.
*/
module RoundPowerups {
  import opened Wrappers
  import opened Contract
  import opened GameSnapshots
  import opened Deck
  import opened Round
  import opened RoundFrames
  import opened RoundModifiers
  import opened RoundDeadline
  import opened RoundAnswers
  import opened RoundEnd

  /** The operator plays this card and it is taken: the round is running, and
    no modifier is in force, or for the extension none was played before.
  */
  predicate Applies(r: Round, input: Input, command: ChaosCommand) {
    && input.ApplyChaos? && input.command == command
    && r.snap.status == Running && r.clock <= input.now
    && if command == ExtendThirtySeconds then !r.snap.chaos.extensionUsed
       else r.snap.chaos.doublePointsUntil.None? && r.snap.chaos.rustOnlyUntil.None? && !r.snap.chaos.suddenDeath
  }

  predicate EndsEarly(r: Round, input: Input) {
    input.EndRound? && r.snap.status == Running && r.clock <= input.now
  }

  /** In a run that is exactly what the validators let through. */
  lemma AppliesExactly(config: Config, inputs: seq<Input>, input: Input, command: ChaosCommand)
    requires input.ApplyChaos? && input.command == command
    ensures Applies(Run(config, inputs), input, command)
       <==> Enabled(Run(config, inputs), input) && Accepted(Run(config, inputs), input)
  {
    if command != ExtendThirtySeconds {
      ValidatorSeesEveryModifier(config, inputs, command);
    }
  }

  predicate IsTimed(command: ChaosCommand) {
    command == DoublePoints || command == RustOnly
  }

  function UntilOf(chaos: ChaosState, command: ChaosCommand): Option<nat>
    requires IsTimed(command)
  {
    if command == DoublePoints then chaos.doublePointsUntil else chaos.rustOnlyUntil
  }

  // ---------- one step ----------

  /** What a step may do to the modifiers. */
  predicate ChaosMoves(r: Round, input: Input, taken: bool, before: ChaosState, after: ChaosState) {
    if !taken then after == before
    else match input
      case ApplyChaos(command, now) => after == Commanded(before, command, now)
      case Tick(now) => after == Expired(before, now)
      case Completes(_, _, now) => after == Expired(before, now) || (after == before && before.suddenDeath)
      case _ => after == before
  }

  lemma StepMoves(r: Round, input: Input)
    ensures ChaosMoves(r, input, Enabled(r, input) && Accepted(r, input), r.snap.chaos, Step(r, input).snap.chaos)
  {
    if Enabled(r, input) && Accepted(r, input) {
      match input
      case Tick(now) => LoopTurnFrame(r, now);
      case Completes(index, outcome, now) => LoopTurnFrame(OutcomeRecorded(r, index, outcome, now).(clock := now), now);
      case _ =>
    }
  }

  lemma TimedMoves(r: Round, input: Input, command: ChaosCommand, after: ChaosState)
    requires IsTimed(command) && Exclusive(r)
    requires ChaosMoves(r, input, Enabled(r, input) && Accepted(r, input), r.snap.chaos, after)
    requires input.ApplyChaos? ==> (Applies(r, input, input.command) <==> Enabled(r, input) && Accepted(r, input))
    ensures var before, until := UntilOf(r.snap.chaos, command), UntilOf(after, command);
      if Applies(r, input, command) then before == None && until == Some(input.now + 10_000)
      else if Turns(r, input) && before.Some? && before.value <= input.now then until == None
      else until == before
  {
  }

  /** What one input does to a timed modifier: its own card sets it for ten
    seconds, a turn at or after its end clears it, and nothing else touches it.
  */
  lemma TimedStep(config: Config, inputs: seq<Input>, input: Input, command: ChaosCommand)
    requires IsTimed(command)
    ensures var r := Run(config, inputs);
      var before, after := UntilOf(r.snap.chaos, command), UntilOf(Step(r, input).snap.chaos, command);
      if Applies(r, input, command) then before == None && after == Some(input.now + 10_000)
      else if Turns(r, input) && before.Some? && before.value <= input.now then after == None
      else after == before
  {
    var r := Run(config, inputs);
    StepMoves(r, input);
    ModifiersExclude(config, inputs);
    if input.ApplyChaos? {
      AppliesExactly(config, inputs, input, input.command);
    }
    TimedMoves(r, input, command, Step(r, input).snap.chaos);
  }

  lemma FlagStep(config: Config, inputs: seq<Input>, input: Input)
    ensures var r, s := Run(config, inputs), Step(Run(config, inputs), input);
      && s.snap.chaos.suddenDeath == (r.snap.chaos.suddenDeath || Applies(r, input, SuddenDeath))
      && s.snap.chaos.extensionUsed == (r.snap.chaos.extensionUsed || Applies(r, input, ExtendThirtySeconds))
  {
    StepChaos(Run(config, inputs), input);
    if input.ApplyChaos? {
      AppliesExactly(config, inputs, input, input.command);
    }
  }

  /** The extension moves the deadline by thirty seconds, an early end to the
    present, and nothing else moves it.
  */
  lemma DeadlineStep(config: Config, inputs: seq<Input>, input: Input)
    ensures var r, s := Run(config, inputs), Step(Run(config, inputs), input);
      r.snap.deadlineMs.Some? && s.snap.deadlineMs == Some(
        if EndsEarly(r, input) then input.now
        else if Applies(r, input, ExtendThirtySeconds) then r.snap.deadlineMs.value + 30_000
        else r.snap.deadlineMs.value)
  {
    RunIsTimed(config, inputs);
    StepDeadline(Run(config, inputs), input);
    if input.ApplyChaos? {
      AppliesExactly(config, inputs, input, input.command);
    }
  }

  lemma NoticeMoves(r: Round, input: Input, after: ChaosState)
    requires ChaosMoves(r, input, Enabled(r, input) && Accepted(r, input), r.snap.chaos, after)
    requires input.ApplyChaos? ==> (Applies(r, input, input.command) <==> Enabled(r, input) && Accepted(r, input))
    ensures after.latestPowerup == NextNotice(r, input)
  {
  }

  /** A card taken is announced under the next number; nothing else is. */
  function NextNotice(r: Round, input: Input): Option<PowerupNotice> {
    if input.ApplyChaos? && Applies(r, input, input.command) then
      var last := if r.snap.chaos.latestPowerup.Some? then r.snap.chaos.latestPowerup.value.sequence else 0;
      Some(PowerupNotice(if last < 0xFFFF_FFFF then last + 1 else last, input.command, input.now))
    else r.snap.chaos.latestPowerup
  }

  lemma NoticeStep(config: Config, inputs: seq<Input>, input: Input)
    ensures Step(Run(config, inputs), input).snap.chaos.latestPowerup == NextNotice(Run(config, inputs), input)
  {
    var r := Run(config, inputs);
    StepMoves(r, input);
    if input.ApplyChaos? {
      AppliesExactly(config, inputs, input, input.command);
    }
    NoticeMoves(r, input, Step(r, input).snap.chaos);
  }

  // ---------- whole runs ----------

  /** The card was played at input `k` and taken. */
  ghost predicate AppliedAt(config: Config, inputs: seq<Input>, k: nat, command: ChaosCommand) {
    k < |inputs| && Applies(Run(config, inputs[..k]), inputs[k], command)
  }

  /** No turn after input `k` came at or after `end`. */
  ghost predicate NoTurnSince(config: Config, inputs: seq<Input>, k: nat, end: nat) {
    forall j :: k < j < |inputs| && Turns(Run(config, inputs[..j]), inputs[j]) ==> inputs[j].now < end
  }

  /** The modifier began at input `k`, ends at `end`, and no turn saw its end. */
  ghost predicate InForce(config: Config, inputs: seq<Input>, k: nat, command: ChaosCommand, end: nat) {
    AppliedAt(config, inputs, k, command) && inputs[k].now + 10_000 == end && NoTurnSince(config, inputs, k, end)
  }

  lemma HistoryGrows(config: Config, inputs: seq<Input>, last: Input, k: nat, command: ChaosCommand)
    ensures AppliedAt(config, inputs + [last], k, command)
       <==> AppliedAt(config, inputs, k, command) || (k == |inputs| && Applies(Run(config, inputs), last, command))
  {
    var longer := inputs + [last];
    assert k <= |inputs| ==> longer[..k] == inputs[..k];
    assert inputs[..|inputs|] == inputs;
  }

  lemma InForceGrows(config: Config, inputs: seq<Input>, last: Input, k: nat, command: ChaosCommand, end: nat)
    ensures InForce(config, inputs + [last], k, command, end) <==>
      if k < |inputs| then
        InForce(config, inputs, k, command, end) && (Turns(Run(config, inputs), last) ==> last.now < end)
      else k == |inputs| && Applies(Run(config, inputs), last, command) && last.now + 10_000 == end
  {
    var longer := inputs + [last];
    HistoryGrows(config, inputs, last, k, command);
    forall j | 0 <= j <= |inputs| ensures longer[..j] == inputs[..j] {
    }
    assert inputs[..|inputs|] == inputs;
    assert longer[|inputs|] == last;
    forall j | 0 <= j < |inputs| ensures longer[j] == inputs[j] {
    }
  }

  /** In every run double points or Rust-only is set to end at a time exactly if
    its card was taken ten seconds before that time and no turn of the loop has
    come at or after it.
  */
  lemma {:induction false} ModifierIsHistory(config: Config, inputs: seq<Input>, command: ChaosCommand, end: nat)
    requires IsTimed(command)
    ensures UntilOf(Run(config, inputs).snap.chaos, command) == Some(end)
       <==> exists k: nat :: InForce(config, inputs, k, command, end)
  {
    if inputs == [] {
      LoopTurnFrame(Opening(config), config.startedMs);
    } else {
      var earlier, last := inputs[..|inputs| - 1], inputs[|inputs| - 1];
      assert inputs == earlier + [last];
      ModifierIsHistory(config, earlier, command, end);
      TimedStep(config, earlier, last, command);
      forall k: nat ensures InForce(config, inputs, k, command, end) <==>
        if k < |earlier| then
          InForce(config, earlier, k, command, end) && (Turns(Run(config, earlier), last) ==> last.now < end)
        else k == |earlier| && Applies(Run(config, earlier), last, command) && last.now + 10_000 == end
      {
        InForceGrows(config, earlier, last, k, command, end);
      }
      if UntilOf(Run(config, inputs).snap.chaos, command) == Some(end) {
        if k: nat :| InForce(config, earlier, k, command, end) {
          assert InForce(config, inputs, k, command, end);
        } else {
          assert InForce(config, inputs, |earlier|, command, end);
        }
      }
    }
  }

  /** Sudden death is set, and the extension used, exactly if its card was taken. */
  lemma {:induction false} FlagsAreHistory(config: Config, inputs: seq<Input>)
    ensures var chaos := Run(config, inputs).snap.chaos;
      && (chaos.suddenDeath <==> exists k: nat :: AppliedAt(config, inputs, k, SuddenDeath))
      && (chaos.extensionUsed <==> exists k: nat :: AppliedAt(config, inputs, k, ExtendThirtySeconds))
  {
    if inputs == [] {
      LoopTurnFrame(Opening(config), config.startedMs);
    } else {
      var earlier, last := inputs[..|inputs| - 1], inputs[|inputs| - 1];
      assert inputs == earlier + [last];
      FlagsAreHistory(config, earlier);
      FlagStep(config, earlier, last);
      AppliedGrows(config, earlier, last, SuddenDeath);
      AppliedGrows(config, earlier, last, ExtendThirtySeconds);
    }
  }

  lemma AppliedGrows(config: Config, inputs: seq<Input>, last: Input, command: ChaosCommand)
    ensures (exists k: nat :: AppliedAt(config, inputs + [last], k, command))
       <==> (exists k: nat :: AppliedAt(config, inputs, k, command)) || Applies(Run(config, inputs), last, command)
  {
    forall k: nat ensures AppliedAt(config, inputs + [last], k, command)
      <==> AppliedAt(config, inputs, k, command) || (k == |inputs| && Applies(Run(config, inputs), last, command))
    {
      HistoryGrows(config, inputs, last, k, command);
    }
    if Applies(Run(config, inputs), last, command) {
      assert AppliedAt(config, inputs + [last], |inputs|, command);
    }
  }

  /** The extension is taken at most once a round. */
  lemma ExtendsOnce(config: Config, inputs: seq<Input>, i: nat, k: nat)
    requires i < k < |inputs| && AppliedAt(config, inputs, i, ExtendThirtySeconds)
    ensures !AppliedAt(config, inputs, k, ExtendThirtySeconds)
  {
    assert inputs[..k][..i] == inputs[..i];
    FlagsAreHistory(config, inputs[..k]);
    assert AppliedAt(config, inputs[..k], i, ExtendThirtySeconds);
  }

  ghost predicate NeverEndsEarly(config: Config, inputs: seq<Input>, from: nat) {
    forall k :: from <= k < |inputs| ==> !EndsEarly(Run(config, inputs[..k]), inputs[k])
  }

  lemma EarlyPrefix(config: Config, inputs: seq<Input>, from: nat)
    requires inputs != [] && NeverEndsEarly(config, inputs, from)
    ensures NeverEndsEarly(config, inputs[..|inputs| - 1], from)
    ensures from < |inputs| ==> !EndsEarly(Run(config, inputs[..|inputs| - 1]), inputs[|inputs| - 1])
  {
    var earlier := inputs[..|inputs| - 1];
    forall k | from <= k < |earlier| ensures !EndsEarly(Run(config, earlier[..k]), earlier[k]) {
      assert earlier[..k] == inputs[..k];
    }
  }

  /** A deadline moved by the extension, if that was taken in between. */
  predicate Extended(before: Snapshot, after: Snapshot) {
    && before.deadlineMs.Some? && (before.chaos.extensionUsed ==> after.chaos.extensionUsed)
    && after.deadlineMs == Some(before.deadlineMs.value
         + if after.chaos.extensionUsed && !before.chaos.extensionUsed then 30_000 else 0)
  }

  lemma StepExtends(config: Config, inputs: seq<Input>, input: Input)
    requires !EndsEarly(Run(config, inputs), input)
    ensures Extended(Run(config, inputs).snap, Step(Run(config, inputs), input).snap)
  {
    DeadlineStep(config, inputs, input);
    FlagStep(config, inputs, input);
  }

  lemma ExtendedJoins(a: Snapshot, b: Snapshot, c: Snapshot)
    requires Extended(a, b) && Extended(b, c)
    ensures Extended(a, c)
  {
  }

  /** From any point of a run that is not ended early afterwards, the deadline
    is what it was then, and thirty seconds more if the extension was taken
    since.
  */
  lemma {:induction false} DeadlineIsHistory(config: Config, inputs: seq<Input>, from: nat)
    requires from <= |inputs| && NeverEndsEarly(config, inputs, from)
    ensures Extended(Run(config, inputs[..from]).snap, Run(config, inputs).snap)
    decreases |inputs|
  {
    if from == |inputs| {
      assert inputs[..from] == inputs;
      RunIsTimed(config, inputs);
    } else {
      var earlier := inputs[..|inputs| - 1];
      assert earlier[..from] == inputs[..from];
      EarlyPrefix(config, inputs, from);
      DeadlineIsHistory(config, earlier, from);
      StepExtends(config, earlier, inputs[|inputs| - 1]);
      ExtendedJoins(Run(config, inputs[..from]).snap, Run(config, earlier).snap, Run(config, inputs).snap);
    }
  }

  lemma OpeningDeadline(config: Config)
    ensures var snap := Run(config, []).snap;
      snap.deadlineMs == Some(config.startedMs + 1_000 * config.input.durationSeconds) && !snap.chaos.extensionUsed
  {
    LoopTurnFrame(Opening(config), config.startedMs);
  }

  lemma {:induction false} DeadlineSinceOpening(config: Config, inputs: seq<Input>)
    requires NeverEndsEarly(config, inputs, 0)
    ensures var ms, snap := config.startedMs + 1_000 * config.input.durationSeconds, Run(config, inputs).snap;
      snap.deadlineMs == Some(if snap.chaos.extensionUsed then ms + 30_000 else ms)
  {
    if inputs == [] {
      OpeningDeadline(config);
    } else {
      var earlier := inputs[..|inputs| - 1];
      EarlyPrefix(config, inputs, 0);
      DeadlineSinceOpening(config, earlier);
      StepExtends(config, earlier, inputs[|inputs| - 1]);
    }
  }

  /** A round that is not ended early lasts its duration, and thirty seconds
    more exactly if the extension was taken.
  */
  lemma DeadlineOfTheRound(config: Config, inputs: seq<Input>)
    requires NeverEndsEarly(config, inputs, 0)
    ensures var ms, snap := config.startedMs + 1_000 * config.input.durationSeconds, Run(config, inputs).snap;
      && (snap.chaos.extensionUsed <==> exists k: nat :: AppliedAt(config, inputs, k, ExtendThirtySeconds))
      && snap.deadlineMs == Some(if snap.chaos.extensionUsed then ms + 30_000 else ms)
  {
    DeadlineSinceOpening(config, inputs);
    FlagsAreHistory(config, inputs);
  }

  function AnyApplied(r: Round, input: Input): int {
    if input.ApplyChaos? && Applies(r, input, input.command) then 1 else 0
  }

  /** The notice a badge acts on counts the cards taken, up to saturation. */
  lemma {:induction false} NoticesAreNumbered(config: Config, inputs: seq<Input>)
    ensures var notice, taken := Run(config, inputs).snap.chaos.latestPowerup, Summed(config, inputs, AnyApplied);
      && taken >= 0 && (notice.None? <==> taken == 0)
      && (notice.Some? ==> notice.value.sequence == if taken < 0xFFFF_FFFF then taken else 0xFFFF_FFFF)
  {
    if inputs == [] {
      LoopTurnFrame(Opening(config), config.startedMs);
    } else {
      NoticesAreNumbered(config, inputs[..|inputs| - 1]);
      NoticeStep(config, inputs[..|inputs| - 1], inputs[|inputs| - 1]);
    }
  }

  /** And it names the card taken last, and when. */
  ghost predicate LastApplied(config: Config, inputs: seq<Input>, k: nat) {
    && k < |inputs| && inputs[k].ApplyChaos? && AppliedAt(config, inputs, k, inputs[k].command)
    && forall j, command :: k < j < |inputs| ==> !AppliedAt(config, inputs, j, command)
  }

  lemma {:induction false} NoticeNamesTheLast(config: Config, inputs: seq<Input>)
    ensures var notice := Run(config, inputs).snap.chaos.latestPowerup;
      notice.Some? ==>
        exists k: nat :: LastApplied(config, inputs, k) && notice.value.command == inputs[k].command && notice.value.issuedMs == inputs[k].now
  {
    if inputs == [] {
      LoopTurnFrame(Opening(config), config.startedMs);
    } else {
      var earlier, last := inputs[..|inputs| - 1], inputs[|inputs| - 1];
      assert inputs == earlier + [last];
      NoticeNamesTheLast(config, earlier);
      NoticeStep(config, earlier, last);
      var r := Run(config, earlier);
      if last.ApplyChaos? && Applies(r, last, last.command) {
        HistoryGrows(config, earlier, last, |earlier|, last.command);
        assert LastApplied(config, inputs, |earlier|);
      } else if r.snap.chaos.latestPowerup.Some? {
        var k: nat :| LastApplied(config, earlier, k)
          && r.snap.chaos.latestPowerup.value.command == earlier[k].command && r.snap.chaos.latestPowerup.value.issuedMs == earlier[k].now;
        LastStays(config, earlier, last, k);
      }
    }
  }

  lemma LastStays(config: Config, inputs: seq<Input>, last: Input, k: nat)
    requires LastApplied(config, inputs, k)
    requires !(last.ApplyChaos? && Applies(Run(config, inputs), last, last.command))
    ensures LastApplied(config, inputs + [last], k)
  {
    HistoryGrows(config, inputs, last, k, inputs[k].command);
    forall j, command | k < j < |inputs| + 1 ensures !AppliedAt(config, inputs + [last], j, command) {
      HistoryGrows(config, inputs, last, j, command);
    }
  }
}
