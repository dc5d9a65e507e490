/** The score table as a record of the run: every row is counted again from the
  inputs, without the Workflow's own scoring.
*/
module RoundAnswers {
  import opened Wrappers
  import opened Contract
  import opened GameSnapshots
  import opened Deck
  import opened Round
  import opened RoundFrames

  /** What the inputs of a run are worth together, each in the state it met. */
  ghost function Summed(config: Config, inputs: seq<Input>, worth: (Round, Input) -> int): int {
    if inputs == [] then 0
    else
      var earlier := inputs[..|inputs| - 1];
      Summed(config, earlier, worth) + worth(Run(config, earlier), inputs[|inputs| - 1])
  }

  // ---------- what an input says about a badge ----------

  /** The Workflow takes an answer to the question it asked with this slot. */
  predicate TakesAnswer(r: Round, input: Input) {
    && input.Completes? && input.outcome.AnsweredWith?
    && r.snap.status == Running && r.clock <= input.now && input.index < |r.pending|
    && var question, answer := r.pending[input.index].question, input.outcome.answer;
       answer.questionId == question.id && answer.selectedIndex < |question.answers|
  }

  predicate PicksCorrect(r: Round, input: Input) {
    TakesAnswer(r, input) && input.outcome.answer.selectedIndex == r.pending[input.index].question.correctIndex
  }

  predicate PicksWrong(r: Round, input: Input) {
    TakesAnswer(r, input) && input.outcome.answer.selectedIndex != r.pending[input.index].question.correctIndex
  }

  /** Double points while the modifier has time left, single ones otherwise. */
  function Stake(r: Round, now: nat): int {
    if r.snap.chaos.doublePointsUntil.Some? && now < r.snap.chaos.doublePointsUntil.value then 2 else 1
  }

  /** The badge an input is about, and the callsign it gives. */
  function Speaker(r: Round, input: Input): Option<(string, string)> {
    if TakesAnswer(r, input) then Some((input.outcome.answer.badgeId, input.outcome.answer.callsign))
    else if (input.BadgeStarted? || input.PanicEvent?) && r.snap.status == Running then
      Some((input.event.badgeId, input.event.callsign))
    else None
  }

  predicate Speaks(r: Round, input: Input, badge: string) {
    Speaker(r, input).Some? && Speaker(r, input).value.0 == badge
  }

  function Right(badge: string): (Round, Input) -> int {
    (r, input) => if Speaks(r, input, badge) && PicksCorrect(r, input) then 1 else 0
  }

  function Wrongs(badge: string): (Round, Input) -> int {
    (r, input) => if Speaks(r, input, badge) && PicksWrong(r, input) then 1 else 0
  }

  function Gain(badge: string): (Round, Input) -> int {
    (r, input) =>
      if !Speaks(r, input, badge) then 0
      else if PicksCorrect(r, input) then Stake(r, input.now)
      else if PicksWrong(r, input) then -Stake(r, input.now)
      else 0
  }

  function Crashes(badge: string): (Round, Input) -> int {
    (r, input) => if Speaks(r, input, badge) && input.PanicEvent? then 1 else 0
  }

  // ---------- one step ----------

  /** The row a badge has, or would be given. */
  function RowOf(r: Round, badge: string, callsign: string): PlayerScore {
    if badge in r.snap.players then r.snap.players[badge] else PlayerScore(badge, callsign, 0, 0, 0, 0)
  }

  lemma TurnKeepsTable(r: Round, now: nat)
    ensures LoopTurn(r, now).snap.players == r.snap.players && LoopTurn(r, now).snap.completed == r.snap.completed
    ensures LoopTurn(r, now).snap.latestAnswer == r.snap.latestAnswer
  {
    LoopTurnFrame(r, now);
  }

  /** The table, the counter and the spotlight after an answer with this stake. */
  predicate Scores(r: Round, question: Question, answer: BadgeAnswer, p: int, after: Snapshot) {
    var row, right := RowOf(r, answer.badgeId, answer.callsign), answer.selectedIndex == question.correctIndex;
    && after.players == r.snap.players[answer.badgeId :=
         if right then row.(correct := row.correct + 1, score := row.score + p)
         else row.(wrong := row.wrong + 1, score := row.score - p)]
    && after.completed == r.snap.completed + 1
    && after.latestAnswer == Some(AnswerSpotlight(
         question.prompt, if question.correctIndex < |question.answers| then question.answers[question.correctIndex] else "",
         answer.callsign, right, after.players[answer.badgeId].score, p))
  }

  lemma RecordedScores(r: Round, question: Question, answer: BadgeAnswer, now: nat)
    requires answer.questionId == question.id && answer.selectedIndex < |question.answers|
    ensures Scores(r, question, answer, Stake(r, now), AnswerRecorded(r.snap, question, answer, now))
  {
  }

  /** A well-formed answer is right exactly if it picks the correct index. A
    right one earns the stake, a wrong one costs it; the answering badge's row
    alone changes, and the spotlight tells the same.
  */
  lemma AnswerScores(r: Round, index: nat, answer: BadgeAnswer, now: nat)
    requires TakesAnswer(r, Completes(index, AnsweredWith(answer), now))
    ensures Scores(r, r.pending[index].question, answer, Stake(r, now), Step(r, Completes(index, AnsweredWith(answer), now)).snap)
  {
    var question, after := r.pending[index].question, Step(r, Completes(index, AnsweredWith(answer), now)).snap;
    RecordedScores(r, question, answer, now);
    var recorded := AnswerRecorded(r.snap, question, answer, now);
    assert after.players == recorded.players && after.completed == recorded.completed && after.latestAnswer == recorded.latestAnswer by {
      TurnKeepsTable(OutcomeRecorded(r, index, AnsweredWith(answer), now).(clock := now), now);
    }
  }

  /** No answer: a malformed one, or a completion without any. */
  lemma NoAnswerTaken(r: Round, index: nat, outcome: Outcome, now: nat)
    requires !TakesAnswer(r, Completes(index, outcome, now))
    ensures var after := Step(r, Completes(index, outcome, now)).snap;
      after.players == r.snap.players && after.completed == r.snap.completed && after.latestAnswer == r.snap.latestAnswer
  {
    if Enabled(r, Completes(index, outcome, now)) {
      TurnKeepsTable(OutcomeRecorded(r, index, outcome, now).(clock := now), now);
    }
  }

  lemma StartedScores(r: Round, event: BadgeEvent)
    ensures var after := Step(r, Input.BadgeStarted(event)).snap;
      && after.completed == r.snap.completed && after.latestAnswer == r.snap.latestAnswer
      && after.players == if event.badgeId in r.snap.players || r.snap.status != Running then r.snap.players
           else r.snap.players[event.badgeId := RowOf(r, event.badgeId, event.callsign)]
  {
  }

  lemma PanicScores(r: Round, event: BadgeEvent)
    ensures var after := Step(r, Input.PanicEvent(event)).snap;
      && after.completed == r.snap.completed && after.latestAnswer == r.snap.latestAnswer
      && after.players == if r.snap.status != Running then r.snap.players
           else var row := RowOf(r, event.badgeId, event.callsign); r.snap.players[event.badgeId := row.(panics := row.panics + 1)]
  {
  }

  lemma OperatorScores(r: Round, input: Input)
    requires input.Recovered? || input.ApplyChaos? || input.EndRound?
    ensures var after := Step(r, input).snap;
      after.players == r.snap.players && after.completed == r.snap.completed && after.latestAnswer == r.snap.latestAnswer
  {
  }

  predicate RowKept(r: Round, input: Input, badge: string, after: Snapshot) {
    && after.completed == r.snap.completed && after.latestAnswer == r.snap.latestAnswer
    && (badge in after.players <==> badge in r.snap.players || Speaks(r, input, badge))
    && (badge in after.players ==>
          var row := RowOf(r, badge, if Speaks(r, input, badge) then Speaker(r, input).value.1 else "");
          after.players[badge] == row.(panics := row.panics + Crashes(badge)(r, input)))
  }

  /** Every other input leaves all scores, and an answer to another question or
    with an impossible index is not an answer.
  */
  lemma OthersScoreNothing(r: Round, input: Input, badge: string)
    requires !TakesAnswer(r, input)
    ensures RowKept(r, input, badge, Step(r, input).snap)
  {
    var after := Step(r, input).snap;
    match input {
      case Tick(now) =>
        assert after.players == r.snap.players && after.completed == r.snap.completed && after.latestAnswer == r.snap.latestAnswer by {
          TurnKeepsTable(r, now);
        }
      case Completes(index, outcome, now) => NoAnswerTaken(r, index, outcome, now);
      case BadgeStarted(event) => StartedScores(r, event);
      case PanicEvent(event) => PanicScores(r, event);
      case _ => OperatorScores(r, input);
    }
    RowFollows(r, input, badge, after);
  }

  lemma RowFollows(r: Round, input: Input, badge: string, after: Snapshot)
    requires !TakesAnswer(r, input) && after.completed == r.snap.completed && after.latestAnswer == r.snap.latestAnswer
    requires var row := if input.BadgeStarted? || input.PanicEvent? then RowOf(r, input.event.badgeId, input.event.callsign) else RowOf(r, "", "");
      after.players ==
        if input.PanicEvent? && r.snap.status == Running then
          r.snap.players[input.event.badgeId := row.(panics := row.panics + 1)]
        else if input.BadgeStarted? && r.snap.status == Running && input.event.badgeId !in r.snap.players then
          r.snap.players[input.event.badgeId := row]
        else r.snap.players
    ensures RowKept(r, input, badge, after)
  {
  }

  /** What one input does to one badge's row. */
  lemma RowStep(r: Round, input: Input, badge: string)
    ensures var s := Step(r, input);
      && (badge in s.snap.players <==> badge in r.snap.players || Speaks(r, input, badge))
      && (badge in s.snap.players ==>
            var row := RowOf(r, badge, if Speaks(r, input, badge) then Speaker(r, input).value.1 else "");
            && s.snap.players[badge].badgeId == row.badgeId && s.snap.players[badge].callsign == row.callsign
            && s.snap.players[badge].correct == row.correct + Right(badge)(r, input)
            && s.snap.players[badge].wrong == row.wrong + Wrongs(badge)(r, input)
            && s.snap.players[badge].score == row.score + Gain(badge)(r, input)
            && s.snap.players[badge].panics == row.panics + Crashes(badge)(r, input))
  {
    if TakesAnswer(r, input) {
      AnswerScores(r, input.index, input.outcome.answer, input.now);
    } else {
      OthersScoreNothing(r, input, badge);
    }
  }

  // ---------- the whole run ----------

  /** Input `k` is the first to speak for the badge. */
  ghost predicate FirstSpeaks(config: Config, inputs: seq<Input>, badge: string, k: nat) {
    && k < |inputs|
    && Speaks(Run(config, inputs[..k]), inputs[k], badge)
    && forall j :: 0 <= j < k ==> !Speaks(Run(config, inputs[..j]), inputs[j], badge)
  }

  /** The counters of a row, or of no row at all. */
  ghost predicate RowCounts(config: Config, inputs: seq<Input>, badge: string, row: PlayerScore) {
    && row.correct == Summed(config, inputs, Right(badge))
    && row.wrong == Summed(config, inputs, Wrongs(badge))
    && row.score == Summed(config, inputs, Gain(badge))
    && row.panics == Summed(config, inputs, Crashes(badge))
  }

  ghost predicate Silent(config: Config, inputs: seq<Input>, badge: string) {
    forall k :: 0 <= k < |inputs| ==> !Speaks(Run(config, inputs[..k]), inputs[k], badge)
  }

  /** A row is under its badge's ID, and under the callsign it first gave. */
  ghost predicate RowNamed(config: Config, inputs: seq<Input>, badge: string, row: PlayerScore) {
    && row.badgeId == badge
    && exists k: nat :: FirstSpeaks(config, inputs, badge, k)
         && row.callsign == Speaker(Run(config, inputs[..k]), inputs[k]).value.1
  }

  lemma FirstStays(config: Config, inputs: seq<Input>, last: Input, badge: string, k: nat)
    requires FirstSpeaks(config, inputs, badge, k)
    ensures FirstSpeaks(config, inputs + [last], badge, k)
    ensures (inputs + [last])[..k] == inputs[..k]
  {
    var longer := inputs + [last];
    forall j | 0 <= j <= k ensures longer[..j] == inputs[..j] {
    }
  }

  lemma FirstNow(config: Config, inputs: seq<Input>, last: Input, badge: string)
    requires Silent(config, inputs, badge) && Speaks(Run(config, inputs), last, badge)
    ensures FirstSpeaks(config, inputs + [last], badge, |inputs|) && (inputs + [last])[..|inputs|] == inputs
  {
    var longer := inputs + [last];
    assert longer[..|inputs|] == inputs;
    forall j | 0 <= j < |inputs| ensures longer[..j] == inputs[..j] {
    }
  }

  lemma SummedLast(config: Config, inputs: seq<Input>, worth: (Round, Input) -> int)
    requires inputs != []
    ensures var earlier := inputs[..|inputs| - 1];
      Summed(config, inputs, worth) == Summed(config, earlier, worth) + worth(Run(config, earlier), inputs[|inputs| - 1])
  {
  }

  lemma {:induction false} CountsAreHistory(config: Config, inputs: seq<Input>, badge: string)
    ensures RowCounts(config, inputs, badge, RowOf(Run(config, inputs), badge, ""))
  {
    if inputs == [] {
      TurnKeepsTable(Opening(config), config.startedMs);
    } else {
      var earlier := inputs[..|inputs| - 1];
      CountsAreHistory(config, earlier, badge);
      RowStep(Run(config, earlier), inputs[|inputs| - 1], badge);
      SummedLast(config, inputs, Right(badge));
      SummedLast(config, inputs, Wrongs(badge));
      SummedLast(config, inputs, Gain(badge));
      SummedLast(config, inputs, Crashes(badge));
    }
  }

  lemma NameKept(config: Config, inputs: seq<Input>, last: Input, badge: string, row: PlayerScore, next: PlayerScore)
    requires RowNamed(config, inputs, badge, row) && next.badgeId == row.badgeId && next.callsign == row.callsign
    ensures RowNamed(config, inputs + [last], badge, next)
  {
    var k: nat :| FirstSpeaks(config, inputs, badge, k)
      && row.callsign == Speaker(Run(config, inputs[..k]), inputs[k]).value.1;
    FirstStays(config, inputs, last, badge, k);
    assert (inputs + [last])[k] == inputs[k];
  }

  lemma NameBegins(config: Config, inputs: seq<Input>, last: Input, badge: string, row: PlayerScore)
    requires Silent(config, inputs, badge) && Speaks(Run(config, inputs), last, badge)
    requires row.badgeId == badge && row.callsign == Speaker(Run(config, inputs), last).value.1
    ensures RowNamed(config, inputs + [last], badge, row)
  {
    FirstNow(config, inputs, last, badge);
    assert (inputs + [last])[|inputs|] == last;
  }

  lemma StaysSilent(config: Config, inputs: seq<Input>, last: Input, badge: string)
    requires Silent(config, inputs, badge) && !Speaks(Run(config, inputs), last, badge)
    ensures Silent(config, inputs + [last], badge)
  {
    var longer := inputs + [last];
    forall k | 0 <= k < |longer| ensures !Speaks(Run(config, longer[..k]), longer[k], badge) {
      assert longer[..k] == inputs[..k];
      assert inputs[..|inputs|] == inputs;
    }
  }

  lemma {:induction false} NamesAreHistory(config: Config, inputs: seq<Input>, badge: string)
    ensures var players := Run(config, inputs).snap.players;
      if badge in players then RowNamed(config, inputs, badge, players[badge]) else Silent(config, inputs, badge)
  {
    if inputs == [] {
      TurnKeepsTable(Opening(config), config.startedMs);
    } else {
      var earlier, last := inputs[..|inputs| - 1], inputs[|inputs| - 1];
      assert inputs == earlier + [last];
      NamesAreHistory(config, earlier, badge);
      NamesStep(config, earlier, last, badge, Run(config, earlier), Step(Run(config, earlier), last));
    }
  }

  lemma NamesStep(config: Config, inputs: seq<Input>, last: Input, badge: string, r: Round, s: Round)
    requires r == Run(config, inputs) && s == Step(r, last)
    requires if badge in r.snap.players then RowNamed(config, inputs, badge, r.snap.players[badge]) else Silent(config, inputs, badge)
    ensures if badge in s.snap.players then RowNamed(config, inputs + [last], badge, s.snap.players[badge])
            else Silent(config, inputs + [last], badge)
  {
    RowStep(r, last, badge);
    if badge in r.snap.players {
      NameKept(config, inputs, last, badge, r.snap.players[badge], s.snap.players[badge]);
    } else if Speaks(r, last, badge) {
      NameBegins(config, inputs, last, badge, s.snap.players[badge]);
    } else {
      StaysSilent(config, inputs, last, badge);
    }
  }

  /** In every run the score table is exactly the record of its inputs: a badge
    is on it once an input spoke for it, under the callsign that input gave;
    its right and wrong answers, its score and its panics are those of the
    answers taken and the panic Signals, answer by answer.
  */
  lemma ScoreTableIsTheHistory(config: Config, inputs: seq<Input>, badge: string)
    ensures var players := Run(config, inputs).snap.players;
      && (badge !in players <==> Silent(config, inputs, badge))
      && (badge in players ==>
            RowNamed(config, inputs, badge, players[badge]) && RowCounts(config, inputs, badge, players[badge]))
  {
    CountsAreHistory(config, inputs, badge);
    NamesAreHistory(config, inputs, badge);
  }

  function AnyCorrect(r: Round, input: Input): int {
    if PicksCorrect(r, input) then 1 else 0
  }

  function AnyWrong(r: Round, input: Input): int {
    if PicksWrong(r, input) then 1 else 0
  }

  lemma StepTotals(r: Round, input: Input)
    ensures var s := Step(r, input);
      && Total(s.snap.players, Correct) == Total(r.snap.players, Correct) + AnyCorrect(r, input)
      && Total(s.snap.players, Wrong) == Total(r.snap.players, Wrong) + AnyWrong(r, input)
      && s.snap.completed == r.snap.completed + AnyCorrect(r, input) + AnyWrong(r, input)
  {
    var s := Step(r, input);
    if TakesAnswer(r, input) {
      AnswerScores(r, input.index, input.outcome.answer, input.now);
      var badge := input.outcome.answer.badgeId;
      TotalUpdates(r.snap.players, Correct, badge, s.snap.players[badge]);
      TotalUpdates(r.snap.players, Wrong, badge, s.snap.players[badge]);
    } else {
      OthersScoreNothing(r, input, "");
      OthersKeepTotals(r, input);
    }
  }

  /** A table that gained or kept one row with the same counts. */
  lemma SameCounts(players: map<string, PlayerScore>, after: map<string, PlayerScore>, badge: string)
    requires badge in after && forall b :: b != badge ==> (b in after <==> b in players) && (b in after ==> after[b] == players[b])
    requires badge in players ==> after[badge].correct == players[badge].correct && after[badge].wrong == players[badge].wrong
    requires badge !in players ==> after[badge].correct == after[badge].wrong == 0
    ensures Total(after, Correct) == Total(players, Correct) && Total(after, Wrong) == Total(players, Wrong)
  {
    assert badge in players ==> badge in after;
    assert after == players[badge := after[badge]];
    TotalUpdates(players, Correct, badge, after[badge]);
    TotalUpdates(players, Wrong, badge, after[badge]);
  }

  lemma OthersKeepTotals(r: Round, input: Input)
    requires !TakesAnswer(r, input)
    ensures Total(Step(r, input).snap.players, Correct) == Total(r.snap.players, Correct)
    ensures Total(Step(r, input).snap.players, Wrong) == Total(r.snap.players, Wrong)
  {
    var players, after := r.snap.players, Step(r, input).snap.players;
    var badge := if Speaker(r, input).Some? then Speaker(r, input).value.0 else "";
    forall b | b != badge ensures (b in after <==> b in players) && (b in after ==> after[b] == players[b]) {
      OthersScoreNothing(r, input, b);
    }
    OthersScoreNothing(r, input, badge);
    if badge in after {
      SameCounts(players, after, badge);
    } else {
      assert after == players;
    }
  }

  /** And in total: the right answers of a run are the answers it took that
    picked the correct index, the completed questions those and the wrong ones.
  */
  lemma {:induction false} AnswersAddUp(config: Config, inputs: seq<Input>)
    ensures var snap := Run(config, inputs).snap;
      && Total(snap.players, Correct) == Summed(config, inputs, AnyCorrect)
      && Total(snap.players, Wrong) == Summed(config, inputs, AnyWrong)
      && snap.completed == Summed(config, inputs, AnyCorrect) + Summed(config, inputs, AnyWrong)
  {
    if inputs == [] {
      TurnKeepsTable(Opening(config), config.startedMs);
    } else {
      AnswersAddUp(config, inputs[..|inputs| - 1]);
      StepTotals(Run(config, inputs[..|inputs| - 1]), inputs[|inputs| - 1]);
    }
  }
}
