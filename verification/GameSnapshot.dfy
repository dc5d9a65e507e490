/** The mutable round snapshot (shared/src/contract.rs) and the totals written
  to the round's memo (web/src/model.rs).
*/
module GameSnapshots {
  import opened Wrappers
  import opened Contract
  import opened EventWindow
  import opened Standings

  /** The snapshot as one owned record, updated in place by its methods. */
  class GameSnapshot {
    var value: Snapshot

    constructor (value: Snapshot)
      ensures this.value == value
    {
      this.value := value;
    }

    /** Appends, then evicts while the window is over-full. */
    method PushKind(kind: EventKind, note: EventNote)
      modifies this
      ensures value == Noted(old(value), kind, note)
    {
      var events := value.events + [GameEvent(kind, note)];
      while |events| > EVENT_WINDOW
        invariant Trim(events) == Push(value.events, GameEvent(kind, note))
        decreases |events|
      {
        var position := FirstAnswer(events);
        var victim := if position < |events| then position else 0;
        events := events[..victim] + events[victim + 1..];
      }
      value := value.(events := events);
    }

    /** The end of a round, with its winners. */
    method Finish()
      modifies this
      ensures value == Closed(old(value))
    {
      var winners := NameWinners(value.players);
      WinnersAreUnique(value.players, winners, WinnersOf(value.players));
      value := value.(status := GameStatus.Finished, winners := winners);
      if winners == [] {
        PushKind(Lifecycle, FinishedEmpty);
      } else {
        PushKind(Lifecycle, WinnersNamed(winners));
      }
    }
  }

  /** A snapshot with one more event. */
  function Noted(snap: Snapshot, kind: EventKind, note: EventNote): Snapshot {
    snap.(events := Push(snap.events, GameEvent(kind, note)))
  }

  ghost function Closed(snap: Snapshot): Snapshot {
    var winners := WinnersOf(snap.players);
    Noted(snap.(status := GameStatus.Finished, winners := winners), Lifecycle,
          if winners == [] then FinishedEmpty else WinnersNamed(winners))
  }

  // ---------- totals over the score table ----------

  datatype Tally = Correct | Wrong | Panics

  function Count(player: PlayerScore, tally: Tally): nat {
    match tally
    case Correct => player.correct
    case Wrong => player.wrong
    case Panics => player.panics
  }

  ghost function Total(players: map<string, PlayerScore>, tally: Tally): nat
    decreases |players|
  {
    if players == map[] then 0
    else
      var badge :| badge in players;
      Count(players[badge], tally) + Total(players - {badge}, tally)
  }

  /** A total does not depend on the order the table is walked in. */
  lemma {:induction false} TotalTakesOut(players: map<string, PlayerScore>, tally: Tally, badge: string)
    requires badge in players
    ensures Total(players, tally) == Count(players[badge], tally) + Total(players - {badge}, tally)
    decreases |players|
  {
    var first :| first in players && Total(players, tally) == Count(players[first], tally) + Total(players - {first}, tally);
    if first != badge {
      TotalTakesOut(players - {first}, tally, badge);
      TotalTakesOut(players - {badge}, tally, first);
      assert players - {first} - {badge} == players - {badge} - {first};
    }
  }

  /** One row changes the total by what changes in the row. */
  lemma TotalUpdates(players: map<string, PlayerScore>, tally: Tally, badge: string, player: PlayerScore)
    ensures Total(players[badge := player], tally) + (if badge in players then Count(players[badge], tally) else 0)
         == Total(players, tally) + Count(player, tally)
  {
    TotalTakesOut(players[badge := player], tally, badge);
    if badge in players {
      TotalTakesOut(players, tally, badge);
      assert players[badge := player] - {badge} == players - {badge};
    } else {
      assert players[badge := player] - {badge} == players;
    }
  }

  datatype RoundMemo = RoundMemo(
    gameId: string, winners: seq<string>, badgeCount: nat, correctAnswers: nat, wrongAnswers: nat,
    crashes: nat, reassignments: nat, heartbeatTimeouts: nat, activityAttempts: nat)

  ghost function MemoOf(snap: Snapshot): RoundMemo {
    RoundMemo(
      match snap.gameId { case Some(id) => id case None => "" },
      snap.winners, |snap.players|,
      Total(snap.players, Correct), Total(snap.players, Wrong), Total(snap.players, Panics),
      snap.reassignments, snap.heartbeatTimeouts, snap.attempts)
  }
}
