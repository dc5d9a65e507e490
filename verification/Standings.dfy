/** Who wins a round (shared/src/contract.rs, `finish`): the sorted callsigns
  of the badges no other badge outscored.
*/
module Standings {
  import opened Contract

  /** The order of Rust strings: lexicographic by code point. */
  predicate LexLeq(a: string, b: string) {
    a == [] || (b != [] && (a[0] < b[0] || (a[0] == b[0] && LexLeq(a[1..], b[1..]))))
  }

  lemma {:induction false} LexTotal(a: string, b: string)
    ensures LexLeq(a, b) || LexLeq(b, a)
    ensures LexLeq(a, b) && LexLeq(b, a) ==> a == b
  {
    if a != [] && b != [] {
      LexTotal(a[1..], b[1..]);
      assert a == [a[0]] + a[1..] && b == [b[0]] + b[1..];
    }
  }

  lemma {:induction false} LexTransitive(a: string, b: string, c: string)
    requires LexLeq(a, b) && LexLeq(b, c)
    ensures LexLeq(a, c)
  {
    if a != [] && a[0] == b[0] == c[0] {
      LexTransitive(a[1..], b[1..], c[1..]);
    }
  }

  ghost predicate Sorted(names: seq<string>) {
    forall i, j :: 0 <= i < j < |names| ==> LexLeq(names[i], names[j])
  }

  ghost predicate IsTop(players: map<string, PlayerScore>, badge: string) {
    badge in players && forall other :: other in players ==> players[other].score <= players[badge].score
  }

  /** The badges among `badges` on the top score that carry this callsign. */
  ghost function TopNamed(players: map<string, PlayerScore>, badges: set<string>, callsign: string): set<string> {
    set badge | badge in badges && IsTop(players, badge) && players[badge].callsign == callsign
  }

  /** The winners' list: sorted, each callsign as often as it is on top. */
  ghost predicate AreWinners(players: map<string, PlayerScore>, winners: seq<string>) {
    Sorted(winners) && forall callsign :: multiset(winners)[callsign] == |TopNamed(players, players.Keys, callsign)|
  }

  lemma {:induction false} SortedIsUnique(a: seq<string>, b: seq<string>)
    requires Sorted(a) && Sorted(b) && multiset(a) == multiset(b)
    ensures a == b
  {
    assert |multiset(a)| == |a| && |multiset(b)| == |b|;
    if a != [] {
      HeadsAgree(a, b);
      assert a == [a[0]] + a[1..] && b == [b[0]] + b[1..];
      assert multiset(a[1..]) == multiset(a) - multiset{a[0]};
      assert multiset(b[1..]) == multiset(b) - multiset{b[0]};
      SortedIsUnique(a[1..], b[1..]);
    }
  }

  lemma HeadsAgree(a: seq<string>, b: seq<string>)
    requires Sorted(a) && Sorted(b) && multiset(a) == multiset(b)
    requires a != [] && b != []
    ensures a[0] == b[0]
  {
    assert a[0] in multiset(b) && b[0] in multiset(a);
    SortedHead(a, b[0]);
    SortedHead(b, a[0]);
    LexTotal(a[0], b[0]);
  }

  lemma SortedHead(a: seq<string>, name: string)
    requires a != [] && Sorted(a) && name in a
    ensures LexLeq(a[0], name)
  {
    LexTotal(a[0], a[0]);
  }

  /** The winners' list is determined by the score table. */
  lemma WinnersAreUnique(players: map<string, PlayerScore>, a: seq<string>, b: seq<string>)
    requires AreWinners(players, a) && AreWinners(players, b)
    ensures a == b
  {
    assert multiset(a) == multiset(b);
    SortedIsUnique(a, b);
  }

  /** There is no winner exactly when nobody plays: a negative or zero top score
    still wins.
  */
  lemma EmptyRosterOnly(players: map<string, PlayerScore>, winners: seq<string>)
    requires AreWinners(players, winners)
    ensures winners == [] <==> players == map[]
  {
    assert winners != [] ==> winners[0] in multiset(winners);
    if players != map[] {
      var best := TopExists(players, players.Keys);
      var named := TopNamed(players, players.Keys, players[best].callsign);
      assert best in named;
      assert multiset(winners)[players[best].callsign] > 0;
    } else {
      forall callsign ensures multiset(winners)[callsign] == 0 {
        assert TopNamed(players, players.Keys, callsign) == {};
      }
    }
  }

  lemma {:induction false} TopExists(players: map<string, PlayerScore>, badges: set<string>) returns (best: string)
    requires badges != {} && badges <= players.Keys
    ensures best in badges && forall other :: other in badges ==> players[other].score <= players[best].score
    decreases badges
  {
    best :| best in badges;
    if badges != {best} {
      assert badges - {best} != {} by {
        assert badges == {best} + (badges - {best});
      }
      var rest := TopExists(players, badges - {best});
      if players[rest].score >= players[best].score {
        best := rest;
      }
    }
  }

  /** A name is a winner exactly when some badge on the top score carries it. */
  lemma WinnersNameTheTop(players: map<string, PlayerScore>, winners: seq<string>, callsign: string)
    requires AreWinners(players, winners)
    ensures callsign in winners <==> exists badge :: IsTop(players, badge) && players[badge].callsign == callsign
  {
    var named := TopNamed(players, players.Keys, callsign);
    assert callsign in winners <==> multiset(winners)[callsign] > 0;
    if named != {} {
      var badge :| badge in named;
      assert IsTop(players, badge) && players[badge].callsign == callsign;
    }
    if badge :| IsTop(players, badge) && players[badge].callsign == callsign {
      assert badge in named;
    }
  }

  function Insert(names: seq<string>, name: string): (r: seq<string>)
    ensures multiset(r) == multiset(names) + multiset{name}
  {
    if names == [] || LexLeq(name, names[0]) then [name] + names
    else
      assert names == [names[0]] + names[1..];
      [names[0]] + Insert(names[1..], name)
  }

  lemma {:induction false} InsertSorted(names: seq<string>, name: string)
    requires Sorted(names)
    ensures Sorted(Insert(names, name))
  {
    var r := Insert(names, name);
    LexTotal(name, name);
    if names == [] {
    } else if LexLeq(name, names[0]) {
      forall j | 0 <= j < |names| ensures LexLeq(name, names[j]) {
        if j > 0 { LexTransitive(name, names[0], names[j]); }
      }
    } else {
      LexTotal(name, names[0]);
      InsertSorted(names[1..], name);
      forall j | 0 < j < |r| ensures LexLeq(names[0], r[j]) {
        assert r[j] in multiset(Insert(names[1..], name));
        assert r[j] in multiset(names[1..]) + multiset{name};
      }
    }
  }

  /** Finds the maximum, collects in one more pass and keeps the names sorted. */
  method NameWinners(players: map<string, PlayerScore>) returns (winners: seq<string>)
    ensures AreWinners(players, winners)
  {
    winners := [];
    if players == map[] {
      assert forall callsign :: TopNamed(players, players.Keys, callsign) == {};
      return;
    }
    var best :| best in players.Keys;
    var left := players.Keys - {best};
    while left != {}
      invariant best in players.Keys && left <= players.Keys
      invariant forall other :: other in players.Keys - left ==> players[other].score <= players[best].score
      decreases left
    {
      var badge :| badge in left;
      if players[badge].score > players[best].score { best := badge; }
      left := left - {badge};
    }
    var high := players[best].score;
    ghost var seen := {};
    left := players.Keys;
    while left != {}
      invariant left <= players.Keys && seen == players.Keys - left
      invariant Sorted(winners)
      invariant forall callsign :: multiset(winners)[callsign] == |TopNamed(players, seen, callsign)|
      decreases left
    {
      var badge :| badge in left;
      ghost var before := winners;
      if players[badge].score == high {
        InsertSorted(winners, players[badge].callsign);
        winners := Insert(winners, players[badge].callsign);
      }
      forall callsign ensures multiset(winners)[callsign] == |TopNamed(players, seen + {badge}, callsign)| {
        TopNamedGrows(players, seen, badge, callsign);
        assert multiset(before)[callsign] == |TopNamed(players, seen, callsign)|;
      }
      left, seen := left - {badge}, seen + {badge};
    }
    assert seen == players.Keys;
  }

  lemma TopNamedGrows(players: map<string, PlayerScore>, seen: set<string>, badge: string, callsign: string)
    requires badge in players && badge !in seen
    ensures |TopNamed(players, seen + {badge}, callsign)|
         == |TopNamed(players, seen, callsign)| + if IsTop(players, badge) && players[badge].callsign == callsign then 1 else 0
  {
    var before := TopNamed(players, seen, callsign);
    if IsTop(players, badge) && players[badge].callsign == callsign {
      assert TopNamed(players, seen + {badge}, callsign) == before + {badge};
    } else {
      assert TopNamed(players, seen + {badge}, callsign) == before;
    }
  }

  lemma WinnersExist(players: map<string, PlayerScore>)
    ensures exists winners :: AreWinners(players, winners)
  {
    var winners := CollectWinners(players, players.Keys);
    assert AreWinners(players, winners);
  }

  lemma {:induction false} CollectWinners(players: map<string, PlayerScore>, badges: set<string>) returns (winners: seq<string>)
    requires badges <= players.Keys
    ensures Sorted(winners)
    ensures forall callsign :: multiset(winners)[callsign] == |TopNamed(players, badges, callsign)|
    decreases badges
  {
    if badges == {} {
      winners := [];
      assert forall callsign :: TopNamed(players, badges, callsign) == {};
    } else {
      var badge :| badge in badges;
      var seen := badges - {badge};
      assert badges == seen + {badge};
      var rest := CollectWinners(players, seen);
      winners := rest;
      if IsTop(players, badge) {
        InsertSorted(rest, players[badge].callsign);
        winners := Insert(rest, players[badge].callsign);
      }
      forall callsign ensures multiset(winners)[callsign] == |TopNamed(players, badges, callsign)| {
        TopNamedGrows(players, seen, badge, callsign);
        assert multiset(rest)[callsign] == |TopNamed(players, seen, callsign)|;
      }
    }
  }

  /** The winners of a score table, as a function of the table. */
  ghost function WinnersOf(players: map<string, PlayerScore>): (winners: seq<string>)
    ensures AreWinners(players, winners)
  {
    WinnersExist(players);
    var winners :| AreWinners(players, winners);
    winners
  }
}
