/** A league keeps a win count per team name. A match credits its winner with
    one win; a ranking lists every counted team by descending wins. */
module League {

  datatype Team = Team(TeamName: string, MemberNames: seq<string>)

  datatype League = League(Teams: seq<Team>, Wins: map<string, int>)

  datatype RankingPosition = RankingPosition(wins: int, name: string)

  /** One call of MatchResult. */
  datatype Match = Match(teamOneName: string, teamOneResult: int, teamTwoName: string, teamTwoResult: int)

  function TeamNames(teams: seq<Team>): set<string>
  {
    set i | 0 <= i < |teams| :: teams[i].TeamName
  }

  /** The win table the construction loop builds: each team's name, in list
      order, mapped to zero. */
  function ZeroWins(teams: seq<Team>): (w: map<string, int>)
    ensures w.Keys == TeamNames(teams)
    ensures forall k :: k in w ==> w[k] == 0
  {
    if |teams| == 0 then map[]
    else
      var init := teams[..|teams| - 1];
      assert TeamNames(teams) == TeamNames(init) + {teams[|teams| - 1].TeamName} by {
        forall k | k in TeamNames(teams) ensures k in TeamNames(init) + {teams[|teams| - 1].TeamName} {
          var i :| 0 <= i < |teams| && teams[i].TeamName == k;
          if i < |teams| - 1 {
            assert init[i] == teams[i];
          }
        }
        forall k | k in TeamNames(init) ensures k in TeamNames(teams) {
          var i :| 0 <= i < |init| && init[i].TeamName == k;
          assert teams[i] == init[i];
        }
      }
      ZeroWins(init)[teams[|teams| - 1].TeamName := 0]
  }

  /** `NewLeague`: every listed team starts with zero wins, and the team list
      is kept as given. */
  function NewLeague(teams: seq<Team>): (l: League)
    ensures l.Teams == teams
    ensures l.Wins.Keys == TeamNames(teams)
    ensures forall k :: k in l.Wins ==> l.Wins[k] == 0
  {
    League(teams, ZeroWins(teams))
  }

  /** The team a match credits: team one only on a strictly higher score, so
      a draw goes to team two. */
  function Winner(m: Match): (name: string)
    ensures m.teamOneResult > m.teamTwoResult ==> name == m.teamOneName
    ensures m.teamOneResult <= m.teamTwoResult ==> name == m.teamTwoName
  {
    if m.teamOneResult > m.teamTwoResult then m.teamOneName else m.teamTwoName
  }

  /** `(*League).MatchResult`: the winner's count goes up by one (a name not
      yet in the table counts as zero wins); every other entry, the loser's
      included, and the team list are untouched. */
  function MatchResult(l: League, m: Match): (l': League)
    ensures l'.Teams == l.Teams
    ensures l'.Wins.Keys == l.Wins.Keys + {Winner(m)}
    ensures l'.Wins[Winner(m)] == (if Winner(m) in l.Wins then l.Wins[Winner(m)] else 0) + 1
    ensures forall k :: k in l.Wins && k != Winner(m) ==> l'.Wins[k] == l.Wins[k]
  {
    var w := Winner(m);
    if w !in l.Wins then l.(Wins := l.Wins[w := 1])
    else l.(Wins := l.Wins[w := l.Wins[w] + 1])
  }

  /** The league after a sequence of match results, applied in order. */
  function Play(l: League, ms: seq<Match>): League
    decreases |ms|
  {
    if |ms| == 0 then l else Play(MatchResult(l, ms[0]), ms[1..])
  }

  /** The sum of all win counts. */
  ghost function TotalWins(w: map<string, int>): int
    decreases |w|
  {
    if w == map[] then 0
    else
      var k :| k in w;
      w[k] + TotalWins(w - {k})
  }

  /** The sum may be taken starting from any key. */
  lemma {:induction false} TotalWinsSplit(w: map<string, int>, k: string)
    requires k in w
    ensures TotalWins(w) == w[k] + TotalWins(w - {k})
    decreases |w|
  {
    var j :| j in w && TotalWins(w) == w[j] + TotalWins(w - {j});
    if j != k {
      var both := w - {j} - {k};
      assert (w - {j}) - {k} == both && (w - {k}) - {j} == both;
      TotalWinsSplit(w - {j}, k);
      TotalWinsSplit(w - {k}, j);
    }
  }

  lemma {:induction false} TotalWinsOfZeros(w: map<string, int>)
    requires forall k :: k in w ==> w[k] == 0
    ensures TotalWins(w) == 0
    decreases |w|
  {
    if w != map[] {
      var j :| j in w && TotalWins(w) == w[j] + TotalWins(w - {j});
      TotalWinsOfZeros(w - {j});
    }
  }

  /** Every match result adds exactly one win to the table. */
  lemma MatchResultAddsOneWin(l: League, m: Match)
    ensures TotalWins(MatchResult(l, m).Wins) == TotalWins(l.Wins) + 1
  {
    var w := Winner(m);
    var after := MatchResult(l, m).Wins;
    TotalWinsSplit(after, w);
    assert after - {w} == l.Wins - {w};
    if w in l.Wins {
      TotalWinsSplit(l.Wins, w);
    } else {
      assert l.Wins - {w} == l.Wins;
    }
  }

  /** Since NewLeague, the wins in the table add up to the number of match
      results recorded. */
  lemma {:induction false} TotalWinsCountsMatches(teams: seq<Team>, ms: seq<Match>)
    ensures TotalWins(Play(NewLeague(teams), ms).Wins) == |ms|
  {
    TotalWinsOfZeros(NewLeague(teams).Wins);
    PlayAddsWins(NewLeague(teams), ms);
  }

  lemma {:induction false} PlayAddsWins(l: League, ms: seq<Match>)
    ensures TotalWins(Play(l, ms).Wins) == TotalWins(l.Wins) + |ms|
    decreases |ms|
  {
    if |ms| > 0 {
      MatchResultAddsOneWin(l, ms[0]);
      PlayAddsWins(MatchResult(l, ms[0]), ms[1..]);
    }
  }

  /** In a two-team table a match result credits exactly one of the two. */
  lemma MatchResultOnTwoTeams(l: League, m: Match, a: string, b: string, x: int, y: int)
    requires a != b && l.Wins == map[a := x, b := y]
    ensures Winner(m) == a ==> MatchResult(l, m).Wins == map[a := x + 1, b := y]
    ensures Winner(m) == b ==> MatchResult(l, m).Wins == map[a := x, b := y + 1]
  {
  }

  /** The program's season: cornholio beats DukeNukem 3:1 twice and loses
      3:5 once. */
  lemma SampleSeason()
    ensures
      var l := Play(NewLeague([Team("cornholio", ["A", "B", "C"]), Team("DukeNukem", ["C", "D", "E"])]),
                    [Match("cornholio", 3, "DukeNukem", 1),
                     Match("cornholio", 3, "DukeNukem", 1),
                     Match("cornholio", 3, "DukeNukem", 5)]);
      l.Wins == map["cornholio" := 2, "DukeNukem" := 1]
  {
    var teams := [Team("cornholio", ["A", "B", "C"]), Team("DukeNukem", ["C", "D", "E"])];
    var m1 := Match("cornholio", 3, "DukeNukem", 1);
    var m2 := Match("cornholio", 3, "DukeNukem", 5);
    var l0 := NewLeague(teams);
    assert TeamNames(teams) == {"cornholio", "DukeNukem"} by {
      assert teams[0].TeamName == "cornholio" && teams[1].TeamName == "DukeNukem";
    }
    assert l0.Wins == map["cornholio" := 0, "DukeNukem" := 0];
    var l1 := MatchResult(l0, m1);
    MatchResultOnTwoTeams(l0, m1, "cornholio", "DukeNukem", 0, 0);
    var l2 := MatchResult(l1, m1);
    MatchResultOnTwoTeams(l1, m1, "cornholio", "DukeNukem", 1, 0);
    var l3 := MatchResult(l2, m2);
    MatchResultOnTwoTeams(l2, m2, "cornholio", "DukeNukem", 2, 0);
    assert Play(l0, [m1, m1, m2]) == Play(l1, [m1, m2]);
    assert Play(l1, [m1, m2]) == Play(l2, [m2]);
    assert Play(l2, [m2]) == Play(l3, []);
  }

  /** Ordered by non-increasing wins; the order among equal counts is left
      open, as an unstable sort leaves it. */
  predicate SortedByWins(r: seq<RankingPosition>)
  {
    forall i, j :: 0 <= i < j < |r| ==> r[i].wins >= r[j].wins
  }

  /** `r` lists each key of the win table exactly once, with its count. */
  predicate ListsEachTeamOnce(wins: map<string, int>, r: seq<RankingPosition>)
  {
    && (forall i :: 0 <= i < |r| ==> r[i].name in wins && r[i].wins == wins[r[i].name])
    && (forall i, j :: 0 <= i < j < |r| ==> r[i].name != r[j].name)
    && (forall k :: k in wins ==> exists i :: 0 <= i < |r| && r[i].name == k)
  }

  /** A finite non-empty set of names has one with the most wins. */
  lemma {:induction false} MostWinsExists(wins: map<string, int>, names: set<string>)
    requires names != {} && names <= wins.Keys
    ensures exists k :: k in names && forall k' :: k' in names ==> wins[k'] <= wins[k]
    decreases |names|
  {
    var x :| x in names;
    if names != {x} {
      MostWinsExists(wins, names - {x});
      var k :| k in names - {x} && forall k' :: k' in names - {x} ==> wins[k'] <= wins[k];
      if wins[x] > wins[k] {
        assert forall k' :: k' in names ==> wins[k'] <= wins[x];
      } else {
        assert forall k' :: k' in names ==> wins[k'] <= wins[k];
      }
    } else {
      assert forall k' :: k' in names ==> wins[k'] <= wins[x];
    }
  }

  /** What the ranking loop keeps: `r` holds the teams already taken, each
      once and with its count, in order, and none has fewer wins than a team
      still in `rest`. */
  ghost predicate RankingInvariant(wins: map<string, int>, r: seq<RankingPosition>, rest: set<string>)
  {
    && rest <= wins.Keys
    && |r| + |rest| == |wins|
    && (forall i :: 0 <= i < |r| ==> r[i].name in wins && r[i].name !in rest && r[i].wins == wins[r[i].name])
    && (forall i, j :: 0 <= i < j < |r| ==> r[i].name != r[j].name)
    && (forall k :: k in wins && k !in rest ==> exists i :: 0 <= i < |r| && r[i].name == k)
    && SortedByWins(r)
    && (forall i, k :: 0 <= i < |r| && k in rest ==> r[i].wins >= wins[k])
  }

  /** Taking team `k` next keeps every listed name a distinct, counted key
      that is no longer waiting, and every taken key listed. */
  lemma StepKeepsEntries(wins: map<string, int>, r: seq<RankingPosition>, rest: set<string>, k: string)
    requires RankingInvariant(wins, r, rest) && k in rest
    ensures var r', rest' := r + [RankingPosition(wins[k], k)], rest - {k};
      && (forall i :: 0 <= i < |r'| ==> r'[i].name in wins && r'[i].name !in rest' && r'[i].wins == wins[r'[i].name])
      && (forall i, j :: 0 <= i < j < |r'| ==> r'[i].name != r'[j].name)
      && (forall k' :: k' in wins && k' !in rest' ==> exists i :: 0 <= i < |r'| && r'[i].name == k')
  {
    var r', rest' := r + [RankingPosition(wins[k], k)], rest - {k};
    forall i | 0 <= i < |r'|
      ensures r'[i].name in wins && r'[i].name !in rest' && r'[i].wins == wins[r'[i].name]
    {
      if i < |r| {
        assert r'[i] == r[i];
      }
    }
    forall i, j | 0 <= i < j < |r'|
      ensures r'[i].name != r'[j].name
    {
      assert r'[i] == r[i];
      if j < |r| {
        assert r'[j] == r[j];
      }
    }
    forall k' | k' in wins && k' !in rest'
      ensures exists i :: 0 <= i < |r'| && r'[i].name == k'
    {
      if k' == k {
        assert r'[|r|].name == k';
      } else {
        var i :| 0 <= i < |r| && r[i].name == k';
        assert r'[i].name == k';
      }
    }
  }

  /** Taking a remaining team with the most wins keeps the list sorted and
      ahead of every team still waiting. */
  lemma StepKeepsOrder(wins: map<string, int>, r: seq<RankingPosition>, rest: set<string>, k: string)
    requires RankingInvariant(wins, r, rest)
    requires k in rest && forall k' :: k' in rest ==> wins[k'] <= wins[k]
    ensures var r', rest' := r + [RankingPosition(wins[k], k)], rest - {k};
      && SortedByWins(r')
      && (forall i, k' :: 0 <= i < |r'| && k' in rest' ==> r'[i].wins >= wins[k'])
  {
    var r', rest' := r + [RankingPosition(wins[k], k)], rest - {k};
    forall i, j | 0 <= i < j < |r'|
      ensures r'[i].wins >= r'[j].wins
    {
      assert r'[i] == r[i];
      if j < |r| {
        assert r'[j] == r[j];
      }
    }
    forall i, k' | 0 <= i < |r'| && k' in rest'
      ensures r'[i].wins >= wins[k']
    {
      if i < |r| {
        assert r'[i] == r[i];
      }
    }
  }

  /** Taking a remaining team with the most wins keeps the invariant. */
  lemma RankingStep(wins: map<string, int>, r: seq<RankingPosition>, rest: set<string>, k: string)
    requires RankingInvariant(wins, r, rest)
    requires k in rest && forall k' :: k' in rest ==> wins[k'] <= wins[k]
    ensures RankingInvariant(wins, r + [RankingPosition(wins[k], k)], rest - {k})
  {
    assert |rest - {k}| == |rest| - 1;
    StepKeepsEntries(wins, r, rest, k);
    StepKeepsOrder(wins, r, rest, k);
  }

  /** `(*League).Ranking`: one position per entry of the win table, ordered
      by non-increasing wins. The Go code gathers the entries in map order
      and sorts them; here the remaining team with the most wins is taken
      next, which yields one of the orders the sort may produce. */
  method Ranking(l: League) returns (r: seq<RankingPosition>)
    ensures |r| == |l.Wins|
    ensures ListsEachTeamOnce(l.Wins, r)
    ensures SortedByWins(r)
  {
    r := [];
    var rest := l.Wins.Keys;
    while rest != {}
      invariant RankingInvariant(l.Wins, r, rest)
      decreases rest
    {
      MostWinsExists(l.Wins, rest);
      var k :| k in rest && forall k' :: k' in rest ==> l.Wins[k'] <= l.Wins[k];
      RankingStep(l.Wins, r, rest, k);
      r := r + [RankingPosition(l.Wins[k], k)];
      rest := rest - {k};
    }
  }

  /** With the sample season's table there are no ties, so every ranking
      Ranking may return is cornholio (2 wins) then DukeNukem (1 win), the
      order the program prints. */
  lemma SampleRankingIsForced(r: seq<RankingPosition>)
    requires |r| == 2
    requires ListsEachTeamOnce(map["cornholio" := 2, "DukeNukem" := 1], r)
    requires SortedByWins(r)
    ensures r == [RankingPosition(2, "cornholio"), RankingPosition(1, "DukeNukem")]
  {
    var wins := map["cornholio" := 2, "DukeNukem" := 1];
    assert r[0].name in wins && r[1].name in wins && r[0].name != r[1].name;
    assert r[0].wins >= r[1].wins;
  }
}
