/** The standings engine of the ongoing-tournament view: the matches of a group,
    result lookup, per-group and tournament-wide statistics, the ranking, and the
    "every match reported" gate. */
module Standings {
  import opened Wrappers
  import opened Seqs
  import opened Domain
  import opened RankingSort

  /** A match to be played between two participants of a group. */
  datatype Match = Match(player1: string, player2: string)

  // ---------------------------------------------------------------------------
  // Matches of a group

  /** Participant `i` against every later participant, in index order. */
  function Row(p: seq<string>, i: nat): (r: seq<Match>)
    requires i < |p|
    ensures |r| == |p| - i - 1
    ensures forall k :: 0 <= k < |r| ==> r[k] == Match(p[i], p[i + 1 + k])
  {
    seq(|p| - i - 1, k requires 0 <= k < |p| - i - 1 => Match(p[i], p[i + 1 + k]))
  }

  /** The rows of the first `n` participants, one after the other. */
  function Triangle(p: seq<string>, n: nat): seq<Match>
    requires n <= |p|
  {
    if n == 0 then [] else Triangle(p, n - 1) + Row(p, n - 1)
  }

  /** The matches of a group: one knockout match for two participants, and every
      pair `(p[i], p[j])` with `i < j`, in index order, otherwise. Both cases are the
      same list of matches, which the second postcondition states. */
  method GenerateMatches(p: seq<string>) returns (matches: seq<Match>)
    ensures |p| == 2 ==> matches == [Match(p[0], p[1])]
    ensures matches == Triangle(p, |p|)
    ensures 2 * |matches| == |p| * (|p| - 1)
    ensures forall m :: m in matches <==> exists i, j :: 0 <= i < j < |p| && m == Match(p[i], p[j])
  {
    if |p| == 2 {
      matches := [Match(p[0], p[1])];
      TwoPlayerTriangle(p);
    } else {
      matches := [];
      var i := 0;
      while i < |p|
        invariant 0 <= i <= |p|
        invariant matches == Triangle(p, i)
      {
        matches := AppendRow(p, i, matches);
        i := i + 1;
      }
    }
    AllPairs(p);
  }

  /** Two participants play one match. */
  lemma TwoPlayerTriangle(p: seq<string>)
    requires |p| == 2
    ensures Triangle(p, |p|) == [Match(p[0], p[1])]
  {
    assert Row(p, 1) == [];
    assert Triangle(p, 1) == Row(p, 0);
  }

  /** The full triangle holds every pair once: `n(n-1)/2` matches, each a pair
      `(p[i], p[j])` with `i < j`. */
  lemma AllPairs(p: seq<string>)
    ensures 2 * |Triangle(p, |p|)| == |p| * (|p| - 1)
    ensures forall m :: m in Triangle(p, |p|) <==> exists i, j :: 0 <= i < j < |p| && m == Match(p[i], p[j])
  {
    TriangleCount(p, |p|);
    forall m ensures m in Triangle(p, |p|) <==> exists i, j :: 0 <= i < j < |p| && m == Match(p[i], p[j]) {
      TriangleMember(p, |p|, m);
    }
  }

  /** The inner loop: participant `i` against every later participant, in order. */
  method AppendRow(p: seq<string>, i: nat, before: seq<Match>) returns (matches: seq<Match>)
    requires i < |p|
    ensures matches == before + Row(p, i)
  {
    matches := before;
    var j := i + 1;
    while j < |p|
      invariant i + 1 <= j <= |p|
      invariant matches == before + Row(p, i)[..j - i - 1]
    {
      assert Row(p, i)[..j - i] == Row(p, i)[..j - i - 1] + [Match(p[i], p[j])];
      matches := matches + [Match(p[i], p[j])];
      j := j + 1;
    }
    assert Row(p, i)[..|p| - i - 1] == Row(p, i);
  }

  lemma {:induction false} TriangleCount(p: seq<string>, n: nat)
    requires n <= |p|
    ensures 2 * |Triangle(p, n)| == n * (2 * |p| - n - 1)
  {
    if n > 0 {
      TriangleCount(p, n - 1);
      var len := |p|;
      assert (n - 1) * (2 * len - n) + 2 * (len - n) == n * (2 * len - n - 1);
    }
  }

  lemma {:induction false} TriangleMember(p: seq<string>, n: nat, m: Match)
    requires n <= |p|
    ensures m in Triangle(p, n) <==> exists i, j :: 0 <= i < n && i < j < |p| && m == Match(p[i], p[j])
  {
    if n > 0 {
      TriangleMember(p, n - 1, m);
      var row := Row(p, n - 1);
      if m in row {
        var k :| 0 <= k < |row| && row[k] == m;
        assert m == Match(p[n - 1], p[n - 1 + 1 + k]);
      }
      if exists i, j :: 0 <= i < n && i < j < |p| && m == Match(p[i], p[j]) {
        var i, j :| 0 <= i < n && i < j < |p| && m == Match(p[i], p[j]);
        if i == n - 1 {
          assert row[j - n] == m;
        }
      }
    }
  }

  /** Two matches are between the same two players, in either order. */
  predicate SameOpponents(m1: Match, m2: Match) {
    (m1.player1 == m2.player1 && m1.player2 == m2.player2)
    || (m1.player1 == m2.player2 && m1.player2 == m2.player1)
  }

  /** With distinct participants no two generated matches are between the same two
      players, so a group of n plays each pairing exactly once. */
  lemma {:induction false} MatchesAreDistinctPairings(p: seq<string>, n: nat)
    requires n <= |p| && NoDup(p)
    ensures forall x, y :: 0 <= x < y < |Triangle(p, n)| ==> !SameOpponents(Triangle(p, n)[x], Triangle(p, n)[y])
  {
    if n > 0 {
      MatchesAreDistinctPairings(p, n - 1);
      var front, row := Triangle(p, n - 1), Row(p, n - 1);
      var t := Triangle(p, n);
      assert t == front + row;
      forall x, y | 0 <= x < y < |t| ensures !SameOpponents(t[x], t[y]) {
        if y < |front| {
          assert t[x] == front[x] && t[y] == front[y];
        } else if x >= |front| {
          assert t[x] == Match(p[n - 1], p[n + x - |front|]);
          assert t[y] == Match(p[n - 1], p[n + y - |front|]);
        } else {
          assert t[x] == front[x];
          assert front[x] in front;
          TriangleMember(p, n - 1, front[x]);
          var a, b :| 0 <= a < n - 1 && a < b < |p| && front[x] == Match(p[a], p[b]);
          assert t[y] == Match(p[n - 1], p[n + y - |front|]);
        }
      }
    }
  }

  // ---------------------------------------------------------------------------
  // Result lookup

  /** `r` is the result of the match between `a` and `b`, whichever side each played. */
  predicate IsResultFor(r: MatchResult, a: string, b: string) {
    (r.player1 == a && r.player2 == b) || (r.player1 == b && r.player2 == a)
  }

  /** Position of the first result for the pairing, or `|rs|` when there is none. */
  function FirstResultIndex(rs: seq<MatchResult>, a: string, b: string): (k: nat)
    ensures k <= |rs|
    ensures k < |rs| ==> IsResultFor(rs[k], a, b)
    ensures forall j :: 0 <= j < k ==> !IsResultFor(rs[j], a, b)
    decreases |rs|
  {
    if |rs| == 0 then 0
    else if IsResultFor(rs[0], a, b) then 0
    else 1 + FirstResultIndex(rs[1..], a, b)
  }

  /** The result shown for a match: the first one in list order between the two
      players in either order, or nothing. */
  function FindResult(rs: seq<MatchResult>, a: string, b: string): (found: Option<MatchResult>)
    ensures found.None? <==> forall r :: r in rs ==> !IsResultFor(r, a, b)
    ensures found.Some? ==> exists k :: (0 <= k < |rs| && rs[k] == found.value
      && IsResultFor(rs[k], a, b) && forall j :: 0 <= j < k ==> !IsResultFor(rs[j], a, b))
  {
    var k := FirstResultIndex(rs, a, b);
    if k < |rs| then Some(rs[k]) else None
  }

  /** The lookup does not depend on which player is named first. */
  lemma FindResultSymmetric(rs: seq<MatchResult>, a: string, b: string)
    ensures FindResult(rs, a, b) == FindResult(rs, b, a)
  {
  }

  // ---------------------------------------------------------------------------
  // Per-group statistics

  /** A score as the client adds it up: a missing score (a walkover) counts as 0. */
  function Games(score: Option<int>): int {
    score.GetOr(0)
  }

  /** Games `p` took in `r`; the player1 side is checked first. */
  function GamesFor(r: MatchResult, p: string): int {
    if r.player1 == p then Games(r.score1) else if r.player2 == p then Games(r.score2) else 0
  }

  /** Games `p`'s opponent took in `r`. */
  function GamesAgainst(r: MatchResult, p: string): int {
    if r.player1 == p then Games(r.score2) else if r.player2 == p then Games(r.score1) else 0
  }

  /** Number of results won by `p`. */
  function Wins(rs: seq<MatchResult>, p: string): (n: nat)
    ensures n <= |rs|
    decreases |rs|
  {
    if |rs| == 0 then 0
    else Wins(rs[..|rs| - 1], p) + (if rs[|rs| - 1].winner == Some(p) then 1 else 0)
  }

  function GamesWon(rs: seq<MatchResult>, p: string): int
    decreases |rs|
  {
    if |rs| == 0 then 0 else GamesWon(rs[..|rs| - 1], p) + GamesFor(rs[|rs| - 1], p)
  }

  function GamesLost(rs: seq<MatchResult>, p: string): int
    decreases |rs|
  {
    if |rs| == 0 then 0 else GamesLost(rs[..|rs| - 1], p) + GamesAgainst(rs[|rs| - 1], p)
  }

  /** The standings key of `p` in a group: two points a win, game difference, games won. */
  function GroupRank(rs: seq<MatchResult>, p: string): (r: Rank)
    ensures 0 <= r.points <= 2 * |rs| && r.points % 2 == 0
    ensures rs == [] ==> r == Zero
  {
    Rank(2 * Wins(rs, p), GamesWon(rs, p) - GamesLost(rs, p), GamesWon(rs, p))
  }

  /** Points of `p`: two for every result `p` won. */
  method CalculatePoints(rs: seq<MatchResult>, p: string) returns (points: int)
    ensures points == 2 * Wins(rs, p)
    ensures 0 <= points <= 2 * |rs|
  {
    points := 0;
    for i := 0 to |rs|
      invariant points == 2 * Wins(rs[..i], p)
    {
      assert rs[..i + 1][..i] == rs[..i];
      if rs[i].winner == Some(p) {
        points := points + 2;
      }
    }
    assert rs[..|rs|] == rs;
  }

  /** Games won minus games lost by `p`. */
  method CalculateSetDifference(rs: seq<MatchResult>, p: string) returns (diff: int)
    ensures diff == GamesWon(rs, p) - GamesLost(rs, p)
  {
    var won, lost := 0, 0;
    for i := 0 to |rs|
      invariant won == GamesWon(rs[..i], p) && lost == GamesLost(rs[..i], p)
    {
      assert rs[..i + 1][..i] == rs[..i];
      var r := rs[i];
      if r.player1 == p {
        won := won + Games(r.score1);
        lost := lost + Games(r.score2);
      } else if r.player2 == p {
        won := won + Games(r.score2);
        lost := lost + Games(r.score1);
      }
    }
    assert rs[..|rs|] == rs;
    diff := won - lost;
  }

  /** Games won by `p`. */
  method CalculateGamesWon(rs: seq<MatchResult>, p: string) returns (won: int)
    ensures won == GamesWon(rs, p)
  {
    won := 0;
    for i := 0 to |rs|
      invariant won == GamesWon(rs[..i], p)
    {
      assert rs[..i + 1][..i] == rs[..i];
      var r := rs[i];
      if r.player1 == p {
        won := won + Games(r.score1);
      } else if r.player2 == p {
        won := won + Games(r.score2);
      }
    }
    assert rs[..|rs|] == rs;
  }

  /** A player who takes part in none of the results has nothing. */
  lemma {:induction false} NoResultsNoStanding(rs: seq<MatchResult>, p: string)
    requires forall r :: r in rs ==> r.player1 != p && r.player2 != p && r.winner != Some(p)
    ensures GroupRank(rs, p) == Zero
    decreases |rs|
  {
    if |rs| > 0 {
      NoResultsNoStanding(rs[..|rs| - 1], p);
      assert rs[|rs| - 1] in rs;
    }
  }

  // Sums over all participants of a group.

  function TotalWins(ps: seq<string>, rs: seq<MatchResult>): int
    decreases |ps|
  {
    if |ps| == 0 then 0 else Wins(rs, ps[0]) + TotalWins(ps[1..], rs)
  }

  function TotalGamesWon(ps: seq<string>, rs: seq<MatchResult>): int
    decreases |ps|
  {
    if |ps| == 0 then 0 else GamesWon(rs, ps[0]) + TotalGamesWon(ps[1..], rs)
  }

  function TotalGamesLost(ps: seq<string>, rs: seq<MatchResult>): int
    decreases |ps|
  {
    if |ps| == 0 then 0 else GamesLost(rs, ps[0]) + TotalGamesLost(ps[1..], rs)
  }

  /** Games the two sides of `r` took together. */
  function GamesPlayed(r: MatchResult): int {
    Games(r.score1) + Games(r.score2)
  }

  /** A result between two different participants of the group, won by one of them. */
  predicate InGroup(r: MatchResult, ps: seq<string>) {
    r.player1 in ps && r.player2 in ps && r.player1 != r.player2
    && r.winner.Some? && r.winner.value in ps
  }

  lemma {:induction false} WinsOfOneResult(ps: seq<string>, rs: seq<MatchResult>, r: MatchResult)
    requires NoDup(ps)
    ensures TotalWins(ps, rs + [r]) == TotalWins(ps, rs) + (if r.winner.Some? && r.winner.value in ps then 1 else 0)
    decreases |ps|
  {
    assert (rs + [r])[..|rs|] == rs;
    if |ps| > 0 {
      WinsOfOneResult(ps[1..], rs, r);
      assert ps == [ps[0]] + ps[1..];
      assert ps[0] !in ps[1..] by {
        forall k | 0 <= k < |ps[1..]| ensures ps[1..][k] != ps[0] { assert ps[1..][k] == ps[k + 1]; }
      }
    }
  }

  lemma {:induction false} GamesOfOneResult(ps: seq<string>, rs: seq<MatchResult>, r: MatchResult)
    requires NoDup(ps) && r.player1 != r.player2
    ensures TotalGamesWon(ps, rs + [r]) == TotalGamesWon(ps, rs)
      + (if r.player1 in ps then Games(r.score1) else 0) + (if r.player2 in ps then Games(r.score2) else 0)
    ensures TotalGamesLost(ps, rs + [r]) == TotalGamesLost(ps, rs)
      + (if r.player1 in ps then Games(r.score2) else 0) + (if r.player2 in ps then Games(r.score1) else 0)
    decreases |ps|
  {
    assert (rs + [r])[..|rs|] == rs;
    if |ps| > 0 {
      GamesOfOneResult(ps[1..], rs, r);
      assert ps == [ps[0]] + ps[1..];
      assert ps[0] !in ps[1..] by {
        forall k | 0 <= k < |ps[1..]| ensures ps[1..][k] != ps[0] { assert ps[1..][k] == ps[k + 1]; }
      }
    }
  }

  lemma {:induction false} NoResultsNoTotals(ps: seq<string>)
    ensures TotalWins(ps, []) == 0 && TotalGamesWon(ps, []) == 0 && TotalGamesLost(ps, []) == 0
    decreases |ps|
  {
    if |ps| > 0 {
      NoResultsNoTotals(ps[1..]);
    }
  }

  /** Every result of a group hands out exactly two points, so the points of the
      participants add up to twice the number of results. */
  lemma {:induction false} PointsConservation(ps: seq<string>, rs: seq<MatchResult>)
    requires NoDup(ps)
    requires forall r :: r in rs ==> InGroup(r, ps)
    ensures 2 * TotalWins(ps, rs) == 2 * |rs|
    decreases |rs|
  {
    if |rs| == 0 {
      NoResultsNoTotals(ps);
    } else {
      var init, last := rs[..|rs| - 1], rs[|rs| - 1];
      assert rs == init + [last];
      assert last in rs;
      assert forall r :: r in init ==> r in rs;
      assert InGroup(last, ps);
      PointsConservation(ps, init);
      WinsOfOneResult(ps, init, last);
      assert TotalWins(ps, rs) == TotalWins(ps, init) + 1;
    }
  }

  /** Games won and lost balance: over the participants of a group, the set
      differences add up to zero, and all games won add up to all games played. */
  lemma {:induction false} SetDifferenceZeroSum(ps: seq<string>, rs: seq<MatchResult>)
    requires NoDup(ps)
    requires forall r :: r in rs ==> InGroup(r, ps)
    ensures TotalGamesWon(ps, rs) == TotalGamesLost(ps, rs)
    ensures TotalGamesWon(ps, rs) == SumGamesPlayed(rs)
    decreases |rs|
  {
    if |rs| == 0 {
      NoResultsNoTotals(ps);
    } else {
      var init, last := rs[..|rs| - 1], rs[|rs| - 1];
      assert rs == init + [last];
      assert last in rs;
      assert forall r :: r in init ==> r in rs;
      assert InGroup(last, ps);
      SetDifferenceZeroSum(ps, init);
      GamesOfOneResult(ps, init, last);
      assert SumGamesPlayed(rs) == SumGamesPlayed(init) + GamesPlayed(last);
    }
  }

  function SumGamesPlayed(rs: seq<MatchResult>): int
    decreases |rs|
  {
    if |rs| == 0 then 0 else SumGamesPlayed(rs[..|rs| - 1]) + GamesPlayed(rs[|rs| - 1])
  }

  // ---------------------------------------------------------------------------
  // Group standings

  /** The key a group's standings sort by. */
  function GroupKey(rs: seq<MatchResult>): string -> Rank {
    p => GroupRank(rs, p)
  }

  /** The group table: a permutation of the participants, best first by (points,
      set difference, games won), full ties in participant order. */
  method SortedParticipants(rs: seq<MatchResult>, ps: seq<string>) returns (table: seq<string>)
    ensures table == SortByRank(ps, GroupKey(rs))
    ensures multiset(table) == multiset(ps)
    ensures forall i, j :: 0 <= i < j < |table| ==> AtLeast(GroupRank(rs, table[i]), GroupRank(rs, table[j]))
    ensures StableFor(table, ps, GroupKey(rs))
  {
    table := SortByRank(ps, GroupKey(rs));
    SortByRankCorrect(ps, GroupKey(rs));
  }

  /** A three-player group: A beats B 4-2 and C 4-1, B beats C 4-3. */
  function ExampleResults(): seq<MatchResult> {
    [ MatchResult(1, 1, "A", "B", Played, Some(4), Some(2), Some("A")),
      MatchResult(2, 1, "A", "C", Played, Some(4), Some(1), Some("A")),
      MatchResult(3, 1, "B", "C", Played, Some(4), Some(3), Some("B")) ]
  }

  /** The example group stands A (4 points, +5), B (2 points, -1), C (0 points, -4),
      and its table reads A, B, C whatever order the participants are listed in. */
  lemma ExampleStandings()
    ensures GroupRank(ExampleResults(), "A") == Rank(4, 5, 8)
    ensures GroupRank(ExampleResults(), "B") == Rank(2, -1, 6)
    ensures GroupRank(ExampleResults(), "C") == Rank(0, -4, 4)
    ensures SortByRank(["C", "B", "A"], GroupKey(ExampleResults())) == ["A", "B", "C"]
    ensures forall q: seq<string> :: multiset(q) == multiset{"A", "B", "C"} ==>
      SortByRank(q, GroupKey(ExampleResults())) == ["A", "B", "C"]
  {
    ExampleRanks();
    forall q: seq<string> | multiset(q) == multiset{"A", "B", "C"}
      ensures SortByRank(q, GroupKey(ExampleResults())) == ["A", "B", "C"]
    {
      ExampleTable(q);
    }
    ExampleTable(["C", "B", "A"]);
  }

  /** Any listing of the three example players sorts to A, B, C: the sort is a
      sorted permutation and the three keys are strictly ordered. */
  lemma ExampleTable(q: seq<string>)
    requires multiset(q) == multiset{"A", "B", "C"}
    ensures SortByRank(q, GroupKey(ExampleResults())) == ["A", "B", "C"]
  {
    var key := GroupKey(ExampleResults());
    ExampleRanks();
    var r := SortByRank(q, key);
    SortByRankCorrect(q, key);
    assert |r| == |multiset(r)| == 3;
    assert r[0] in multiset(r) && r[1] in multiset(r) && r[2] in multiset(r);
    assert r == [r[0], r[1], r[2]];
    assert multiset(r) == multiset{r[0], r[1], r[2]};
    assert AtLeast(key(r[0]), key(r[1])) && AtLeast(key(r[1]), key(r[2]));
  }

  /** The standing of each example player. */
  lemma ExampleRanks()
    ensures GroupRank(ExampleResults(), "A") == Rank(4, 5, 8)
    ensures GroupRank(ExampleResults(), "B") == Rank(2, -1, 6)
    ensures GroupRank(ExampleResults(), "C") == Rank(0, -4, 4)
  {
    var rs := ExampleResults();
    var x, y, z := rs[0], rs[1], rs[2];
    assert rs == [x, y, z];
    assert [x, y, z][..2] == [x, y] && [x, y][..1] == [x] && [x][..0] == [];
    assert "A" != "B" && "A" != "C" && "B" != "C";
    assert x.winner == Some("A") && x.score1 == Some(4);
    assert Wins([x], "A") == 1;
    assert GamesWon([x], "A") == 4;
    assert GamesLost([x], "A") == 2;
    assert GroupRank([x], "A") == Rank(2, 2, 4);
    assert Wins([x], "B") == 0 && GamesWon([x], "B") == 2 && GamesLost([x], "B") == 4;
    assert GroupRank([x], "B") == Rank(0, -2, 2);
    assert Wins([x], "C") == 0 && GamesWon([x], "C") == 0 && GamesLost([x], "C") == 0;
    assert GroupRank([x], "C") == Zero;
    assert GroupRank([x, y], "A") == Rank(4, 5, 8);
    assert GroupRank([x, y], "B") == Rank(0, -2, 2);
    assert GroupRank([x, y], "C") == Rank(0, -3, 1);
    assert GroupRank(rs, "A") == Rank(4, 5, 8);
    assert GroupRank(rs, "B") == Rank(2, -1, 6);
    assert GroupRank(rs, "C") == Rank(0, -4, 4);
  }

  // ---------------------------------------------------------------------------
  // Tournament-wide totals

  /** The sum of `p`'s group standings over every group whose participants include `p`. */
  function TotalRank(groups: seq<Group>, results: map<int, seq<MatchResult>>, p: string): (r: Rank)
    ensures r.points >= 0 && r.points % 2 == 0
    decreases |groups|
  {
    if |groups| == 0 then Zero
    else
      var g := groups[|groups| - 1];
      var before := TotalRank(groups[..|groups| - 1], results, p);
      if p in g.participants then before.Plus(GroupRank(ResultsOf(results, g.id), p)) else before
  }

  /** Total points of `p` over the groups `p` belongs to. */
  method CalculateTotalPoints(groups: seq<Group>, results: map<int, seq<MatchResult>>, p: string)
    returns (total: int)
    ensures total == TotalRank(groups, results, p).points
  {
    total := 0;
    for i := 0 to |groups|
      invariant total == TotalRank(groups[..i], results, p).points
    {
      assert groups[..i + 1][..i] == groups[..i];
      if p in groups[i].participants {
        var points := CalculatePoints(ResultsOf(results, groups[i].id), p);
        total := total + points;
      }
    }
    assert groups[..|groups|] == groups;
  }

  /** Total set difference of `p` over the groups `p` belongs to. */
  method CalculateTotalSetDifference(groups: seq<Group>, results: map<int, seq<MatchResult>>, p: string)
    returns (total: int)
    ensures total == TotalRank(groups, results, p).setDiff
  {
    total := 0;
    for i := 0 to |groups|
      invariant total == TotalRank(groups[..i], results, p).setDiff
    {
      assert groups[..i + 1][..i] == groups[..i];
      if p in groups[i].participants {
        var diff := CalculateSetDifference(ResultsOf(results, groups[i].id), p);
        total := total + diff;
      }
    }
    assert groups[..|groups|] == groups;
  }

  /** Total games won by `p` over the groups `p` belongs to. */
  method CalculateTotalGamesWon(groups: seq<Group>, results: map<int, seq<MatchResult>>, p: string)
    returns (total: int)
    ensures total == TotalRank(groups, results, p).gamesWon
  {
    total := 0;
    for i := 0 to |groups|
      invariant total == TotalRank(groups[..i], results, p).gamesWon
    {
      assert groups[..i + 1][..i] == groups[..i];
      if p in groups[i].participants {
        var won := CalculateGamesWon(ResultsOf(results, groups[i].id), p);
        total := total + won;
      }
    }
    assert groups[..|groups|] == groups;
  }

  /** The total over groups ending in `g` adds `g`'s rank when `p` plays in `g`. */
  lemma TotalRankSnoc(groups: seq<Group>, g: Group, results: map<int, seq<MatchResult>>, p: string)
    ensures TotalRank(groups + [g], results, p)
         == if p in g.participants then TotalRank(groups, results, p).Plus(GroupRank(ResultsOf(results, g.id), p))
            else TotalRank(groups, results, p)
  {
    assert (groups + [g])[..|groups|] == groups;
  }

  /** Totals add up group by group: the totals over two stretches of groups are the
      sum of the totals over each. */
  lemma {:induction false} TotalRankSplit(a: seq<Group>, b: seq<Group>, results: map<int, seq<MatchResult>>, p: string)
    ensures TotalRank(a + b, results, p) == TotalRank(a, results, p).Plus(TotalRank(b, results, p))
    decreases |b|
  {
    if |b| == 0 {
      assert a + b == a;
    } else {
      var b', g := b[..|b| - 1], b[|b| - 1];
      assert b == b' + [g];
      assert a + b == (a + b') + [g];
      TotalRankSplit(a, b', results, p);
      TotalRankSnoc(a + b', g, results, p);
      TotalRankSnoc(b', g, results, p);
      if p in g.participants {
        PlusAssociates(TotalRank(a, results, p), TotalRank(b', results, p), GroupRank(ResultsOf(results, g.id), p));
      }
    }
  }

  lemma PlusAssociates(x: Rank, y: Rank, z: Rank)
    ensures x.Plus(y).Plus(z) == x.Plus(y.Plus(z))
  {
  }

  /** A player outside every group has a zero total. */
  lemma {:induction false} TotalRankOutsider(groups: seq<Group>, results: map<int, seq<MatchResult>>, p: string)
    requires forall g :: g in groups ==> p !in g.participants
    ensures TotalRank(groups, results, p) == Zero
    decreases |groups|
  {
    if |groups| > 0 {
      assert groups[|groups| - 1] in groups;
      assert forall g :: g in groups[..|groups| - 1] ==> g in groups;
      TotalRankOutsider(groups[..|groups| - 1], results, p);
    }
  }

  // ---------------------------------------------------------------------------
  // Players and overall ranking

  /** Every distinct participant of `groups`, in order of first appearance (the
      iteration order of the `Set` the client fills group by group). Used both for
      the whole tournament and for the groups of one knockout round. */
  method DistinctPlayers(groups: seq<Group>) returns (players: seq<string>)
    ensures players == Dedup(Roster(groups))
    ensures NoDup(players)
    ensures forall x :: x in players <==> exists g :: g in groups && x in g.participants
  {
    players := [];
    for gi := 0 to |groups|
      invariant players == Dedup(Roster(groups[..gi]))
    {
      var ps := groups[gi].participants;
      var front := Roster(groups[..gi]);
      assert groups[..gi + 1] == groups[..gi] + [groups[gi]];
      RosterAppend(groups[..gi], groups[gi]);
      players := AddNewPlayers(front, ps, players);
    }
    assert groups[..|groups|] == groups;
    forall x ensures x in players <==> exists g :: g in groups && x in g.participants {
      RosterMember(groups, x);
    }
  }

  /** The inner loop: each participant of one group not seen yet joins the end. */
  method AddNewPlayers(front: seq<string>, ps: seq<string>, before: seq<string>) returns (players: seq<string>)
    requires before == Dedup(front)
    ensures players == Dedup(front + ps)
  {
    players := before;
    assert front + ps[..0] == front;
    for pi := 0 to |ps|
      invariant players == Dedup(front + ps[..pi])
    {
      SnocSlice(front, ps, pi);
      DedupSnoc(front + ps[..pi], ps[pi]);
      if ps[pi] !in players {
        players := players + [ps[pi]];
      }
    }
    assert ps[..|ps|] == ps;
  }

  /** The key the overall ranking sorts by. */
  function TotalKey(groups: seq<Group>, results: map<int, seq<MatchResult>>): string -> Rank {
    p => TotalRank(groups, results, p)
  }

  /** The overall ranking: every distinct player once, best first by total
      (points, set difference, games won), full ties in first-appearance order. */
  method TotalRanking(groups: seq<Group>, results: map<int, seq<MatchResult>>) returns (ranking: seq<string>)
    ensures ranking == SortByRank(Dedup(Roster(groups)), TotalKey(groups, results))
    ensures NoDup(ranking)
    ensures forall x :: x in ranking <==> exists g :: g in groups && x in g.participants
    ensures forall i, j :: 0 <= i < j < |ranking| ==>
      AtLeast(TotalRank(groups, results, ranking[i]), TotalRank(groups, results, ranking[j]))
  {
    var players := DistinctPlayers(groups);
    ranking := SortByRank(players, TotalKey(groups, results));
    SortByRankCorrect(players, TotalKey(groups, results));
    forall x ensures x in ranking <==> x in players {
      assert x in ranking <==> x in multiset(ranking);
      assert x in players <==> x in multiset(players);
    }
    PermutationKeepsNoDup(players, ranking);
  }

  // ---------------------------------------------------------------------------
  // Completion gate

  /** Every match `g` generates has a result among the client's results. */
  predicate GroupReported(g: Group, results: map<int, seq<MatchResult>>) {
    forall m :: m in Triangle(g.participants, |g.participants|) ==>
      FindResult(ResultsOf(results, g.id), m.player1, m.player2).Some?
  }

  /** Every pair of participants of `g` has a stored result, in either order. */
  ghost predicate EveryPairHasResult(g: Group, results: map<int, seq<MatchResult>>) {
    forall i, j :: 0 <= i < j < |g.participants| ==>
      exists r :: r in ResultsOf(results, g.id) && IsResultFor(r, g.participants[i], g.participants[j])
  }

  /** Every group has participants and every match it generates has a result. */
  function AllMatchesReported(groups: seq<Group>, results: map<int, seq<MatchResult>>): (done: bool)
    ensures done ==> forall g :: g in groups ==> |g.participants| > 0
  {
    forall g :: g in groups ==> |g.participants| != 0 && GroupReported(g, results)
  }

  lemma GroupReportedMeans(g: Group, results: map<int, seq<MatchResult>>)
    ensures GroupReported(g, results) <==> EveryPairHasResult(g, results)
  {
    var p, rs := g.participants, ResultsOf(results, g.id);
    forall m ensures m in Triangle(p, |p|) <==> exists i, j :: 0 <= i < j < |p| && m == Match(p[i], p[j]) {
      TriangleMember(p, |p|, m);
    }
    if GroupReported(g, results) {
      forall i, j | 0 <= i < j < |p|
        ensures exists r :: r in rs && IsResultFor(r, p[i], p[j])
      {
        assert Match(p[i], p[j]) in Triangle(p, |p|);
        var found := FindResult(rs, p[i], p[j]);
        assert found.Some?;
      }
    }
    if EveryPairHasResult(g, results) {
      forall m | m in Triangle(p, |p|) ensures FindResult(rs, m.player1, m.player2).Some? {
        var i, j :| 0 <= i < j < |p| && m == Match(p[i], p[j]);
        var r :| r in rs && IsResultFor(r, p[i], p[j]);
      }
      assert GroupReported(g, results);
    }
  }

  /** The gate holds exactly when no group is empty and every pair of participants of
      every group has a stored result, in either order. */
  lemma AllMatchesReportedMeans(groups: seq<Group>, results: map<int, seq<MatchResult>>)
    ensures AllMatchesReported(groups, results) <==>
      forall g :: g in groups ==> |g.participants| > 0 && EveryPairHasResult(g, results)
  {
    forall g | g in groups ensures GroupReported(g, results) <==> EveryPairHasResult(g, results) {
      GroupReportedMeans(g, results);
    }
  }

  /** A group with one participant has no match to report, so it never blocks the gate. */
  lemma SingletonGroupHasNoMatches(p: seq<string>)
    requires |p| <= 1
    ensures Triangle(p, |p|) == []
  {
    if |p| == 1 {
      assert Triangle(p, 1) == Triangle(p, 0) + Row(p, 0);
    }
  }
}
