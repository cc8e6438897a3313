/** The knockout side of the ongoing-tournament view: which groups are knockout
    matches, how they are cut into rounds, the round titles, the round still being
    filled, and the winners of a round. */
module Rounds {
  import opened Wrappers
  import opened Seqs
  import opened Domain
  import opened RankingSort
  import opened Standings

  // ---------------------------------------------------------------------------
  // Phases

  /** A round-robin group has more than two participants. */
  predicate IsRoundRobin(g: Group) {
    |g.participants| > 2
  }

  /** A knockout group has two participants, or none while it waits to be filled. */
  predicate IsKnockout(g: Group) {
    |g.participants| <= 2
  }

  function RoundRobinGroups(groups: seq<Group>): (r: seq<Group>)
    ensures |r| <= |groups|
    ensures forall g :: g in r <==> g in groups && |g.participants| > 2
  {
    Filter(groups, IsRoundRobin)
  }

  function PlayoffGroups(groups: seq<Group>): (r: seq<Group>)
    ensures |r| <= |groups|
    ensures forall g :: g in r <==> g in groups && |g.participants| <= 2
  {
    Filter(groups, IsKnockout)
  }

  /** Every group is in exactly one phase. */
  lemma PhasesPartition(groups: seq<Group>)
    ensures |RoundRobinGroups(groups)| + |PlayoffGroups(groups)| == |groups|
    ensures multiset(RoundRobinGroups(groups)) + multiset(PlayoffGroups(groups)) == multiset(groups)
    ensures forall g :: g in groups ==> (g in RoundRobinGroups(groups) <==> g !in PlayoffGroups(groups))
  {
    FilterPartition(groups, IsRoundRobin, IsKnockout);
  }

  // ---------------------------------------------------------------------------
  // Cutting the knockout groups into rounds

  /** Ascending group number, as a rank (a smaller number ranks higher). */
  function GroupNumberKey(g: Group): Rank {
    Rank(-g.groupNumber, 0, 0)
  }

  /** The knockout groups sorted by group number, ties kept in stored order. */
  function SortedPlayoffGroups(groups: seq<Group>): (sorted: seq<Group>)
    ensures multiset(sorted) == multiset(PlayoffGroups(groups))
    ensures |sorted| == |PlayoffGroups(groups)|
    ensures forall i, j :: 0 <= i < j < |sorted| ==> sorted[i].groupNumber <= sorted[j].groupNumber
    ensures StableFor(sorted, PlayoffGroups(groups), GroupNumberKey)
  {
    SortByRankCorrect(PlayoffGroups(groups), GroupNumberKey);
    SortByRank(PlayoffGroups(groups), GroupNumberKey)
  }

  /** The size of the next round when `remaining` groups are left: the first round
      takes 8 when there are at least 8, later rounds at most 4, then 2, then 1. */
  function ChunkSize(remaining: nat, first: bool): (k: nat)
    requires remaining > 0
    ensures 1 <= k <= remaining
    ensures k == 1 || k == 2 || k == 4 || k == 8
    ensures k == 8 ==> first
  {
    if first && remaining >= 8 then 8
    else if remaining >= 4 then 4
    else if remaining >= 2 then 2
    else 1
  }

  /** The round sizes the cutting produces for `n` groups. */
  function Chunks(n: nat, first: bool): seq<nat>
    decreases n
  {
    if n == 0 then [] else var k := ChunkSize(n, first); [k] + Chunks(n - k, false)
  }

  function Sum(s: seq<nat>): nat
    decreases |s|
  {
    if |s| == 0 then 0 else s[0] + Sum(s[1..])
  }

  /** The sizes of some rounds, in order. */
  function Sizes(rounds: seq<seq<Group>>): seq<nat>
    decreases |rounds|
  {
    if |rounds| == 0 then [] else Sizes(rounds[..|rounds| - 1]) + [|rounds[|rounds| - 1]|]
  }

  lemma {:induction false} SizesIndex(rounds: seq<seq<Group>>)
    ensures |Sizes(rounds)| == |rounds|
    ensures forall i :: 0 <= i < |rounds| ==> Sizes(rounds)[i] == |rounds[i]|
    decreases |rounds|
  {
    if |rounds| > 0 {
      SizesIndex(rounds[..|rounds| - 1]);
    }
  }

  /** The round sizes cover every group, each is 1, 2, 4 or 8, and only the first
      round of the cutting can have 8 matches. */
  lemma {:induction false} ChunksShape(n: nat, first: bool)
    ensures Sum(Chunks(n, first)) == n
    ensures forall i :: 0 <= i < |Chunks(n, first)| ==> Chunks(n, first)[i] in {1, 2, 4, 8}
    ensures forall i :: 0 < i < |Chunks(n, first)| ==> Chunks(n, first)[i] <= 4
    ensures |Chunks(n, first)| > 0 && Chunks(n, first)[0] == 8 ==> first
    decreases n
  {
    if n > 0 {
      var k := ChunkSize(n, first);
      ChunksShape(n - k, false);
      var c := Chunks(n, first);
      assert c[1..] == Chunks(n - k, false);
      forall i | 0 < i < |c| ensures c[i] <= 4 {
        assert c[i] == Chunks(n - k, false)[i - 1];
      }
    }
  }

  /** The knockout groups cut into rounds: consecutive non-empty slices of the groups
      sorted by number, sized as `Chunks` says. */
  method PlayoffRounds(groups: seq<Group>) returns (rounds: seq<seq<Group>>)
    ensures Concat(rounds) == SortedPlayoffGroups(groups)
    ensures Sizes(rounds) == Chunks(|PlayoffGroups(groups)|, true)
    ensures forall i :: 0 <= i < |rounds| ==> |rounds[i]| > 0
    ensures |PlayoffGroups(groups)| == 0 <==> rounds == []
  {
    var playoff := PlayoffGroups(groups);
    if |playoff| == 0 {
      return [];
    }
    var sorted := SortedPlayoffGroups(groups);
    rounds := CutRounds(sorted);
    RoundsAreNonEmpty(rounds, |sorted|);
  }

  /** The `while` loop that cuts the sorted knockout groups into rounds: consecutive
      slices that together are the groups, sized as the size rule says. */
  method CutRounds(sorted: seq<Group>) returns (rounds: seq<seq<Group>>)
    ensures Concat(rounds) == sorted
    ensures Sizes(rounds) == Chunks(|sorted|, true)
  {
    ghost var sizes := Chunks(|sorted|, true);
    ghost var first := true;
    rounds := [];
    var rest := sorted;
    while |rest| > 0
      invariant first <==> |rounds| == 0
      invariant Concat(rounds) + rest == sorted
      invariant Sizes(rounds) + Chunks(|rest|, first) == sizes
      decreases |rest|
    {
      var size := NextRoundSize(|rest|, |rounds| == 0);
      ConcatStep(rounds, rest, size, sorted);
      CutStep(rounds, rest, size, first, sizes);
      rounds := rounds + [rest[..size]];
      rest := rest[size..];
      first := false;
    }
    assert Sizes(rounds) + [] == Sizes(rounds);
  }

  /** Rounds sized as the size rule says are non-empty. */
  lemma RoundsAreNonEmpty(rounds: seq<seq<Group>>, n: nat)
    requires Sizes(rounds) == Chunks(n, true)
    ensures forall i :: 0 <= i < |rounds| ==> |rounds[i]| > 0
  {
    ChunksShape(n, true);
    SizesIndex(rounds);
    forall i | 0 <= i < |rounds| ensures |rounds[i]| > 0 {
      assert Chunks(n, true)[i] in {1, 2, 4, 8};
    }
  }

  /** The size of the next round, decided as the client decides it. */
  method NextRoundSize(remaining: nat, first: bool) returns (size: nat)
    requires remaining > 0
    ensures size == ChunkSize(remaining, first)
  {
    if first && remaining >= 4 {
      size := if remaining >= 8 then 8 else 4;
    } else if remaining >= 4 {
      size := 4;
    } else if remaining >= 2 {
      size := 2;
    } else {
      size := 1;
    }
  }

  /** One more round cut off the front of the remaining groups extends the sizes by
      the next chunk. */
  lemma CutStep(rounds: seq<seq<Group>>, rest: seq<Group>, size: nat, first: bool, sizes: seq<nat>)
    requires 0 < |rest| && size == ChunkSize(|rest|, first)
    requires Sizes(rounds) + Chunks(|rest|, first) == sizes
    ensures Sizes(rounds + [rest[..size]]) + Chunks(|rest| - size, false) == sizes
  {
    ChunksStep(Sizes(rounds), |rest|, size, first, sizes);
    SizesAppend(rounds, rest[..size]);
  }

  lemma ChunksStep(done: seq<nat>, n: nat, size: nat, first: bool, sizes: seq<nat>)
    requires 0 < n && size == ChunkSize(n, first)
    requires done + Chunks(n, first) == sizes
    ensures (done + [size]) + Chunks(n - size, false) == sizes
  {
    AppendAssoc(done, [size], Chunks(n - size, false));
  }

  lemma SizesAppend(rounds: seq<seq<Group>>, round: seq<Group>)
    ensures Sizes(rounds + [round]) == Sizes(rounds) + [|round|]
  {
    assert (rounds + [round])[..|rounds|] == rounds;
  }

  /** Fifteen knockout groups (8 + 4 + 2 + 1 matches) are cut back into their four rounds. */
  lemma FifteenGroups()
    ensures Chunks(15, true) == [8, 4, 2, 1]
  {
    assert Chunks(1, false) == [1];
    assert Chunks(3, false) == [2, 1];
    assert Chunks(7, false) == [4, 2, 1];
  }

  /** The rounds of a bracket whose first round has `m` matches, after `k` rounds exist. */
  function Bracket(m: nat, k: nat): seq<nat>
    decreases k
  {
    if k == 0 || m == 0 then [] else [m] + Bracket(m / 2, k - 1)
  }

  /** `k` rounds of a bracket whose first round has `m` matches, with no round beyond
      the final. */
  predicate Stage(m: nat, k: nat) {
    k == 0 || (m == 1 && k <= 1) || (m == 2 && k <= 2) || (m == 4 && k <= 3) || (m == 8 && k <= 4)
  }

  /** Such a bracket has at least `m` and fewer than `2 m` matches. */
  lemma {:induction false} BracketSumBounds(m: nat, k: nat)
    requires Stage(m, k) && k >= 1
    ensures m <= Sum(Bracket(m, k)) < 2 * m
    decreases k
  {
    var b := Bracket(m, k);
    assert b[1..] == Bracket(m / 2, k - 1);
    if k > 1 {
      BracketSumBounds(m / 2, k - 1);
    }
  }

  /** Cutting the matches of such a bracket gives back its rounds. */
  lemma {:induction false} BracketCut(m: nat, k: nat, first: bool)
    requires Stage(m, k) && (m == 8 ==> first)
    ensures Chunks(Sum(Bracket(m, k)), first) == Bracket(m, k)
    decreases k
  {
    if k > 0 {
      var b := Bracket(m, k);
      assert b[1..] == Bracket(m / 2, k - 1);
      BracketSumBounds(m, k);
      assert ChunkSize(Sum(b), first) == m;
      BracketCut(m / 2, k - 1, false);
    }
  }

  /** For a bracket that starts with 1, 2, 4 or 8 matches, every stage of its knockout
      rounds is cut back into exactly those rounds. */
  lemma BracketRecovered(m: nat, k: nat)
    requires m in {1, 2, 4, 8}
    requires 1 <= k && (m == 1 ==> k <= 1) && (m == 2 ==> k <= 2) && (m == 4 ==> k <= 3) && (m == 8 ==> k <= 4)
    ensures Chunks(Sum(Bracket(m, k)), true) == Bracket(m, k)
  {
    BracketCut(m, k, true);
  }

  /** Sixteen knockout groups are cut 8, 4, 4: a sixteen-match first round is never
      kept together, so the title for sixteen matches is never shown. */
  lemma SixteenGroupsSplit()
    ensures Chunks(16, true) == [8, 4, 4]
  {
    assert Chunks(4, false) == [4];
    assert Chunks(8, false) == [4, 4];
  }

  // ---------------------------------------------------------------------------
  // Titles

  /** The heading of a round, by its number of matches. */
  datatype Title = Final | Semifinals | Quarterfinals | RoundOf16 | RoundOf32 | Round(matches: nat)

  function RoundTitle(round: seq<Group>): (t: Title)
    ensures t.Round? ==> t.matches == |round| && |round| !in {1, 2, 4, 8, 16}
  {
    match |round|
    case 1 => Final
    case 2 => Semifinals
    case 4 => Quarterfinals
    case 8 => RoundOf16
    case 16 => RoundOf32
    case n => Round(n)
  }

  /** Every round the cutting produces gets one of the four named titles, never
      the sixteen-match title and never the generic one. */
  lemma CutRoundsAreNamed(groups: seq<Group>, rounds: seq<seq<Group>>)
    requires Sizes(rounds) == Chunks(|PlayoffGroups(groups)|, true)
    ensures forall i :: 0 <= i < |rounds| ==> RoundTitle(rounds[i]) in {Final, Semifinals, Quarterfinals, RoundOf16}
    ensures forall i :: 0 < i < |rounds| ==> RoundTitle(rounds[i]) != RoundOf16
  {
    ChunksShape(|PlayoffGroups(groups)|, true);
    SizesIndex(rounds);
    ghost var sizes := Sizes(rounds);
    forall i | 0 <= i < |rounds|
      ensures RoundTitle(rounds[i]) in {Final, Semifinals, Quarterfinals, RoundOf16}
      ensures i > 0 ==> RoundTitle(rounds[i]) != RoundOf16
    {
      TitleOfSize(rounds[i], sizes[i], i > 0);
    }
  }

  lemma TitleOfSize(round: seq<Group>, size: nat, later: bool)
    requires |round| == size && size in {1, 2, 4, 8}
    requires later ==> size <= 4
    ensures RoundTitle(round) in {Final, Semifinals, Quarterfinals, RoundOf16}
    ensures later ==> RoundTitle(round) != RoundOf16
  {
  }

  // ---------------------------------------------------------------------------
  // The round being filled

  /** Some group of the round still waits for its players. */
  predicate HasOpenMatch(round: seq<Group>) {
    exists g :: g in round && |g.participants| == 0
  }

  /** The first round that still has a group without participants, or -1. */
  method ActiveRoundIndex(rounds: seq<seq<Group>>) returns (index: int)
    ensures -1 <= index < |rounds|
    ensures index == -1 <==> forall i :: 0 <= i < |rounds| ==> !HasOpenMatch(rounds[i])
    ensures index >= 0 ==> (HasOpenMatch(rounds[index])
      && forall i :: 0 <= i < index ==> !HasOpenMatch(rounds[i]))
  {
    var i := 0;
    while i < |rounds|
      invariant 0 <= i <= |rounds|
      invariant forall k :: 0 <= k < i ==> !HasOpenMatch(rounds[k])
    {
      var open := false;
      for j := 0 to |rounds[i]|
        invariant open <==> exists g :: g in rounds[i][..j] && |g.participants| == 0
      {
        assert rounds[i][..j + 1] == rounds[i][..j] + [rounds[i][j]];
        if |rounds[i][j].participants| == 0 {
          open := true;
        }
      }
      assert rounds[i][..|rounds[i]|] == rounds[i];
      if open {
        return i;
      }
      i := i + 1;
    }
    return -1;
  }

  // ---------------------------------------------------------------------------
  // Winners of a round

  /** The winners named by `rs`, in result order; a missing or empty winner is skipped. */
  function WinnerNames(rs: seq<MatchResult>): seq<string>
    decreases |rs|
  {
    if |rs| == 0 then []
    else
      var w := rs[|rs| - 1].winner;
      WinnerNames(rs[..|rs| - 1]) + (if w.Some? && w.value != "" then [w.value] else [])
  }

  /** The winners of every group of a round, group by group. */
  function RoundWinnerNames(round: seq<Group>, results: map<int, seq<MatchResult>>): seq<string>
    decreases |round|
  {
    if |round| == 0 then []
    else RoundWinnerNames(round[..|round| - 1], results) + WinnerNames(ResultsOf(results, round[|round| - 1].id))
  }

  lemma {:induction false} WinnerNamesMember(rs: seq<MatchResult>, x: string)
    ensures x in WinnerNames(rs) <==> x != "" && exists r :: r in rs && r.winner == Some(x)
    decreases |rs|
  {
    if |rs| > 0 {
      WinnerNamesMember(rs[..|rs| - 1], x);
      assert forall r :: r in rs <==> r in rs[..|rs| - 1] || r == rs[|rs| - 1];
    }
  }

  lemma {:induction false} RoundWinnerNamesMember(round: seq<Group>, results: map<int, seq<MatchResult>>, x: string)
    ensures x in RoundWinnerNames(round, results) <==>
      x != "" && exists g, r :: g in round && r in ResultsOf(results, g.id) && r.winner == Some(x)
    decreases |round|
  {
    if |round| > 0 {
      var init, last := round[..|round| - 1], round[|round| - 1];
      RoundWinnerNamesMember(init, results, x);
      WinnerNamesMember(ResultsOf(results, last.id), x);
      assert forall g :: g in round <==> g in init || g == last;
    }
  }

  lemma WinnerNamesStep(before: seq<string>, rs: seq<MatchResult>, ri: nat)
    requires ri < |rs|
    ensures rs[ri].winner.Some? && rs[ri].winner.value != "" ==>
      before + WinnerNames(rs[..ri + 1]) == before + WinnerNames(rs[..ri]) + [rs[ri].winner.value]
    ensures !(rs[ri].winner.Some? && rs[ri].winner.value != "") ==>
      before + WinnerNames(rs[..ri + 1]) == before + WinnerNames(rs[..ri])
  {
    assert rs[..ri + 1][..ri] == rs[..ri];
    assert WinnerNames(rs[..ri]) + [] == WinnerNames(rs[..ri]);
  }

  lemma RoundWinnerNamesStep(round: seq<Group>, results: map<int, seq<MatchResult>>, gi: nat)
    requires gi < |round|
    ensures RoundWinnerNames(round[..gi + 1], results)
         == RoundWinnerNames(round[..gi], results) + WinnerNames(ResultsOf(results, round[gi].id))
  {
    assert round[..gi + 1][..gi] == round[..gi];
  }

  /** The distinct winners of a round's results, in order of first appearance. */
  method WinnersFromRound(round: seq<Group>, results: map<int, seq<MatchResult>>) returns (winners: seq<string>)
    ensures winners == Dedup(RoundWinnerNames(round, results))
    ensures NoDup(winners)
    ensures forall x :: x in winners <==>
      x != "" && exists g, r :: g in round && r in ResultsOf(results, g.id) && r.winner == Some(x)
  {
    winners := [];
    for gi := 0 to |round|
      invariant winners == Dedup(RoundWinnerNames(round[..gi], results))
    {
      winners := AddWinners(winners, RoundWinnerNames(round[..gi], results), ResultsOf(results, round[gi].id));
      RoundWinnerNamesStep(round, results, gi);
    }
    assert round[..|round|] == round;
    forall x ensures x in winners <==>
      x != "" && exists g, r :: g in round && r in ResultsOf(results, g.id) && r.winner == Some(x)
    {
      RoundWinnerNamesMember(round, results, x);
    }
  }

  /** Adds the winners of one group's results that are not listed yet. */
  method AddWinners(winners: seq<string>, ghost before: seq<string>, rs: seq<MatchResult>)
    returns (more: seq<string>)
    requires winners == Dedup(before)
    ensures more == Dedup(before + WinnerNames(rs))
  {
    more := winners;
    assert before + WinnerNames(rs[..0]) == before;
    for ri := 0 to |rs|
      invariant more == Dedup(before + WinnerNames(rs[..ri]))
    {
      var w := rs[ri].winner;
      WinnerNamesStep(before, rs, ri);
      if w.Some? && w.value != "" {
        DedupSnoc(before + WinnerNames(rs[..ri]), w.value);
        if w.value !in more {
          more := more + [w.value];
        }
      }
    }
    assert rs[..|rs|] == rs;
  }
}
