/** The records the tournament system passes between its backend and its browser
    client: groups, tournaments and reported match results. */
module Domain {
  import opened Wrappers

  /** How a match ended. */
  datatype MatchStatus = Played | Walkover | Retired

  /** A reported match result of one group. The scores are absent for a walkover;
      the winner is a player name. */
  datatype MatchResult = MatchResult(
    id: int,
    groupId: int,
    player1: string,
    player2: string,
    status: MatchStatus,
    score1: Option<int>,
    score2: Option<int>,
    winner: Option<string>)

  /** A group of a tournament: more than two participants play round robin, exactly
      two play one knockout match, none is a knockout match still to be filled. */
  datatype Group = Group(
    id: int,
    groupNumber: int,
    participants: seq<string>,
    court1: Option<string>,
    court2: Option<string>)

  /** A tournament and its groups in stored order. */
  datatype Tournament = Tournament(
    id: int,
    name: string,
    date: string,
    numberOfWinners: int,
    archived: bool,
    groups: seq<Group>)

  /** The results the client holds for one group; a group it holds nothing for reads
      as having no results (`matchResults[groupId] || []`). */
  function ResultsOf(results: map<int, seq<MatchResult>>, groupId: int): seq<MatchResult> {
    if groupId in results then results[groupId] else []
  }

  /** Every participant list of `groups`, concatenated in group order. */
  function Roster(groups: seq<Group>): seq<string>
    decreases |groups|
  {
    if |groups| == 0 then [] else Roster(groups[..|groups| - 1]) + groups[|groups| - 1].participants
  }

  lemma RosterAppend(groups: seq<Group>, g: Group)
    ensures Roster(groups + [g]) == Roster(groups) + g.participants
  {
    assert (groups + [g])[..|groups|] == groups;
  }

  lemma {:induction false} RosterMember(groups: seq<Group>, x: string)
    ensures x in Roster(groups) <==> exists g :: g in groups && x in g.participants
    decreases |groups|
  {
    if |groups| > 0 {
      var init := groups[..|groups| - 1];
      RosterMember(init, x);
      assert forall g :: g in groups <==> g in init || g == groups[|groups| - 1];
    }
  }

  /** The index of the first group with this id (`groups.find(g => g.id === id)`),
      or -1. */
  function GroupIndex(groups: seq<Group>, id: int): (i: int)
    ensures -1 <= i < |groups|
    ensures i == -1 <==> forall j :: 0 <= j < |groups| ==> groups[j].id != id
    ensures i >= 0 ==> groups[i].id == id && forall j :: 0 <= j < i ==> groups[j].id != id
    decreases |groups|
  {
    if |groups| == 0 then -1
    else if groups[0].id == id then 0
    else
      var i := GroupIndex(groups[1..], id);
      if i == -1 then -1 else i + 1
  }
}
