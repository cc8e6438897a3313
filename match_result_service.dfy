/** The backend's rules for reported match results: a PLAYED match is won by the
    first to four games, a WALKOVER names its winner and keeps no score, a RETIRED
    match names its winner and keeps a score below four for both. A new report is
    refused for an unknown group and for a pairing the group already has a result
    for; an update keeps the result's id, group and players and replaces the rest. */
module MatchResultService {
  import opened Wrappers
  import opened Text
  import opened Domain
  import opened Standings

  /** A report as the client sends it; the status has already been read as one of
      the three statuses. */
  datatype ReportRequest = ReportRequest(
    groupId: int,
    player1: string,
    player2: string,
    score1: Option<int>,
    score2: Option<int>,
    status: MatchStatus,
    winner: Option<string>)

  /** Why a report or an update is refused, one reason per guard of the service. */
  datatype Rejection =
    | UnknownGroup
    | AlreadyReported
    | UnknownResult
    | MissingScores
    | ScoreOutOfRange
    | NoFourGames
    | BothFourGames
    | NoWinner
    | WinnerNotAPlayer
    | MissingRetiredScores
    | RetiredScoreOutOfRange

  // ---------------------------------------------------------------------------
  // The guards

  /** The scores of a played match: both given, each from 0 to 4, and exactly one of
      them 4. */
  predicate PlayedScores(s1: Option<int>, s2: Option<int>) {
    s1.Some? && s2.Some? && 0 <= s1.value <= 4 && 0 <= s2.value <= 4 && (s1.value == 4) != (s2.value == 4)
  }

  /** The scores of a retired match: both given, each from 0 to 3. */
  predicate RetiredScores(s1: Option<int>, s2: Option<int>) {
    s1.Some? && s2.Some? && 0 <= s1.value < 4 && 0 <= s2.value < 4
  }

  /** A named winner: not blank and one of the two players. */
  predicate NamedWinner(w: Option<string>, p1: string, p2: string) {
    w.Some? && (exists k :: 0 <= k < |w.value| && !IsJavaSpace(w.value[k])) && (w.value == p1 || w.value == p2)
  }

  function ValidatePlayed(s1: Option<int>, s2: Option<int>): (c: Check<Rejection>)
    ensures c.Pass? <==> PlayedScores(s1, s2)
    ensures c == Fail(MissingScores) <==> s1.None? || s2.None?
  {
    if s1.None? || s2.None? then Fail(MissingScores)
    else if s1.value < 0 || s2.value < 0 || s1.value > 4 || s2.value > 4 then Fail(ScoreOutOfRange)
    else if s1.value != 4 && s2.value != 4 then Fail(NoFourGames)
    else if s1.value == 4 && s2.value == 4 then Fail(BothFourGames)
    else Pass
  }

  function ValidateWinner(w: Option<string>, p1: string, p2: string): (c: Check<Rejection>)
    ensures c.Pass? <==> NamedWinner(w, p1, p2)
    ensures c == Fail(NoWinner) <==> w.None? || forall k :: 0 <= k < |w.value| ==> IsJavaSpace(w.value[k])
  {
    TrimEmptyIffAllSpace(w.GetOr(""), IsJavaSpace);
    if w.None? || JavaTrim(w.value) == "" then Fail(NoWinner)
    else if w.value != p1 && w.value != p2 then Fail(WinnerNotAPlayer)
    else Pass
  }

  /** The winner is checked first, then the scores. */
  function ValidateRetired(w: Option<string>, p1: string, p2: string, s1: Option<int>, s2: Option<int>): (c: Check<Rejection>)
    ensures c.Pass? <==> NamedWinner(w, p1, p2) && RetiredScores(s1, s2)
    ensures !NamedWinner(w, p1, p2) ==> c == ValidateWinner(w, p1, p2)
  {
    var named := ValidateWinner(w, p1, p2);
    if named.Fail? then named
    else if s1.None? || s2.None? then Fail(MissingRetiredScores)
    else if s1.value < 0 || s2.value < 0 || s1.value >= 4 || s2.value >= 4 then Fail(RetiredScoreOutOfRange)
    else Pass
  }

  // ---------------------------------------------------------------------------
  // The decision: who won and which scores are kept

  /** What a report fixes about a result besides its status. */
  datatype Decision = Decision(winner: string, score1: Option<int>, score2: Option<int>)

  /** The decision on a request. `checked` are the players the named winner is
      checked against and `kept` the players the result keeps; a played match is
      won by the kept player with the higher score. */
  function Decide(req: ReportRequest, checked: (string, string), kept: (string, string)): (r: Result<Decision, Rejection>)
    ensures r.Ok? <==> match req.status
      case Played => PlayedScores(req.score1, req.score2)
      case Walkover => NamedWinner(req.winner, checked.0, checked.1)
      case Retired => NamedWinner(req.winner, checked.0, checked.1) && RetiredScores(req.score1, req.score2)
    ensures r.Ok? && req.status.Played? ==>
      r.value == Decision(if req.score1.value == 4 then kept.0 else kept.1, req.score1, req.score2)
    ensures r.Ok? && req.status.Walkover? ==> r.value == Decision(req.winner.value, None, None)
    ensures r.Ok? && req.status.Retired? ==> r.value == Decision(req.winner.value, req.score1, req.score2)
  {
    match req.status
    case Played =>
      var c := ValidatePlayed(req.score1, req.score2);
      if c.Fail? then Err(c.error)
      else Ok(Decision(if req.score1.value > req.score2.value then kept.0 else kept.1, req.score1, req.score2))
    case Walkover =>
      var c := ValidateWinner(req.winner, checked.0, checked.1);
      if c.Fail? then Err(c.error) else Ok(Decision(req.winner.value, None, None))
    case Retired =>
      var c := ValidateRetired(req.winner, checked.0, checked.1, req.score1, req.score2);
      if c.Fail? then Err(c.error) else Ok(Decision(req.winner.value, req.score1, req.score2))
  }

  /** `r` with the decided status, winner and scores. */
  function Apply(r: MatchResult, status: MatchStatus, d: Decision): (out: MatchResult)
    ensures out.id == r.id && out.groupId == r.groupId && out.player1 == r.player1 && out.player2 == r.player2
    ensures out.status == status && out.winner == Some(d.winner)
    ensures out.score1 == d.score1 && out.score2 == d.score2
  {
    r.(status := status, winner := Some(d.winner), score1 := d.score1, score2 := d.score2)
  }

  /** What every stored result satisfies: its winner is one of its two players, a
      played result has a first-to-four score won by the winner, a walkover has no
      score, a retired result has scores below four. */
  predicate WellFormed(r: MatchResult) {
    r.winner.Some? && (r.winner.value == r.player1 || r.winner.value == r.player2)
    && match r.status
       case Played =>
         PlayedScores(r.score1, r.score2)
         && r.winner.value == (if r.score1.value > r.score2.value then r.player1 else r.player2)
       case Walkover => r.score1.None? && r.score2.None?
       case Retired => RetiredScores(r.score1, r.score2)
  }

  /** A decision whose winner was checked against the players the result keeps
      yields a well-formed result. */
  lemma DecisionIsWellFormed(req: ReportRequest, r: MatchResult)
    requires Decide(req, (r.player1, r.player2), (r.player1, r.player2)).Ok?
    ensures WellFormed(Apply(r, req.status, Decide(req, (r.player1, r.player2), (r.player1, r.player2)).value))
  {
    if req.status.Played? {
      PlayedWinnerHasFour(req.score1.value, req.score2.value);
    }
  }

  /** In a played match the higher score is exactly the one with four games. */
  lemma PlayedWinnerHasFour(s1: int, s2: int)
    requires PlayedScores(Some(s1), Some(s2))
    ensures s1 != s2 && (s1 > s2 <==> s1 == 4)
  {
  }

  /** A well-formed played result counts as a win for the player with four games:
      the standings credit the winner with four games and the loser with fewer. */
  lemma PlayedResultFeedsStandings(r: MatchResult)
    requires WellFormed(r) && r.status.Played? && r.player1 != r.player2
    ensures GamesFor(r, r.winner.value) == 4 && GamesAgainst(r, r.winner.value) < 4
    ensures Wins([r], r.winner.value) == 1
  {
    PlayedWinnerHasFour(r.score1.value, r.score2.value);
    assert [r][1..] == [];
  }

  // ---------------------------------------------------------------------------
  // Updating a result as written

  /** The update as the service performs it: the named winner is checked against the
      players of the request, while the result keeps its own players. */
  function UpdateAsWritten(existing: MatchResult, req: ReportRequest): (r: Result<MatchResult, Rejection>)
    ensures r.Ok? ==> (r.value.id == existing.id && r.value.groupId == existing.groupId
      && r.value.player1 == existing.player1 && r.value.player2 == existing.player2
      && r.value.status == req.status)
  {
    var d := Decide(req, (req.player1, req.player2), (existing.player1, existing.player2));
    if d.Err? then Err(d.error) else Ok(Apply(existing, req.status, d.value))
  }

  /** A walkover update that names a player of the request who is not a player of
      the stored result is accepted and stores a winner who did not play. */
  lemma UpdateAsWrittenStoresOutsideWinner()
    ensures var existing := MatchResult(7, 1, "Anna", "Bea", Played, Some(4), Some(2), Some("Anna"));
      var req := ReportRequest(1, "Carl", "Dan", None, None, Walkover, Some("Carl"));
      var r := UpdateAsWritten(existing, req);
      r.Ok? && r.value.winner == Some("Carl") && !WellFormed(r.value)
  {
    var req := ReportRequest(1, "Carl", "Dan", None, None, Walkover, Some("Carl"));
    assert !IsJavaSpace("Carl"[0]);
    assert NamedWinner(req.winner, req.player1, req.player2);
  }

  /** The corrected update: the named winner is checked against the result's own
      players. */
  function Update(existing: MatchResult, req: ReportRequest): (r: Result<MatchResult, Rejection>)
    ensures r.Ok? ==> (r.value.id == existing.id && r.value.groupId == existing.groupId
      && r.value.player1 == existing.player1 && r.value.player2 == existing.player2
      && r.value.status == req.status)
  {
    var pair := (existing.player1, existing.player2);
    var d := Decide(req, pair, pair);
    if d.Err? then Err(d.error) else Ok(Apply(existing, req.status, d.value))
  }

  /** Every result the corrected update produces is well formed. */
  lemma UpdateIsWellFormed(existing: MatchResult, req: ReportRequest)
    requires Update(existing, req).Ok?
    ensures WellFormed(Update(existing, req).value)
  {
    DecisionIsWellFormed(req, existing);
  }

  /** For a request naming the result's own players the written and the corrected
      update agree, which is what the client sends. */
  lemma UpdateAgreesForSamePlayers(existing: MatchResult, req: ReportRequest)
    requires req.player1 == existing.player1 && req.player2 == existing.player2
    ensures UpdateAsWritten(existing, req) == Update(existing, req)
  {
  }

  // ---------------------------------------------------------------------------
  // The stored results

  /** The group already has a result for the unordered pairing. */
  predicate Reported(rows: seq<MatchResult>, groupId: int, a: string, b: string) {
    exists i :: 0 <= i < |rows| && rows[i].groupId == groupId && IsResultFor(rows[i], a, b)
  }

  /** The index of the result with this id, or -1. */
  function RowIndex(rows: seq<MatchResult>, id: int): (i: int)
    ensures -1 <= i < |rows|
    ensures i == -1 <==> forall j :: 0 <= j < |rows| ==> rows[j].id != id
    ensures i >= 0 ==> rows[i].id == id
    decreases |rows|
  {
    if |rows| == 0 then -1
    else if rows[0].id == id then 0
    else
      var i := RowIndex(rows[1..], id);
      if i == -1 then -1 else i + 1
  }

  /** Ids are distinct and below the next id, and no group has two results for one
      pairing. Well-formedness is not part of it: the update as written can store a
      winner who is not one of the result's players. */
  predicate ValidRows(rows: seq<MatchResult>, nextId: int) {
    (forall i :: 0 <= i < |rows| ==> rows[i].id < nextId)
    && (forall i, j :: 0 <= i < j < |rows| ==> rows[i].id != rows[j].id)
    && PairingsOnce(rows)
  }

  /** No group has two results for one unordered pairing. */
  predicate PairingsOnce(rows: seq<MatchResult>) {
    forall i, j :: 0 <= i < j < |rows| && rows[i].groupId == rows[j].groupId ==>
      !IsResultFor(rows[j], rows[i].player1, rows[i].player2)
  }

  /** The match-result table with its generated ids and the ids of the groups. */
  class MatchResultStore {
    var groupIds: set<int>
    var rows: seq<MatchResult>
    var nextId: int

    predicate Valid()
      reads this
    {
      ValidRows(rows, nextId)
    }

    constructor(groupIds: set<int>)
      ensures Valid()
      ensures this.groupIds == groupIds && rows == [] && nextId == 1
    {
      this.groupIds := groupIds;
      rows := [];
      nextId := 1;
    }

    /** Stores a new result when the group exists, the pairing has no result in it
        yet and the report passes the rules of its status. `outcome` is the new
        result's id or the reason for the refusal. */
    method ReportMatch(req: ReportRequest) returns (outcome: Result<int, Rejection>)
      requires Valid()
      modifies this
      ensures Valid()
      ensures groupIds == old(groupIds)
      ensures req.groupId !in groupIds ==> outcome == Err(UnknownGroup)
      ensures req.groupId in groupIds && Reported(old(rows), req.groupId, req.player1, req.player2) ==>
        outcome == Err(AlreadyReported)
      ensures (req.groupId in groupIds && !Reported(old(rows), req.groupId, req.player1, req.player2)
               && Decide(req, (req.player1, req.player2), (req.player1, req.player2)).Err?) ==>
        outcome == Err(Decide(req, (req.player1, req.player2), (req.player1, req.player2)).error)
      ensures outcome.Ok? <==>
        req.groupId in groupIds && !Reported(old(rows), req.groupId, req.player1, req.player2)
        && Decide(req, (req.player1, req.player2), (req.player1, req.player2)).Ok?
      ensures outcome.Ok? ==>
        outcome.value == old(nextId) && nextId == old(nextId) + 1
        && rows == old(rows) + [Apply(
             MatchResult(old(nextId), req.groupId, req.player1, req.player2, req.status, None, None, None),
             req.status, Decide(req, (req.player1, req.player2), (req.player1, req.player2)).value)]
      ensures outcome.Ok? ==> WellFormed(rows[|rows| - 1])
      ensures outcome.Err? ==> rows == old(rows) && nextId == old(nextId)
    {
      if req.groupId !in groupIds {
        return Err(UnknownGroup);
      }
      if Reported(rows, req.groupId, req.player1, req.player2) {
        return Err(AlreadyReported);
      }
      var blank := MatchResult(nextId, req.groupId, req.player1, req.player2, req.status, None, None, None);
      var d := Decide(req, (req.player1, req.player2), (req.player1, req.player2));
      if d.Err? {
        return Err(d.error);
      }
      var row := Apply(blank, req.status, d.value);
      DecisionIsWellFormed(req, blank);
      AppendKeepsValid(rows, nextId, row);
      rows := rows + [row];
      outcome := Ok(nextId);
      nextId := nextId + 1;
    }

    /** Replaces status, winner and scores of the result with this id, checked as
        `UpdateAsWritten` does: a request naming the row's own players stores a
        well-formed result, any other may not. */
    method UpdateMatchResult(id: int, req: ReportRequest) returns (outcome: Result<MatchResult, Rejection>)
      requires Valid()
      modifies this
      ensures Valid()
      ensures groupIds == old(groupIds) && nextId == old(nextId)
      ensures RowIndex(old(rows), id) < 0 ==> outcome == Err(UnknownResult)
      ensures RowIndex(old(rows), id) >= 0 ==>
        outcome == UpdateAsWritten(old(rows)[RowIndex(old(rows), id)], req)
      ensures outcome.Ok? ==> rows == old(rows)[RowIndex(old(rows), id) := outcome.value]
      ensures (outcome.Ok? && req.player1 == old(rows)[RowIndex(old(rows), id)].player1
               && req.player2 == old(rows)[RowIndex(old(rows), id)].player2) ==> WellFormed(outcome.value)
      ensures outcome.Err? ==> rows == old(rows)
    {
      var i := RowIndex(rows, id);
      if i < 0 {
        return Err(UnknownResult);
      }
      outcome := UpdateAsWritten(rows[i], req);
      if outcome.Ok? {
        if req.player1 == rows[i].player1 && req.player2 == rows[i].player2 {
          UpdateAgreesForSamePlayers(rows[i], req);
          UpdateIsWellFormed(rows[i], req);
        }
        ReplaceKeepsValid(rows, nextId, i, outcome.value);
        rows := rows[i := outcome.value];
      }
    }
  }

  /** Appending a result with the next id for a pairing its group has no
      result for keeps the table valid. */
  lemma AppendKeepsValid(rows: seq<MatchResult>, nextId: int, row: MatchResult)
    requires ValidRows(rows, nextId) && row.id == nextId
    requires !Reported(rows, row.groupId, row.player1, row.player2)
    ensures ValidRows(rows + [row], nextId + 1)
  {
    var all := rows + [row];
    forall i, j | 0 <= i < j < |all| && all[i].groupId == all[j].groupId
      ensures !IsResultFor(all[j], all[i].player1, all[i].player2)
    {
      if j == |rows| {
        assert !IsResultFor(rows[i], row.player1, row.player2);
      }
    }
  }

  /** Replacing a row by one with the same id, group and players keeps
      the table valid. */
  lemma ReplaceKeepsValid(rows: seq<MatchResult>, nextId: int, i: int, row: MatchResult)
    requires ValidRows(rows, nextId) && 0 <= i < |rows|
    requires row.id == rows[i].id && row.groupId == rows[i].groupId
    requires row.player1 == rows[i].player1 && row.player2 == rows[i].player2
    ensures ValidRows(rows[i := row], nextId)
  {
    var all := rows[i := row];
    forall a, b | 0 <= a < b < |all| && all[a].groupId == all[b].groupId
      ensures !IsResultFor(all[b], all[a].player1, all[a].player2)
    {
      assert all[a].groupId == rows[a].groupId && all[b].groupId == rows[b].groupId;
      assert all[a].player1 == rows[a].player1 && all[a].player2 == rows[a].player2;
      assert all[b].player1 == rows[b].player1 && all[b].player2 == rows[b].player2;
    }
  }
}
