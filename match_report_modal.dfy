/** The client form for reporting or editing one match: its fields start from the
    existing result when there is one, a submit reads the two score fields, checks
    the rules of the chosen status, and hands one payload to the caller, at most one
    at a time.

    The form checks nearly the backend's rules. It lets through a score field that
    does not parse (sent as null) for a played match and negative scores for a
    retired match, and it only asks the winner to be non-empty; the lemmas below
    show where it agrees with the backend and where it does not. */
module MatchReportModal {
  import opened Wrappers
  import opened Text
  import opened Domain
  import opened MatchResultService

  /** A score field as read: blank, a number, or text that does not parse (NaN). */
  datatype Score = Null | Num(n: int) | NaN

  /** `text.trim() === '' ? null : parseInt(text)`, with `parsed` what `parseInt`
      returns for the text (none for NaN). */
  function ReadScore(text: string, parsed: Option<int>): (s: Score)
    ensures s.Null? <==> JsTrim(text) == ""
    ensures s.Num? <==> JsTrim(text) != "" && parsed.Some?
    ensures s.Num? ==> s.n == parsed.value
  {
    if JsTrim(text) == "" then Null else if parsed.Some? then Num(parsed.value) else NaN
  }

  /** The value a score takes in the JSON body: NaN is written as null. */
  function Wire(s: Score): Option<int> {
    if s.Num? then Some(s.n) else None
  }

  /** The JavaScript comparisons of a non-null score with a number; every comparison
      with NaN is false. */
  predicate Below(s: Score, k: int) { s.Num? && s.n < k }
  predicate Above(s: Score, k: int) { s.Num? && s.n > k }
  predicate Equals(s: Score, k: int) { s.Num? && s.n == k }

  /** JavaScript truthiness of the chosen winner. */
  predicate Chosen(w: Option<string>) {
    w.Some? && w.value != ""
  }

  /** The checks of a submit, in the order the form makes them, with the error the
      backend would report for the same rule. */
  function ClientCheck(status: MatchStatus, s1: Score, s2: Score, winner: Option<string>): (c: Check<Rejection>)
    ensures c.Pass? && status.Played? ==> !s1.Null? && !s2.Null? && (Equals(s1, 4) || Equals(s2, 4))
    ensures c.Pass? && !status.Played? ==> Chosen(winner)
    ensures c.Pass? && status.Retired? ==> !s1.Null? && !s2.Null? && !Above(s1, 3) && !Above(s2, 3)
  {
    match status
    case Played =>
      if s1.Null? || s2.Null? then Fail(MissingScores)
      else if Below(s1, 0) || Below(s2, 0) || Above(s1, 4) || Above(s2, 4) then Fail(ScoreOutOfRange)
      else if !Equals(s1, 4) && !Equals(s2, 4) then Fail(NoFourGames)
      else if Equals(s1, 4) && Equals(s2, 4) then Fail(BothFourGames)
      else Pass
    case Walkover =>
      if !Chosen(winner) then Fail(NoWinner) else Pass
    case Retired =>
      if !Chosen(winner) then Fail(NoWinner)
      else if s1.Null? || s2.Null? then Fail(MissingRetiredScores)
      else if Above(s1, 3) || Above(s2, 3) then Fail(RetiredScoreOutOfRange)
      else Pass
  }

  /** What a submit hands to the caller. */
  datatype Payload = Payload(
    groupId: int,
    player1: string,
    player2: string,
    score1: Option<int>,
    score2: Option<int>,
    status: MatchStatus,
    winner: Option<string>,
    matchId: Option<int>)

  /** `s1 > s2` for two non-null scores. */
  predicate Greater(s1: Score, s2: Score) {
    s1.Num? && s2.Num? && s1.n > s2.n
  }

  /** The payload of a submit: a played match is won by the first player when the
      first score is higher and by the second otherwise, any other status sends the
      chosen winner; the id of the existing result makes it an edit. */
  function PayloadOf(groupId: int, p1: string, p2: string, status: MatchStatus, s1: Score, s2: Score,
                     winner: Option<string>, existing: Option<MatchResult>): (p: Payload)
    ensures p.groupId == groupId && p.player1 == p1 && p.player2 == p2 && p.status == status
    ensures p.score1 == Wire(s1) && p.score2 == Wire(s2)
    ensures status.Played? ==> p.winner == Some(if Greater(s1, s2) then p1 else p2)
    ensures !status.Played? ==> p.winner == winner
    ensures p.matchId.Some? <==> existing.Some?
    ensures existing.Some? ==> p.matchId == Some(existing.value.id)
  {
    Payload(groupId, p1, p2, Wire(s1), Wire(s2), status,
      if status.Played? then Some(if Greater(s1, s2) then p1 else p2) else winner,
      if existing.Some? then Some(existing.value.id) else None)
  }

  /** The request the backend reads from a payload. */
  function RequestOf(p: Payload): ReportRequest {
    ReportRequest(p.groupId, p.player1, p.player2, p.score1, p.score2, p.status, p.winner)
  }

  // ---------------------------------------------------------------------------
  // The form against the backend

  /** With two numbers, the form's checks of a played match are the backend's, to
      the error. */
  lemma PlayedChecksAgree(n1: int, n2: int, winner: Option<string>)
    ensures ClientCheck(Played, Num(n1), Num(n2), winner) == ValidatePlayed(Some(n1), Some(n2))
  {
  }

  /** A played form whose first field does not parse gets past the form and is
      refused by the backend, which receives no first score. */
  lemma PlayedUnparsedScoreSlipsThrough(winner: Option<string>)
    ensures ClientCheck(Played, NaN, Num(4), winner) == Pass
    ensures ValidatePlayed(Wire(NaN), Wire(Num(4))) == Fail(MissingScores)
  {
  }

  /** A retired form with a negative score gets past the form and is refused by the
      backend. */
  lemma RetiredNegativeScoreSlipsThrough()
    ensures ClientCheck(Retired, Num(-1), Num(3), Some("Anna")) == Pass
    ensures ValidateRetired(Some("Anna"), "Anna", "Bea", Wire(Num(-1)), Wire(Num(3))) == Fail(RetiredScoreOutOfRange)
  {
    assert !IsJavaSpace("Anna"[0]);
  }

  /** The form never blocks a report the backend accepts. */
  lemma FormNoStricterThanBackend(p1: string, p2: string, s1: Score, s2: Score, winner: Option<string>)
    ensures ValidatePlayed(Wire(s1), Wire(s2)).Pass? ==> ClientCheck(Played, s1, s2, winner) == Pass
    ensures ValidateWinner(winner, p1, p2).Pass? ==> ClientCheck(Walkover, s1, s2, winner) == Pass
    ensures ValidateRetired(winner, p1, p2, Wire(s1), Wire(s2)).Pass? ==> ClientCheck(Retired, s1, s2, winner) == Pass
  {
    if PlayedScores(Wire(s1), Wire(s2)) {
      PlayedScoresPassForm(s1, s2, winner);
    }
    if NamedWinner(winner, p1, p2) {
      NamedIsChosen(winner, p1, p2);
      if RetiredScores(Wire(s1), Wire(s2)) {
        RetiredScoresPassForm(s1, s2, winner);
      }
    }
  }

  lemma PlayedScoresPassForm(s1: Score, s2: Score, winner: Option<string>)
    requires PlayedScores(Wire(s1), Wire(s2))
    ensures ClientCheck(Played, s1, s2, winner) == Pass
  {
  }

  lemma RetiredScoresPassForm(s1: Score, s2: Score, winner: Option<string>)
    requires Chosen(winner) && RetiredScores(Wire(s1), Wire(s2))
    ensures ClientCheck(Retired, s1, s2, winner) == Pass
  {
  }

  /** A winner the backend accepts is one the form counts as chosen. */
  lemma NamedIsChosen(winner: Option<string>, p1: string, p2: string)
    requires NamedWinner(winner, p1, p2)
    ensures Chosen(winner)
  {
    var k :| 0 <= k < |winner.value| && !IsJavaSpace(winner.value[k]);
  }

  /** What the form passes and the backend refuses has an unparsed score, a negative
      retired score, or a winner the backend does not accept (blank once trimmed, or
      not one of the players). */
  lemma FormBackendGap(groupId: int, p1: string, p2: string, status: MatchStatus, s1: Score, s2: Score,
                       winner: Option<string>, existing: Option<MatchResult>)
    requires ClientCheck(status, s1, s2, winner) == Pass
    requires Decide(RequestOf(PayloadOf(groupId, p1, p2, status, s1, s2, winner, existing)), (p1, p2), (p1, p2)).Err?
    ensures (status.Played? && (s1.NaN? || s2.NaN?))
         || (status.Retired? && (s1.NaN? || s2.NaN? || Below(s1, 0) || Below(s2, 0)))
         || (!status.Played? && !NamedWinner(winner, p1, p2))
  {
    var req := RequestOf(PayloadOf(groupId, p1, p2, status, s1, s2, winner, existing));
    RefusalCauses(req, p1, p2, s1, s2, winner);
  }

  /** The causes of a refusal, for a request carrying the form's scores and, unless
      played, its winner. */
  lemma RefusalCauses(req: ReportRequest, p1: string, p2: string, s1: Score, s2: Score, winner: Option<string>)
    requires ClientCheck(req.status, s1, s2, winner) == Pass
    requires req.score1 == Wire(s1) && req.score2 == Wire(s2)
    requires req.status.Played? || req.winner == winner
    requires Decide(req, (p1, p2), (p1, p2)).Err?
    ensures (req.status.Played? && (s1.NaN? || s2.NaN?))
         || (req.status.Retired? && (s1.NaN? || s2.NaN? || Below(s1, 0) || Below(s2, 0)))
         || (!req.status.Played? && !NamedWinner(winner, p1, p2))
  {
    match req.status {
      case Played =>
        assert !PlayedScores(Wire(s1), Wire(s2));
      case Walkover =>
      case Retired =>
    }
  }

  /** For an accepted played form with two numbers the form names the winner the
      backend decides. */
  lemma PlayedWinnerAgrees(groupId: int, p1: string, p2: string, n1: int, n2: int,
                           winner: Option<string>, existing: Option<MatchResult>)
    requires ClientCheck(Played, Num(n1), Num(n2), winner) == Pass
    ensures var p := PayloadOf(groupId, p1, p2, Played, Num(n1), Num(n2), winner, existing);
      Decide(RequestOf(p), (p1, p2), (p1, p2)).Ok?
      && p.winner == Some(Decide(RequestOf(p), (p1, p2), (p1, p2)).value.winner)
  {
    PlayedWinnerHasFour(n1, n2);
  }

  // ---------------------------------------------------------------------------
  // The form's state

  /** The text a score field starts with: the stored score, or blank. */
  function InitialText(score: Option<int>): string {
    if score.Some? then DecimalString(score.value) else ""
  }

  /** A stored score as a read field. */
  function ScoreOf(score: Option<int>): Score {
    if score.Some? then Num(score.value) else Null
  }

  /** A field that starts from a stored score reads back as that score, and a field
      that starts blank reads as null. */
  lemma ReadInitialText(score: Option<int>)
    ensures ReadScore(InitialText(score), score) == ScoreOf(score)
  {
    if score.Some? {
      DecimalStringNotBlank(score.value);
    } else {
      assert JsTrim("") == "";
    }
  }

  /** The payload of an edit of a stored result submitted unchanged; the parsed
      values are what `parseInt` reads back from the stored scores' decimal text. */
  function ResubmitPayload(groupId: int, existing: MatchResult): Payload {
    PayloadOf(groupId, existing.player1, existing.player2, existing.status,
      ReadScore(InitialText(existing.score1), existing.score1),
      ReadScore(InitialText(existing.score2), existing.score2),
      existing.winner, Some(existing))
  }

  /** Editing a stored result and submitting it unchanged passes the form and sends
      the stored status, scores and winner. */
  lemma ResubmitPassesForm(groupId: int, existing: MatchResult)
    requires WellFormed(existing) && NamedWinner(existing.winner, existing.player1, existing.player2)
    ensures ClientCheck(existing.status, ReadScore(InitialText(existing.score1), existing.score1),
      ReadScore(InitialText(existing.score2), existing.score2), existing.winner) == Pass
    ensures var p := ResubmitPayload(groupId, existing);
      p.status == existing.status && p.score1 == existing.score1 && p.score2 == existing.score2
      && p.winner == existing.winner && p.matchId == Some(existing.id)
  {
    ReadInitialText(existing.score1);
    ReadInitialText(existing.score2);
    StoredValuesPassForm(existing);
    StoredValuesPayload(groupId, existing);
  }

  lemma StoredValuesPayload(groupId: int, existing: MatchResult)
    requires WellFormed(existing)
    ensures var p := PayloadOf(groupId, existing.player1, existing.player2, existing.status,
      ScoreOf(existing.score1), ScoreOf(existing.score2), existing.winner, Some(existing));
      p.status == existing.status && p.score1 == existing.score1 && p.score2 == existing.score2
      && p.winner == existing.winner && p.matchId == Some(existing.id)
  {
    var s1, s2 := ScoreOf(existing.score1), ScoreOf(existing.score2);
    assert Wire(s1) == existing.score1 && Wire(s2) == existing.score2;
    if existing.status.Played? {
      PlayedWinnerHasFour(existing.score1.value, existing.score2.value);
      assert Greater(s1, s2) <==> existing.score1.value > existing.score2.value;
    }
  }

  lemma StoredValuesPassForm(r: MatchResult)
    requires WellFormed(r) && NamedWinner(r.winner, r.player1, r.player2)
    ensures ClientCheck(r.status, ScoreOf(r.score1), ScoreOf(r.score2), r.winner) == Pass
  {
    if !r.status.Played? {
      var w := r.winner.value;
      var k :| 0 <= k < |w| && !IsJavaSpace(w[k]);
    }
  }

  /** The backend's update of an unchanged resubmission gives back the stored result. */
  lemma ResubmitUnchanged(groupId: int, existing: MatchResult)
    requires WellFormed(existing) && NamedWinner(existing.winner, existing.player1, existing.player2)
    ensures Update(existing, RequestOf(ResubmitPayload(groupId, existing))) == Ok(existing)
  {
    ResubmitPassesForm(groupId, existing);
    UpdateWithStoredValues(existing, RequestOf(ResubmitPayload(groupId, existing)));
  }

  /** An update that repeats a well-formed result's status, scores and winner gives
      back that result. */
  lemma UpdateWithStoredValues(existing: MatchResult, req: ReportRequest)
    requires WellFormed(existing) && NamedWinner(existing.winner, existing.player1, existing.player2)
    requires req.status == existing.status && req.winner == existing.winner
    requires req.score1 == existing.score1 && req.score2 == existing.score2
    ensures Update(existing, req) == Ok(existing)
  {
    if existing.status.Played? {
      PlayedWinnerHasFour(existing.score1.value, existing.score2.value);
    }
  }

  /** The report form of one match. */
  class ReportForm {
    const groupId: int
    const player1: string
    const player2: string
    const existing: Option<MatchResult>
    var status: MatchStatus
    var winner: Option<string>
    var score1Text: string
    var score2Text: string
    var submitting: bool

    /** A new form starts from the existing result, or empty as a played match. */
    constructor(groupId: int, player1: string, player2: string, existing: Option<MatchResult>)
      ensures this.groupId == groupId && this.player1 == player1 && this.player2 == player2
      ensures this.existing == existing && !submitting
      ensures status == (if existing.Some? then existing.value.status else Played)
      ensures winner == (if existing.Some? then existing.value.winner else Some(""))
      ensures score1Text == (if existing.Some? then InitialText(existing.value.score1) else "")
      ensures score2Text == (if existing.Some? then InitialText(existing.value.score2) else "")
    {
      this.groupId := groupId;
      this.player1 := player1;
      this.player2 := player2;
      this.existing := existing;
      status := if existing.Some? then existing.value.status else Played;
      winner := if existing.Some? then existing.value.winner else Some("");
      score1Text := if existing.Some? then InitialText(existing.value.score1) else "";
      score2Text := if existing.Some? then InitialText(existing.value.score2) else "";
      submitting := false;
    }

    /** A submit: ignored while one is in flight; otherwise the fields are read and
        checked and, when they pass, the payload is handed over and the form is
        marked as submitting. `parsed1` and `parsed2` are what `parseInt` returns for
        the two fields. */
    method Submit(parsed1: Option<int>, parsed2: Option<int>) returns (sent: Option<Payload>)
      modifies this
      ensures status == old(status) && winner == old(winner)
      ensures score1Text == old(score1Text) && score2Text == old(score2Text)
      ensures old(submitting) ==> sent.None? && submitting
      ensures !old(submitting) ==>
        var s1, s2 := ReadScore(score1Text, parsed1), ReadScore(score2Text, parsed2);
        (sent.Some? <==> ClientCheck(status, s1, s2, winner) == Pass)
        && (sent.Some? ==> sent.value == PayloadOf(groupId, player1, player2, status, s1, s2, winner, existing))
      ensures submitting <==> old(submitting) || sent.Some?
    {
      if submitting {
        return None;
      }
      var s1 := ReadScore(score1Text, parsed1);
      var s2 := ReadScore(score2Text, parsed2);
      if ClientCheck(status, s1, s2, winner).Fail? {
        return None;
      }
      submitting := true;
      sent := Some(PayloadOf(groupId, player1, player2, status, s1, s2, winner, existing));
    }

    /** The caller has finished with the payload, successfully or not. */
    method SubmitSettled()
      modifies this
      ensures !submitting
      ensures status == old(status) && winner == old(winner)
      ensures score1Text == old(score1Text) && score2Text == old(score2Text)
    {
      submitting := false;
    }
  }
}
