# Tennis Fun, modelled in Dafny

Tennis Fun runs small club tennis tournaments: round-robin groups of three to
five players first, then knockout rounds of two-player groups. An organiser
builds the groups in a browser form and the backend stores the tournament. The
organiser then fills the knockout rounds by double-clicking players. Match
results are reported through a small form and checked again by the backend.

This project models the logic of that system and proves what it promises:

- `Standings`, `RankingSort`, `Rounds` and `PlayoffSetup` model the
  ongoing-tournament view (`FE/src/OngoingTournament.jsx`):
  - the round-robin matches of a group, and the lookup of a result for a pairing;
  - points, game difference and games won, per group and over the tournament;
  - the stable three-level ranking sort;
  - the cutting of knockout groups into rounds and the round titles;
  - the winners of a round;
  - the playoff setup that players are double-clicked into.
- `MatchResultService` models the backend's validation and storage of results
  (`MatchResultService.java`).
- `MatchReportModal` models the client's report form (`MatchReportModal.jsx`).
  Lemmas compare the form's checks with the backend's.
- `TournamentService` models tournament creation, the summaries, knockout-round
  creation and the filling of a knockout match (`TournamentService.java`).
- `AdminForm` models the group editor (`AdminForm.jsx`):
  - the newline-separated participant list;
  - nine groups of at most five names filled by drag and drop;
  - the import normalisation;
  - the submit checks and the request the form sends.
- `App` models the page state machine and its admin gate (`App.jsx`).
- `Domain`, `Text`, `Seqs` and `Wrappers` hold the shared records and the
  string and sequence helpers. `Text` covers JavaScript and Java `trim`, and
  `split`/`join` on a separator.

Component state that handlers replace or update becomes a class with `modifies`
clauses. Examples are the playoff setup, the admin form, the page state, the
stored results and the stored tournaments. Accumulator loops become methods
with loop invariants, each proved equal to a recursive function that states what it computes.
Pure expressions become functions.

Calls to the backend, dialogs and `parseInt` are parameters. A backend call is
the answer it returned, or none when it failed. A `prompt` or `confirm` is the
user's answer. `parseInt` is the integer it read, or none for NaN.
`LocalDate.parse` is a boolean saying whether the date parsed.

## Model

| member | source | states |
|---|---|---|
| Domain.GroupIndex | FE/src/OngoingTournament.jsx:503 | `groups.find(g => g.id === id)`: the first group with that id, or -1 exactly when no group has it |
| Domain.RosterMember | FE/src/OngoingTournament.jsx:262-270 | a name is among all participants exactly when some group lists it |
| Standings.Row | FE/src/OngoingTournament.jsx:134-141 | the inner loop for participant i: the matches of p[i] against every later participant, in index order |
| Standings.GenerateMatches | FE/src/OngoingTournament.jsx:123-143 | two participants give exactly [(p0, p1)]; otherwise the nested loop yields the rows in order, n(n-1)/2 matches, and a match is produced exactly when it pairs p[i] with p[j] for some i < j |
| Standings.TwoPlayerTriangle | FE/src/OngoingTournament.jsx:125-130 | two participants give the single match (first, second), which is also what the general loop builds |
| Standings.AppendRow | FE/src/OngoingTournament.jsx:134-141 | one pass of the inner loop appends exactly participant i against every later participant |
| Standings.AllPairs | FE/src/OngoingTournament.jsx:133-141 | the full loop builds n(n−1)/2 matches, exactly the pairs (p[i], p[j]) with i < j |
| Standings.TriangleCount | FE/src/OngoingTournament.jsx:133-141 | the first n rows hold n(2·len − n − 1)/2 matches |
| Standings.TriangleMember | FE/src/OngoingTournament.jsx:133-141 | a match is in the first n rows exactly when it pairs p[i], i < n, with a later p[j] |
| Standings.MatchesAreDistinctPairings | FE/src/OngoingTournament.jsx:123-143 | with distinct participants no two generated matches are between the same two players, in either order |
| Standings.SingletonGroupHasNoMatches | FE/src/OngoingTournament.jsx:123-143 | a group of at most one participant generates no match |
| Standings.FirstResultIndex | FE/src/OngoingTournament.jsx:146-152 | the position of the first result for the unordered pairing, every earlier one being for another pairing |
| Standings.FindResult | FE/src/OngoingTournament.jsx:146-152 | none exactly when no result is for the pairing in either order; otherwise the first such result in list order |
| Standings.FindResultSymmetric | FE/src/OngoingTournament.jsx:146-152 | looking up (a, b) gives the same answer as (b, a) |
| Standings.Wins | FE/src/OngoingTournament.jsx:155-166 | the number of results won by the player never exceeds the number of results |
| Standings.CalculatePoints | FE/src/OngoingTournament.jsx:155-166 | the accumulator loop returns two points per result the player won, between 0 and twice the number of results |
| Standings.CalculateSetDifference | FE/src/OngoingTournament.jsx:169-185 | the loop returns games won minus games lost, a null score counting 0 and the player1 side checked first |
| Standings.CalculateGamesWon | FE/src/OngoingTournament.jsx:188-201 | the loop returns the games on the player's own side, a null score counting 0 |
| Standings.NoResultsNoStanding | FE/src/OngoingTournament.jsx:155-201 | a player in none of the results has 0 points, 0 difference and 0 games |
| Standings.WinsOfOneResult | FE/src/OngoingTournament.jsx:155-166 | one more result adds one win to the group total exactly when its winner is in the group |
| Standings.GamesOfOneResult | FE/src/OngoingTournament.jsx:169-201 | one more result adds its scores to the group's games won and lost, side by side |
| Standings.NoResultsNoTotals | FE/src/OngoingTournament.jsx:155-201 | without results every group total is 0 |
| Standings.PointsConservation | FE/src/OngoingTournament.jsx:155-166 | in a group whose results are between its own participants, the points total is two per result |
| Standings.SetDifferenceZeroSum | FE/src/OngoingTournament.jsx:169-201 | in such a group the games won and lost totals are equal, so set differences sum to 0, and both equal all games played |
| Standings.GroupRank | FE/src/OngoingTournament.jsx:204-226 | a player's group key has even points, at most two per result, and a player without results has the zero key |
| Standings.SortedParticipants | FE/src/OngoingTournament.jsx:204-226 | the table is a permutation of the participants, non-increasing by (points, set difference, games won), with full ties in input order |
| Standings.ExampleStandings | FE/src/OngoingTournament.jsx:204-226 | a worked group: A 4 points +5, B 2 points −1, C 0 points −4, and the table reads A, B, C from every listing of the three players |
| Standings.ExampleRanks | FE/src/OngoingTournament.jsx:204-226 | the example players' keys: A (4, +5, 8), B (2, −1, 6), C (0, −4, 4) |
| Standings.ExampleTable | FE/src/OngoingTournament.jsx:204-226 | any listing of the three example players sorts to A, B, C |
| Standings.TotalRank | FE/src/OngoingTournament.jsx:229-259 | a player's tournament key has even, non-negative points |
| Standings.CalculateTotalPoints | FE/src/OngoingTournament.jsx:229-237 | the loop over all groups returns the sum of the player's group points |
| Standings.CalculateTotalSetDifference | FE/src/OngoingTournament.jsx:240-248 | the loop returns the sum of the player's group set differences |
| Standings.CalculateTotalGamesWon | FE/src/OngoingTournament.jsx:251-259 | the loop returns the sum of the player's group games won |
| Standings.TotalRankSplit | FE/src/OngoingTournament.jsx:229-259 | totals over two runs of groups add up |
| Standings.TotalRankOutsider | FE/src/OngoingTournament.jsx:229-259 | a player in no group has all totals 0 |
| Standings.DistinctPlayers | FE/src/OngoingTournament.jsx:262-270 | the Set-building loop returns every participant once, in first-appearance order, and nothing else; `getPlayersFromRound` (lines 390-396) is the same loop over one round's groups |
| Standings.AddNewPlayers | FE/src/OngoingTournament.jsx:262-270 | adding one group's participants keeps the list equal to the roster so far without repeats, in first-appearance order |
| Standings.TotalRanking | FE/src/OngoingTournament.jsx:273-293 | every distinct player once, non-increasing by total (points, set difference, games won), full ties in first-appearance order |
| Standings.AllMatchesReported | FE/src/OngoingTournament.jsx:296-304 | true only when no group is empty |
| Standings.GroupReportedMeans | FE/src/OngoingTournament.jsx:299-302 | every generated match has a result exactly when every pair of participants has one, in either order |
| Standings.AllMatchesReportedMeans | FE/src/OngoingTournament.jsx:296-304 | all reported exactly when every group has participants and every pair in it has a result |
| RankingSort.AtLeastTotalPreorder | FE/src/OngoingTournament.jsx:205-225 | the three-level comparator is reflexive, total and transitive, and ties only equal keys |
| RankingSort.SortByRankCorrect | FE/src/OngoingTournament.jsx:205-225 | the stable sort is a permutation, sorted non-increasing by key, and keeps the input order of equal keys |
| RankingSort.SortIsTheOnlyStableOrder | FE/src/OngoingTournament.jsx:205-225 | any sorted, stable reordering equals the sort, so the table does not depend on the sort algorithm |
| RankingSort.SortedStableUnique | FE/src/OngoingTournament.jsx:205-225 | two sorted sequences with the same members per key in the same order are equal |
| Rounds.RoundRobinGroups | FE/src/OngoingTournament.jsx:312-314 | a group is listed exactly when it has more than two participants, in stored order |
| Rounds.PlayoffGroups | FE/src/OngoingTournament.jsx:316-318 | a group is listed exactly when it has at most two participants, in stored order |
| Rounds.PhasesPartition | FE/src/OngoingTournament.jsx:312-318 | round-robin groups (more than 2 participants) and playoff groups (at most 2) split the groups without loss or overlap |
| Rounds.SortedPlayoffGroups | FE/src/OngoingTournament.jsx:326 | a permutation of the playoff groups, ascending by group number, with groups of equal number kept in stored order |
| Rounds.ChunkSize | FE/src/OngoingTournament.jsx:368-380 | the next round size is 1, 2, 4 or 8, never more than what remains, and 8 only for the first round |
| Rounds.ChunksShape | FE/src/OngoingTournament.jsx:363-384 | the round sizes add up to the number of playoff groups, each is 1, 2, 4 or 8, and after the first they are at most 4 |
| Rounds.PlayoffRounds | FE/src/OngoingTournament.jsx:321-387 | the sorted playoff groups are cut into non-empty rounds whose concatenation is that list and whose sizes follow the size rule; no playoff group gives no round |
| Rounds.CutRounds | FE/src/OngoingTournament.jsx:363-386 | the `while` loop's rounds concatenate back to the sorted groups and have the sizes of the size rule |
| Rounds.NextRoundSize | FE/src/OngoingTournament.jsx:368-380 | the if-chain picks the size the rule gives |
| Rounds.FifteenGroups | FE/src/OngoingTournament.jsx:363-384 | 15 playoff groups are cut into rounds of 8, 4, 2 and 1 |
| Rounds.BracketRecovered | FE/src/OngoingTournament.jsx:363-384 | a complete bracket starting with 1, 2, 4 or 8 matches is cut back into exactly its rounds |
| Rounds.SixteenGroupsSplit | FE/src/OngoingTournament.jsx:363-384 | 16 playoff groups are cut into 8, 4 and 4, not 8, 4, 2, 1, 1 |
| Rounds.RoundTitle | FE/src/OngoingTournament.jsx:413-421 | the title depends only on the number of matches; the generic title shows that number and is used for other sizes only |
| Rounds.CutRoundsAreNamed | FE/src/OngoingTournament.jsx:363-421 | every cut round gets a named title, and only the first can be a round of 16 |
| Rounds.TitleOfSize | FE/src/OngoingTournament.jsx:413-421 | a round of 1, 2, 4 or 8 matches gets a named title |
| Rounds.ActiveRoundIndex | FE/src/OngoingTournament.jsx:424-431 | the loop returns the first round with an empty group, or -1 exactly when there is none |
| Rounds.WinnerNamesMember | FE/src/OngoingTournament.jsx:403-406 | a name is among a group's winners exactly when it is non-empty and some result names it |
| Rounds.RoundWinnerNamesMember | FE/src/OngoingTournament.jsx:399-410 | a name is among a round's winners exactly when it is non-empty and a result of one of its groups names it |
| Rounds.WinnersFromRound | FE/src/OngoingTournament.jsx:399-410 | the nested loop returns each truthy winner once, in first-appearance order, and nothing else |
| Rounds.AddWinners | FE/src/OngoingTournament.jsx:403-407 | the inner loop extends the winner list with the new winners of one group's results |
| PlayoffSetup.BuildEmptySetup | FE/src/OngoingTournament.jsx:60-71 | the loop builds a map whose keys are exactly the ids of the groups without participants, each mapped to an empty, unfilled entry |
| PlayoffSetup.BlankSetupUnique | FE/src/OngoingTournament.jsx:581-588 | the blank setup for given groups is unique, so the setup built at start-up and the one rebuilt after a new round agree |
| PlayoffSetup.BlankSetupHasOpenSlots | FE/src/OngoingTournament.jsx:307-309 | a blank setup has an open entry exactly when some group is empty, and it is well formed |
| PlayoffSetup.OpenSlotBlocksNextRound | FE/src/OngoingTournament.jsx:296-309 | while a blank setup has an open entry, not all matches are reported |
| PlayoffSetup.OpenKeysMeans | FE/src/OngoingTournament.jsx:307-309 | `hasEmptyPlayoffSlots` holds exactly when some entry is unfilled |
| PlayoffSetup.ComesFirstUnique | FE/src/OngoingTournament.jsx:446-452 | at most one open entry has the smallest group number |
| PlayoffSetup.SetParticipants | FE/src/OngoingTournament.jsx:483-487 | the first group with the id gets the new participants; every other group, and every id and number, is unchanged; an unknown id changes nothing |
| PlayoffSetup.FirstOpenSlot | FE/src/OngoingTournament.jsx:446-457 | none exactly when every entry is filled; otherwise the open entry with the smallest group number |
| PlayoffSetup.PickKeepsValid | FE/src/OngoingTournament.jsx:469-476 | placing a player who sits nowhere keeps every entry well formed and every player in one entry |
| PlayoffSetup.LastRoundSize | FE/src/OngoingTournament.jsx:559-560 | the last cut round has as many matches as the last size, 1, 2, 4 or 8 |
| PlayoffSetup.OngoingTournament.constructor | FE/src/OngoingTournament.jsx:6-12 | the view starts with the given groups and an empty setup |
| PlayoffSetup.OngoingTournament.InitializePlayoffSetup | FE/src/OngoingTournament.jsx:60-71 | a blank entry for exactly the empty groups, the old setup kept when no group is empty |
| PlayoffSetup.OngoingTournament.PlayerDoubleClick | FE/src/OngoingTournament.jsx:442-496 | nothing changes when read-only, when no entry is open or when the player is placed; otherwise the first open entry gets the player as first name, or as second name, filled and committed to the group when the backend accepts |
| PlayoffSetup.OngoingTournament.RemovePlayerFromMatch | FE/src/OngoingTournament.jsx:499-513 | that group's participants become empty and only its entry is reset, with no backend call |
| PlayoffSetup.OngoingTournament.CreateNextRound | FE/src/OngoingTournament.jsx:541-597 | the player count is the prompted even number of at least 2 for the first knockout round, else the size of the last round; after confirmation and a reply the groups are replaced and the setup is rebuilt blank from them |
| MatchResultService.ValidatePlayed | BE/src/main/java/com/tennisfun/service/MatchResultService.java:79-93 | passes exactly when both scores are present, each from 0 to 4, and exactly one is 4; a missing score is the first error |
| MatchResultService.ValidateWinner | BE/src/main/java/com/tennisfun/service/MatchResultService.java:95-102 | passes exactly when the winner is present, not blank after Java's trim, and one of the two players |
| MatchResultService.ValidateRetired | BE/src/main/java/com/tennisfun/service/MatchResultService.java:104-113 | passes exactly when the winner passes and both scores are present and from 0 to 3; winner errors come first |
| MatchResultService.Decide | BE/src/main/java/com/tennisfun/service/MatchResultService.java:51-71 | a report passes exactly when its status's checks pass; a played match goes to the player with more games, a walkover keeps no scores, a retired match keeps both |
| MatchResultService.Apply | BE/src/main/java/com/tennisfun/service/MatchResultService.java:51-71 | a decision applied to a result keeps its id, group and players and sets the status, winner and scores from the decision |
| MatchResultService.DecisionIsWellFormed | BE/src/main/java/com/tennisfun/service/MatchResultService.java:45-71 | every accepted report stores a winner who is one of its two players, with scores matching its status |
| MatchResultService.PlayedWinnerHasFour | BE/src/main/java/com/tennisfun/service/MatchResultService.java:87-92 | in a valid played score the higher score is exactly the 4 |
| MatchResultService.PlayedResultFeedsStandings | BE/src/main/java/com/tennisfun/service/MatchResultService.java:51-58 | a stored played result gives its winner 4 games, fewer to the loser, and one win |
| MatchResultService.UpdateAsWritten | BE/src/main/java/com/tennisfun/service/MatchResultService.java:116-150 | the update as written keeps the result's id, group and players and takes the new status |
| MatchResultService.UpdateAsWrittenStoresOutsideWinner | BE/src/main/java/com/tennisfun/service/MatchResultService.java:132-134 | a walkover update naming a request player who did not play the stored match is accepted, and the stored result is not well formed |
| MatchResultService.Update | BE/src/main/java/com/tennisfun/service/MatchResultService.java:116-150 | the corrected update keeps id, group and players and takes the new status |
| MatchResultService.UpdateIsWellFormed | BE/src/main/java/com/tennisfun/service/MatchResultService.java:116-150 | every result the corrected update stores is well formed |
| MatchResultService.UpdateAgreesForSamePlayers | BE/src/main/java/com/tennisfun/service/MatchResultService.java:116-150 | when the request names the stored players, the written and the corrected update agree |
| MatchResultService.RowIndex | BE/src/main/java/com/tennisfun/service/MatchResultService.java:119-120 | finding a result by id: -1 exactly when no stored result has it |
| MatchResultService.MatchResultStore.constructor | BE/src/main/java/com/tennisfun/service/MatchResultService.java:20-23 | an empty store over the known groups |
| MatchResultService.MatchResultStore.ReportMatch | BE/src/main/java/com/tennisfun/service/MatchResultService.java:26-77 | unknown group, then an already reported pairing, then the status checks are refused in that order, a failed status check with that check's error; an accepted report is appended, well formed, with a fresh id, and a refused one changes nothing |
| MatchResultService.MatchResultStore.UpdateMatchResult | BE/src/main/java/com/tennisfun/service/MatchResultService.java:116-150 | an unknown id is refused; otherwise the outcome is the update as written of the stored row, written back in place when accepted; a request naming the row's own players stores a well-formed result |
| MatchResultService.AppendKeepsValid | BE/src/main/java/com/tennisfun/service/MatchResultService.java:73 | appending a result with the next id for a new pairing keeps ids distinct and every pairing reported once |
| MatchResultService.ReplaceKeepsValid | BE/src/main/java/com/tennisfun/service/MatchResultService.java:146 | replacing a row by one with the same id, group and players keeps ids distinct and every pairing reported once |
| MatchReportModal.ReadScore | FE/src/MatchReportModal.jsx:18-19 | a blank field reads as null, otherwise as the number `parseInt` gives, or NaN |
| MatchReportModal.ClientCheck | FE/src/MatchReportModal.jsx:21-55 | a passing played form has two non-null scores, one of them 4; a passing walkover or retired form has a chosen winner; a passing retired form has two non-null scores, neither above 3 |
| MatchReportModal.PayloadOf | FE/src/MatchReportModal.jsx:60-69 | the payload carries the group, players, status and wire scores; a played match names the first player when its score is higher and the second otherwise, any other status the chosen winner; it has a match id exactly for an edit, the existing result's |
| MatchReportModal.PlayedChecksAgree | FE/src/MatchReportModal.jsx:22-38 | with two numbers the form's played checks equal the backend's, error for error |
| MatchReportModal.PlayedUnparsedScoreSlipsThrough | FE/src/MatchReportModal.jsx:22-38 | a score that does not parse passes the form, since NaN compares false, and the backend refuses it as missing |
| MatchReportModal.RetiredNegativeScoreSlipsThrough | FE/src/MatchReportModal.jsx:46-55 | a negative retired score passes the form and is refused by the backend |
| MatchReportModal.FormNoStricterThanBackend | FE/src/MatchReportModal.jsx:21-55 | whatever the backend accepts, the form lets through |
| MatchReportModal.FormBackendGap | FE/src/MatchReportModal.jsx:21-55 | a report the form passes and the backend refuses has a NaN played score, a NaN or negative retired score, or a blank or foreign winner |
| MatchReportModal.RefusalCauses | FE/src/MatchReportModal.jsx:21-69 | the same causes, for any request carrying the form's scores and, unless played, its winner |
| MatchReportModal.PlayedWinnerAgrees | FE/src/MatchReportModal.jsx:67 | for a passing played form, the winner the form sends is the one the backend stores |
| MatchReportModal.ReadInitialText | FE/src/MatchReportModal.jsx:7-8 | the text a form shows for a stored score reads back as that score |
| MatchReportModal.ResubmitPassesForm | FE/src/MatchReportModal.jsx:5-69 | opening a well-formed stored result and submitting unchanged passes the form and sends its own scores, status and winner |
| MatchReportModal.StoredValuesPassForm | FE/src/MatchReportModal.jsx:21-55 | the values of a well-formed stored result pass the form |
| MatchReportModal.ResubmitUnchanged | FE/src/MatchReportModal.jsx:5-69 | the backend's update of an unchanged resubmit gives back the stored result |
| MatchReportModal.UpdateWithStoredValues | BE/src/main/java/com/tennisfun/service/MatchResultService.java:116-150 | updating with the stored status, scores and winner changes nothing |
| MatchReportModal.ReportForm.constructor | FE/src/MatchReportModal.jsx:5-9 | fields start from the existing result (scores as text, null as empty) or as an empty played match |
| MatchReportModal.ReportForm.Submit | FE/src/MatchReportModal.jsx:12-69 | ignored while a submit is in flight; otherwise sends exactly when the checks pass, with the payload built from the read scores, and marks the form as submitting |
| MatchReportModal.ReportForm.SubmitSettled | FE/src/MatchReportModal.jsx:70-72 | the in-flight mark is cleared and the fields kept |
| Text.TrimEmptyIffAllSpace | BE/src/main/java/com/tennisfun/service/TournamentService.java:269-271 | `trim()` leaves nothing exactly when every character is whitespace, for Java's and JavaScript's whitespace alike |
| Text.NormaliseLineEndings | FE/src/AdminForm.jsx:70-74 | after the normalisation no carriage return is left and neither end is whitespace |
| Text.ReplacementsUnifyLineBreaks | FE/src/AdminForm.jsx:72-73 | the two replacements in a row equal the reference reading: each CR LF pair and each lone CR becomes one LF, other characters kept |
| Text.UnifyLineBreaksAppend | FE/src/AdminForm.jsx:72-73 | cutting a text anywhere but inside a CR LF pair unifies the pieces separately |
| Text.UnifyLineBreaksBasics | FE/src/AdminForm.jsx:72-73 | a CR LF pair and a lone CR each give one LF, no CR survives, and a CR-free text is unchanged |
| Text.NormaliseUnifiesLineBreaks | FE/src/AdminForm.jsx:70-74 | the normalised text is the BOM-free text with its line breaks unified, then trimmed |
| Text.NormaliseIdempotent | FE/src/AdminForm.jsx:70-74 | normalising a normalised text changes nothing |
| Text.DecimalStringNotBlank | FE/src/MatchReportModal.jsx:7-8 | a score's text is never blank |
| TournamentService.CourtOf | BE/src/main/java/com/tennisfun/service/TournamentService.java:68-69 | a court is dropped exactly when it is null or blank, and otherwise kept as given |
| TournamentService.ParticipantCountIsRosterLength | BE/src/main/java/com/tennisfun/service/TournamentService.java:80-82 | the summed group sizes are the number of participant entries |
| TournamentService.SummaryOf | BE/src/main/java/com/tennisfun/service/TournamentService.java:84-91 | a summary carries the tournament's id, name and date, its number of groups and its number of participant entries |
| TournamentService.Summaries | BE/src/main/java/com/tennisfun/service/TournamentService.java:94-149 | one summary per tournament, in order, with its id, name, date, group count and participant count |
| TournamentService.PairCount | BE/src/main/java/com/tennisfun/service/TournamentService.java:192-194 | the number of two-player groups: at most the number of groups, and 0 exactly when no group has two participants |
| TournamentService.PlayerCount | BE/src/main/java/com/tennisfun/service/TournamentService.java:189-209 | without a count it takes the number of two-player groups, refused when there is none; the count is refused below 2 and when odd, and accepted otherwise |
| TournamentService.MaxGroupNumber | BE/src/main/java/com/tennisfun/service/TournamentService.java:213 | the largest group number in use, 0 for none |
| TournamentService.NextNumberAsWritten | BE/src/main/java/com/tennisfun/service/TournamentService.java:213 | the first number of a new round as written, one past the group count, is positive and above every number in use when the groups are numbered 1, 2, … in stored order (agreement with the corrected numbering: `NumberingAgreesWhenConsecutive`) |
| TournamentService.NextNumberAsWrittenClashes | BE/src/main/java/com/tennisfun/service/TournamentService.java:213-217 | a tournament created without its empty second group numbers its next round from 3, which is already in use |
| TournamentService.NextGroupNumber | BE/src/main/java/com/tennisfun/service/TournamentService.java:213 | the corrected first number is above every number in use |
| TournamentService.NumberingAgreesWhenConsecutive | BE/src/main/java/com/tennisfun/service/TournamentService.java:213 | with numbers 1, 2, … in stored order both numberings agree |
| TournamentService.TournamentIndex | BE/src/main/java/com/tennisfun/service/TournamentService.java:152-154 | the tournament with the id, or -1 exactly when none has it |
| TournamentService.Locate | BE/src/main/java/com/tennisfun/service/TournamentService.java:234-235 | finding a group by id: none exactly when no tournament holds it, otherwise the place of that group |
| TournamentService.AppendTournamentKeepsValid | BE/src/main/java/com/tennisfun/service/TournamentService.java:75 | saving a tournament with the next id and fresh group ids keeps all ids distinct |
| TournamentService.AppendGroupsKeepsValid | BE/src/main/java/com/tennisfun/service/TournamentService.java:215-223 | adding groups with fresh ids keeps all ids distinct |
| TournamentService.ReplaceGroupKeepsValid | BE/src/main/java/com/tennisfun/service/TournamentService.java:245-246 | replacing a group by one with the same id keeps the store valid |
| TournamentService.UpdateTouchesOneGroup | BE/src/main/java/com/tennisfun/service/TournamentService.java:230-251 | filling a group changes that group's participants and nothing else in any tournament |
| TournamentService.StoredGroupsAt | BE/src/main/java/com/tennisfun/service/TournamentService.java:62-72 | one stored group per kept request group, in order, with consecutive ids |
| TournamentService.NewTournament | BE/src/main/java/com/tennisfun/service/TournamentService.java:54-72 | the new tournament has the given id, is not archived, has one winner unless the request names a number, and holds one group with participants per kept request group, under consecutive fresh ids |
| TournamentService.CreatedGroupsMatchRequest | BE/src/main/java/com/tennisfun/service/TournamentService.java:44-72 | the created tournament holds exactly the request's groups with participants, in order, each with its number, participants and non-blank courts; the name is trimmed and the number of winners defaults to 1 |
| TournamentService.StoreGroups | BE/src/main/java/com/tennisfun/service/TournamentService.java:62-72 | the `addGroup` loop builds exactly those groups |
| TournamentService.KnockoutRoundSlots | BE/src/main/java/com/tennisfun/service/TournamentService.java:215-221 | a round numbered from any first number has the requested number of empty groups, numbered consecutively from it, with fresh ids |
| TournamentService.KnockoutRoundShape | BE/src/main/java/com/tennisfun/service/TournamentService.java:212-221 | a new round has the requested number of empty groups, numbered consecutively above every number in use, with fresh ids |
| TournamentService.BuildKnockoutRound | BE/src/main/java/com/tennisfun/service/TournamentService.java:215-221 | the loop builds exactly that round |
| TournamentService.TournamentStore.constructor | BE/src/main/java/com/tennisfun/service/TournamentService.java:25-29 | an empty store whose ids start at 1 |
| TournamentService.TournamentStore.CreateTournament | BE/src/main/java/com/tennisfun/service/TournamentService.java:31-92 | a blank name, then a blank date, then no group with participants, then an unparsable date is refused in that order, changing nothing; otherwise the new tournament is appended and its summary returned |
| TournamentService.TournamentStore.Save | BE/src/main/java/com/tennisfun/service/TournamentService.java:55-75 | appends the tournament built from the request with the next ids |
| TournamentService.TournamentStore.CreateNextRound | BE/src/main/java/com/tennisfun/service/TournamentService.java:183-228 | an unknown tournament or a refused player count changes nothing; otherwise half the count of empty groups, numbered from one past the group count as written, is appended to that tournament |
| TournamentService.TournamentStore.AppendRound | BE/src/main/java/com/tennisfun/service/TournamentService.java:211-223 | appends the knockout round, numbered from one past the group count as written, to one tournament and advances the group ids |
| TournamentService.TournamentStore.UpdateGroupParticipants | BE/src/main/java/com/tennisfun/service/TournamentService.java:230-251 | an unknown group, then a null or empty list, then a list not of two is refused, changing nothing; otherwise that group alone gets the list |
| AdminForm.EmptyGroupsOk | FE/src/AdminForm.jsx:10-11 | the nine empty groups and court pairs of a fresh form are within the limits |
| AdminForm.NotBlankIffTrimmed | FE/src/AdminForm.jsx:117 | a line has a non-whitespace character exactly when its `trim()` is non-empty |
| AdminForm.ParticipantArray | FE/src/AdminForm.jsx:116-118 | every entry of the participant array is non-blank and holds no newline |
| AdminForm.BlankListHasNoNames | FE/src/AdminForm.jsx:116-118 | a blank list has no participants |
| AdminForm.ReadBackLines | FE/src/AdminForm.jsx:110-118 | joining non-blank, newline-free lines and reading them back gives those lines |
| AdminForm.GluedReadBack | FE/src/AdminForm.jsx:116-118 | two lists glued by a newline hold the names of the first, then those of the second |
| AdminForm.ReadBackLine | FE/src/AdminForm.jsx:116-118 | a non-blank, newline-free line reads back as that one name |
| AdminForm.WithoutName | FE/src/AdminForm.jsx:110-114 | after removing a name the list holds exactly the earlier names whose trimmed text differs from the trimmed name, in order |
| AdminForm.WithLine | FE/src/AdminForm.jsx:183-185 | the names after appending a line are the list's followed by the line's, so a non-blank, newline-free line becomes exactly the last name |
| AdminForm.AddedPlayer | FE/src/AdminForm.jsx:93-101 | adding a typed name appends its trimmed text as the last name; a blank name adds nothing |
| AdminForm.ImportText | FE/src/AdminForm.jsx:76-81 | an import keeps a list with text in front of the content and brings no carriage return into a list that had none |
| AdminForm.ImportReadBack | FE/src/AdminForm.jsx:76-81 | an import appends the names of the normalised content to the listed names |
| AdminForm.DropGroups | FE/src/AdminForm.jsx:159-173 | after a drop the target group is its earlier contents, less the name when dragged from that same group, followed by the name; the source group has lost the name, and every other group is unchanged |
| AdminForm.DropKeepsGroupsOk | FE/src/AdminForm.jsx:148-157 | a drop onto a group with room that lacks the name keeps every group within five names and free of duplicates |
| AdminForm.DropKeepsNames | FE/src/AdminForm.jsx:159-173 | a drop from a group keeps the multiset of grouped names; a drop from the list adds the name once |
| AdminForm.DropRefusal | FE/src/AdminForm.jsx:142-157 | nothing without a drag, an alert on a full group, nothing for a name already in the group, a move otherwise |
| AdminForm.CheckForm | FE/src/AdminForm.jsx:232-253 | passes exactly when the list is blank, the name is not, a date is chosen and some group is filled; the first failing check is the reported one |
| AdminForm.Submission | FE/src/AdminForm.jsx:228-266 | a refused form gives its check's error, an accepted one the payload |
| AdminForm.Payload | FE/src/AdminForm.jsx:257-266 | the request carries the trimmed name, the date, no number of winners, and every form group in order, numbered from 1, with a blank court sent as null |
| AdminForm.PayloadMeetsBackend | FE/src/AdminForm.jsx:255-266 | a passing form whose name and date survive Java's trim passes the backend's checks, and the groups it keeps are the filled form groups numbered by their position |
| AdminForm.NameGapBetweenTrims | FE/src/AdminForm.jsx:239 | a name made of a control character passes the form and is refused by the backend |
| AdminForm.FormState.constructor | FE/src/AdminForm.jsx:6-14 | an empty form of nine empty groups; whether a tournament runs comes from the backend |
| AdminForm.FormState.AddPlayer | FE/src/AdminForm.jsx:93-101 | a non-blank typed name is appended, trimmed, and the field cleared; a blank one changes nothing |
| AdminForm.FormState.RemovePlayer | FE/src/AdminForm.jsx:110-114 | the list becomes its non-blank lines not matching the name, joined by newlines |
| AdminForm.FormState.RemoveFromGroup | FE/src/AdminForm.jsx:178-187 | the name leaves the group and is appended to the list; groups stay within the limits |
| AdminForm.FormState.ImportFile | FE/src/AdminForm.jsx:70-81 | the list becomes the import of the normalised content |
| AdminForm.FormState.DragStart | FE/src/AdminForm.jsx:127-135 | the drag is recorded unless a tournament is running |
| AdminForm.FormState.DropToGroup | FE/src/AdminForm.jsx:142-176 | a refused drop changes nothing; an accepted one removes the name from its source (list or group), appends it to the target and ends the drag, keeping groups within the limits |
| AdminForm.FormState.Place | FE/src/AdminForm.jsx:159-175 | the group update of an accepted drop |
| AdminForm.FormState.Submit | FE/src/AdminForm.jsx:228-293 | the outcome is the form's submission; when the backend answers with an id the form is cleared and the tournament marked running, otherwise nothing changes |
| AdminForm.FormState.Reset | FE/src/AdminForm.jsx:275-286 | the cleared form after a created tournament |
| AdminForm.NoDupAppend | FE/src/AdminForm.jsx:154-173 | appending a name a group lacks keeps it free of duplicates |
| App.Step | FE/src/App.jsx:17-78 | only a logout ends the admin session, and only a login success with the login box open on the landing view starts it; a login success elsewhere and a failed fetch change nothing |
| App.StepKeepsConsistent | FE/src/App.jsx:17-78 | every handler keeps the admin view admin-only and the archived view backed by a selection |
| App.RunKeepsConsistent | FE/src/App.jsx:17-78 | so does any sequence of handlers |
| App.ReachableIsConsistent | FE/src/App.jsx:12-15 | from the first render, the admin view is shown only to an admin and the archived view only with a selection |
| App.AdminGate | FE/src/App.jsx:24-30 | asking for the admin view while not admin opens the login on the landing view and keeps the rest; as admin it opens the admin view |
| App.NavigationClearsSelection | FE/src/App.jsx:24-35 | a navigation never changes who is admin, clears the selection except in the gated case, and shows the asked view unless gated |
| App.FetchEntersArchivedView | FE/src/App.jsx:37-46 | only a successful fetch enters the archived view, with what was fetched |
| App.AdminOnlyByLogin | FE/src/App.jsx:74-78 | the only way to become admin is a login success while the login box shows, which opens the admin view |
| App.Render | FE/src/App.jsx:69-107 | the admin form renders exactly in the admin view as admin; nothing renders only in the admin view without admin or the archived view without a selection |
| App.ReachableRendersSomething | FE/src/App.jsx:69-107 | every reachable state renders a page, and the admin form exactly in the admin view |
| App.AppState.constructor | FE/src/App.jsx:12-15 | not admin, no login box, landing view, nothing selected |
| App.AppState.HandleLogout | FE/src/App.jsx:17-22 | not admin, no login box, landing view, nothing selected |
| App.AppState.HandleNavigation | FE/src/App.jsx:24-35 | the navigation step, keeping the page consistent |
| App.AppState.HandleLoginClick | FE/src/App.jsx:62-65 | the login box opens on the landing view |
| App.AppState.HandleLoginSuccess | FE/src/App.jsx:74-78 | admin, login box closed, admin view |
| App.AppState.HandleViewArchivedTournament | FE/src/App.jsx:37-46 | a fetched tournament is selected and shown; a failed fetch changes nothing |
| App.AppState.HandleBackToArchive | FE/src/App.jsx:48-51 | the selection is cleared and the archive shown |

## Left out

- The backend calls are answers passed as parameters: `getTournamentById`, `createTournament`, `createNextRound`, `updateGroupParticipants`, the report and update calls, and the reload of results after a report. The HTTP layer, the controllers and the repositories are not modelled.
- `parseInt`, `prompt`, `confirm` and `alert` are parameters or outcomes. `LocalDate.parse` is the `dateParses` parameter of `CreateTournament`, and dates are kept as text.
- The 10-second polling, `refreshData`, and the asynchronous loading of the latest tournament and its results are not modelled. They are about interleaving, not about logic.
- Rendering is not modelled, apart from `App.Render`, which says which page the state selects.
- The repositories' date-descending order and the archived flag that select tournaments for `getAllTournaments`, `getActiveTournaments` and `getArchivedTournaments` are left out. `Summaries` maps whatever sequence it is given.
- `archiveTournament`, `deleteTournament` and `deleteAllTournaments`, and the admin form's delete, archive and clear-list handlers, are not modelled.
- Ids are integers from two counters: one for tournaments, one for groups. The database generates them.
- A request whose group list is null is not modelled. The request type always carries a list.
- The creation timestamp (`createdAt`) is not modelled.
- The unused `PlayerStats` class is not modelled, and neither is the first, discarded round-grouping pass of `getPlayoffRounds`.
- `TextDecoder` and `FileReader` are left out. `ImportFile` takes the decoded text.
- `handleCourtChange` and the court selects are left out. Courts enter the model only as the form's initial empty pairs and as the payload's `court1`/`court2`.
- The drag events themselves are not modelled. A drag from a group is assumed to name a group that holds the name (`DropKeepsNames` requires it).
- `Login.jsx`, `Menu.jsx` and `ArchivedTournaments.jsx` are not modelled. The menu is assumed to offer only the landing, admin, ongoing and archive entries, which is why `MenuItem` has four values.
- `AdminForm.AddedPlayer`: its read-back guarantee assumes the typed name holds no newline. The name comes from a single-line input.
- The inline field setters are not modelled as separate handlers: the admin form's name, date and player-name inputs (`FE/src/AdminForm.jsx:310`, `322`, `340`), and the report form's score, winner and status inputs (`FE/src/MatchReportModal.jsx:89`, `105`, `127`, `137`, `154-162`). Each one only replaces one field with the typed value. The members that read those fields take the values as parameters.
- The `!hasTournament &&` double-click guards (`FE/src/AdminForm.jsx:369`, `458`) are not modelled. `FormState.RemovePlayer` and `FormState.RemoveFromGroup` can therefore be called while a tournament runs, which the page does not allow.
- `PlayoffSetup.OngoingTournament.PlayerDoubleClick`: when the sort meets a setup key with no matching group, JavaScript throws. The model ignores the click instead (`SortFails`).
- `MatchResultService.ValidRows`: the store invariant keeps ids distinct and each pairing reported once, not well-formed rows, because the update as written can store a winner who did not play (see Findings). `ReportMatch` still appends well-formed rows.
- `Rounds.SixteenGroupsSplit`: the size rule cuts 16 knockout groups into 8, 4 and 4, because later rounds never take 8. The model keeps this behaviour.

## Findings

| source | as written | input that shows it | evidently intended | confidence | as-written member | corrected member |
|---|---|---|---|---|---|---|
| BE/src/main/java/com/tennisfun/service/MatchResultService.java:132-143 | `updateMatchResult` checks a WALKOVER or RETIRED winner against the request's players but keeps the stored result's players | stored Anna–Bea result; update request Carl–Dan, WALKOVER, winner Carl | the winner must be one of the stored result's players | not executed | MatchResultService.UpdateAsWrittenStoresOutsideWinner | MatchResultService.UpdateIsWellFormed |
| BE/src/main/java/com/tennisfun/service/TournamentService.java:213 | the next round is numbered from `groups.size() + 1` | a tournament created from groups 1, 2 (empty) and 3 stores numbers 1 and 3, so its next round starts at 3 | the next round is numbered above every number in use | not executed | TournamentService.NextNumberAsWrittenClashes | TournamentService.KnockoutRoundShape |
